/** Signed envelopes on a queue: verification with staleness and dedup, and the
    consumer's batch loop. */
module Envelope {
  import opened Wrappers
  import Keyspace
  import R = Redis

  datatype QueueType = SqsStandard | SqsFifo | Dlq | EventBridge

  function DefaultStaleness(q: QueueType): nat {
    match q
    case SqsStandard => 15 * 60
    case SqsFifo => 5 * 60
    case Dlq => 24 * 60 * 60
    case EventBridge => 15 * 60
  }

  const DEFAULT_DEDUP_TTL := 24 * 60 * 60

  const PREFIX := Keyspace.ENVELOPE

  // `jti` is the text of the claim; an absent `iat` counts as 0.
  datatype Claims = Claims(queueArn: Option<string>, bodyHash: Option<string>, iat: real, jti: string)

  datatype Message = Garbled | Message(verifies: bool, claims: Claims, bodyDigest: string)

  datatype Config = Config(queueArn: string, threshold: nat, dedupTtl: nat)

  function Seconds(ms: int): int {
    ms / 1000
  }

  predicate Stale(cfg: Config, c: Claims, nowMs: int) {
    Seconds(nowMs) as real - c.iat > cfg.threshold as real
  }

  // Everything before the dedup record.
  predicate Passes(cfg: Config, m: Message, nowMs: int) {
    && m.Message? && m.verifies
    && m.claims.queueArn == Some(cfg.queueArn)
    && m.claims.bodyHash == Some(m.bodyDigest)
    && !Stale(cfg, m.claims, nowMs)
  }

  // An unreadable envelope claims nothing.
  function ClaimsOf(m: Message): Claims {
    if m.Garbled? then Claims(None, None, 0.0, "") else m.claims
  }

  function Key(m: Message): string {
    PREFIX + ClaimsOf(m).jti
  }

  function Verified(cfg: Config, m: Message, store: R.Store, checkMs: int, recordMs: int): (bool, R.Store) {
    if !Passes(cfg, m, checkMs) then (false, store)
    else
      var (store1, reply) := R.Apply(store, Key(m), R.SetNx(R.Mark, cfg.dedupTtl), recordMs);
      (reply == R.Ok, store1)
  }

  // Signed, for this queue, with this body, and no older than the threshold, in seconds.
  predicate InOrder(cfg: Config, m: Message, checkMs: int) {
    && m.Message? && m.verifies && m.claims.queueArn == Some(cfg.queueArn) && m.claims.bodyHash == Some(m.bodyDigest)
    && m.claims.iat >= (checkMs / 1000) as real - cfg.threshold as real
  }

  /** An envelope passes exactly if it is in order and its jti has no live record; it then
      has one for the full lifetime, and otherwise nothing changes. */
  lemma VerifiedExactly(cfg: Config, m: Message, store: R.Store, checkMs: int, recordMs: int)
    ensures var (ok, store') := Verified(cfg, m, store, checkMs, recordMs);
            && (ok <==> InOrder(cfg, m, checkMs) && !R.Alive(store, "env:jti:" + m.claims.jti, recordMs))
            && store' == if ok then store["env:jti:" + m.claims.jti := R.Entry(R.Mark, recordMs + cfg.dedupTtl * 1000)]
                         else store
    ensures Passes(cfg, m, checkMs) <==> InOrder(cfg, m, checkMs)
  {
  }

  method VerifyEnvelope(cfg: Config, redis: R.Server, m: Message, checkMs: int, recordMs: int, skipDedup: bool)
      returns (ok: bool)
    modifies redis
    ensures !skipDedup ==> (ok, redis.data) == Verified(cfg, m, old(redis.data), checkMs, recordMs)
    ensures skipDedup ==> redis.data == old(redis.data) && (ok <==> Passes(cfg, m, checkMs))
  {
    if m.Garbled? || !m.verifies {
      return false;
    }
    if m.claims.queueArn != Some(cfg.queueArn) {
      return false;
    }
    if Some(m.bodyDigest) != m.claims.bodyHash {
      return false;
    }
    if (checkMs / 1000) as real - m.claims.iat > cfg.threshold as real {
      return false;
    }
    if !skipDedup {
      var stored := redis.SetNx(PREFIX + m.claims.jti, R.Mark, cfg.dedupTtl, recordMs);
      return stored;
    }
    return true;
  }

  // ---------- One batch ----------

  datatype Decision = Allow | Deny | Throws

  // One received message with everything the loop meets while handling it.
  datatype Item = Item(parses: bool, message: Message, checkMs: int, recordMs: int, decision: Decision, deletable: bool)

  datatype Fate = Failed | Counted(allowed: bool, deleted: bool)

  function Handle(cfg: Config, store: R.Store, i: Item): (Fate, R.Store) {
    if !i.parses then (Failed, store)
    else
      var (ok, store1) := Verified(cfg, i.message, store, i.checkMs, i.recordMs);
      (if !ok || i.decision.Throws? then Failed else Counted(i.decision.Allow?, i.deletable), store1)
  }

  /** What becomes of a message: it counts as processed or as denied by the decision, if it
      is readable, verified, and decided at all; it is deleted if the delete succeeds. */
  lemma HandleExactly(cfg: Config, store: R.Store, i: Item)
    ensures var (fate, store') := Handle(cfg, store, i);
            var (ok, verified) := Verified(cfg, i.message, store, i.checkMs, i.recordMs);
            && (IsProcessed(fate) <==> i.parses && ok && i.decision == Allow)
            && (IsDenied(fate) <==> i.parses && ok && i.decision == Deny)
            && (IsDeleted(fate) <==> i.parses && ok && i.decision != Throws && i.deletable)
            && (IsLeft(fate) <==> !IsDeleted(fate))
            && (DeleteThrew(fate) <==> i.parses && ok && i.decision != Throws && !i.deletable)
            && store' == if i.parses then verified else store
  {
  }

  function Fates(cfg: Config, store: R.Store, items: seq<Item>): (seq<Fate>, R.Store)
    decreases items
  {
    if items == [] then ([], store)
    else
      var (before, store1) := Fates(cfg, store, items[..|items| - 1]);
      var (fate, store2) := Handle(cfg, store1, items[|items| - 1]);
      (before + [fate], store2)
  }

  function Count(fates: seq<Fate>, p: Fate -> bool): nat {
    if fates == [] then 0 else Count(fates[..|fates| - 1], p) + if p(fates[|fates| - 1]) then 1 else 0
  }

  predicate IsProcessed(f: Fate) {
    f.Counted? && f.allowed
  }

  predicate IsDenied(f: Fate) {
    f.Counted? && !f.allowed
  }

  // Left on the queue: verification or authorization failed, or the delete did.
  predicate IsLeft(f: Fate) {
    f.Failed? || !f.deleted
  }

  predicate IsDeleted(f: Fate) {
    f.Counted? && f.deleted
  }

  predicate DeleteThrew(f: Fate) {
    f.Counted? && !f.deleted
  }

  datatype BatchResult = BatchResult(processed: nat, denied: nat, failed: nat)

  lemma {:induction false} FatesLength(cfg: Config, store: R.Store, items: seq<Item>)
    ensures |Fates(cfg, store, items).0| == |items|
    decreases items
  {
    if items != [] {
      FatesLength(cfg, store, items[..|items| - 1]);
    }
  }

  // Every message is deleted or left, and counted once, or twice when its delete threw.
  lemma {:induction false} BatchAccounting(fates: seq<Fate>)
    ensures Count(fates, IsDeleted) == |fates| - Count(fates, IsLeft)
    ensures Count(fates, IsProcessed) + Count(fates, IsDenied) + Count(fates, IsLeft)
            == |fates| + Count(fates, DeleteThrew)
  {
    if fates != [] {
      BatchAccounting(fates[..|fates| - 1]);
    }
  }

  /** The loop, with its accounting for every batch and every pattern of failures: the
      successful deletes are the messages not failed, and the three counters exceed
      the messages by exactly the deletes that threw, because such a message has been
      counted before it is counted as failed. */
  method ProcessOneBatch(cfg: Config, redis: R.Server, items: seq<Item>) returns (result: BatchResult, deletes: nat)
    modifies redis
    ensures redis.data == Fates(cfg, old(redis.data), items).1
    ensures var fates := Fates(cfg, old(redis.data), items).0;
            && result == BatchResult(Count(fates, IsProcessed), Count(fates, IsDenied), Count(fates, IsLeft))
            && deletes == Count(fates, IsDeleted)
            && result.processed + result.denied + result.failed == |items| + Count(fates, DeleteThrew)
    ensures deletes == |items| - result.failed
  {
    result, deletes := BatchResult(0, 0, 0), 0;
    for k := 0 to |items|
      invariant redis.data == Fates(cfg, old(redis.data), items[..k]).1
      invariant var fates := Fates(cfg, old(redis.data), items[..k]).0;
                && result == BatchResult(Count(fates, IsProcessed), Count(fates, IsDenied), Count(fates, IsLeft))
                && deletes == Count(fates, IsDeleted)
    {
      assert items[..k + 1][..k] == items[..k];
      ghost var fates := Fates(cfg, old(redis.data), items[..k]).0;
      ghost var fate := Handle(cfg, redis.data, items[k]).0;
      assert (fates + [fate])[..|fates|] == fates;
      var i := items[k];
      if !i.parses {
        result := result.(failed := result.failed + 1);
      } else {
        var ok := VerifyEnvelope(cfg, redis, i.message, i.checkMs, i.recordMs, false);
        if !ok || i.decision.Throws? {
          result := result.(failed := result.failed + 1);
        } else {
          if i.decision.Allow? {
            result := result.(processed := result.processed + 1);
          } else {
            result := result.(denied := result.denied + 1);
          }
          if i.deletable {
            deletes := deletes + 1;
          } else {
            result := result.(failed := result.failed + 1);
          }
        }
      }
    }
    assert items[..|items|] == items;
    FatesLength(cfg, old(redis.data), items);
    BatchAccounting(Fates(cfg, old(redis.data), items).0);
  }
}

/** Any delivery and redelivery schedule over any number of consumers. */
module EnvelopeRuns {
  import opened Wrappers
  import opened Envelope
  import R = Redis

  datatype Phase = Received | Recording(checkedAtMs: int) | Passed | Finished(fate: Fate)

  datatype Delivery = Delivery(message: Message, phase: Phase)

  datatype Record = Record(jti: string, iat: real, checkedAtMs: int, recordedAtMs: int)

  datatype Sys = Sys(nowMs: int, store: R.Store, deliveries: map<nat, Delivery>, records: map<nat, Record>)

  datatype Event =
    | Tick(ms: nat)
    | Deliver(d: nat, message: Message)
    | Check(d: nat)
    | Store(d: nat)
    | Finish(d: nat, decision: Decision, deletable: bool)
    | Foreign(key: string, entry: Option<R.Entry>)

  /** `delay` bounds the time from the staleness check to the record; `lead` says how many
      seconds ahead of the clock an envelope may be dated to be answered for. */
  datatype Terms = Terms(cfg: Config, delay: nat, lead: nat)

  predicate Enabled(t: Terms, s: Sys, e: Event) {
    match e
    case Tick(_) => true
    case Deliver(d, _) => d !in s.deliveries
    case Check(d) => d in s.deliveries && s.deliveries[d].phase.Received?
    case Store(d) =>
      && d in s.deliveries && s.deliveries[d].phase.Recording?
      && s.nowMs - s.deliveries[d].phase.checkedAtMs <= t.delay
    case Finish(d, _, _) => d in s.deliveries && s.deliveries[d].phase.Passed?
    case Foreign(key, _) => !(PREFIX <= key)
  }

  function Move(s: Sys, d: nat, phase: Phase): Sys
    requires d in s.deliveries
  {
    s.(deliveries := s.deliveries[d := s.deliveries[d].(phase := phase)])
  }

  // SET NX succeeded.
  function Recorded(t: Terms, s: Sys, d: nat): Sys
    requires d in s.deliveries && s.deliveries[d].phase.Recording?
  {
    var m := s.deliveries[d].message;
    var r := Record(ClaimsOf(m).jti, ClaimsOf(m).iat, s.deliveries[d].phase.checkedAtMs, s.nowMs);
    Move(s, d, Passed).(store := R.Apply(s.store, Key(m), R.SetNx(R.Mark, t.cfg.dedupTtl), s.nowMs).0,
    records := s.records[d := r])
  }

  function Next(t: Terms, s: Sys, e: Event): Sys
    requires Enabled(t, s, e)
  {
    match e
    case Tick(ms) => s.(nowMs := s.nowMs + ms)
    case Deliver(d, m) => s.(deliveries := s.deliveries[d := Delivery(m, Received)])
    case Check(d) =>
      Move(s, d, if Passes(t.cfg, s.deliveries[d].message, s.nowMs) then Recording(s.nowMs) else Finished(Failed))
    case Store(d) =>
      if R.Alive(s.store, Key(s.deliveries[d].message), s.nowMs) then Move(s, d, Finished(Failed))
      else Recorded(t, s, d)
    case Finish(d, decision, deletable) =>
      Move(s, d, Finished(if decision.Throws? then Failed else Counted(decision.Allow?, deletable)))
    case Foreign(key, entry) =>
      s.(store := match entry case Some(v) => s.store[key := v] case None => s.store - {key})
  }

  ghost predicate Leads(t: Terms, s: Sys, s': Sys) {
    exists e :: Enabled(t, s, e) && s' == Next(t, s, e)
  }

  ghost predicate Path(t: Terms, p: seq<Sys>) {
    p != [] && p[0] == Sys(p[0].nowMs, map[], map[], map[]) && forall i :: 0 <= i < |p| - 1 ==> Leads(t, p[i], p[i + 1])
  }

  ghost predicate Reachable(t: Terms, s: Sys) {
    exists p :: Path(t, p) && p[|p| - 1] == s
  }

  lemma Extend(t: Terms, s: Sys, e: Event)
    requires Reachable(t, s) && Enabled(t, s, e)
    ensures Reachable(t, Next(t, s, e))
  {
    var p :| Path(t, p) && p[|p| - 1] == s;
    var q := p + [Next(t, s, e)];
    forall i | 0 <= i < |q| - 1
      ensures Leads(t, q[i], q[i + 1])
    {
      if i < |p| - 1 {
        assert Leads(t, p[i], p[i + 1]);
      }
    }
    assert Path(t, q);
  }

  // ---------- The code of one message is a run ----------

  // The record and what follows, for a message that passed its check.
  lemma RecordingIsARun(t: Terms, s: Sys, d: nat, i: Item) returns (s': Sys)
    requires Reachable(t, s) && d in s.deliveries && s.deliveries[d] == Delivery(i.message, Recording(i.checkMs))
    requires i.parses && Passes(t.cfg, i.message, i.checkMs)
    requires s.nowMs == i.recordMs && i.recordMs - i.checkMs <= t.delay
    ensures Reachable(t, s') && d in s'.deliveries && s'.deliveries[d].phase.Finished?
    ensures Handle(t.cfg, s.store, i) == (s'.deliveries[d].phase.fate, s'.store)
  {
    Extend(t, s, Store(d));
    s' := Next(t, s, Store(d));
    if s'.deliveries[d].phase.Passed? {
      Extend(t, s', Finish(d, i.decision, i.deletable));
      s' := Next(t, s', Finish(d, i.decision, i.deletable));
    }
  }

  /** What the consumer does with one readable message, with nothing in between, is one
      of these runs, and it ends with the same fate and the same records. */
  lemma HandleIsARun(t: Terms, s: Sys, d: nat, i: Item) returns (s': Sys)
    requires Reachable(t, s) && d !in s.deliveries && i.parses
    requires s.nowMs <= i.checkMs <= i.recordMs <= i.checkMs + t.delay
    ensures Reachable(t, s') && d in s'.deliveries && s'.deliveries[d].phase.Finished?
    ensures Handle(t.cfg, s.store, i) == (s'.deliveries[d].phase.fate, s'.store)
  {
    Extend(t, s, Deliver(d, i.message));
    s' := Next(t, s, Deliver(d, i.message));
    Extend(t, s', Tick(i.checkMs - s.nowMs));
    s' := s'.(nowMs := i.checkMs);
    Extend(t, s', Check(d));
    s' := Next(t, s', Check(d));
    if s'.deliveries[d].phase.Recording? {
      Extend(t, s', Tick(i.recordMs - i.checkMs));
      s' := RecordingIsARun(t, s'.(nowMs := i.recordMs), d, i);
    }
  }

  // ---------- At most once ----------

  // When the check passed, the envelope was dated at most `lead` seconds ahead.
  predicate Punctual(t: Terms, iat: real, checkedAtMs: int) {
    iat <= Seconds(checkedAtMs) as real + t.lead as real
  }

  predicate OneRecord(t: Terms, s: Sys) {
    forall c, d | c in s.records && d in s.records ::
      && s.records[c].jti == s.records[d].jti && s.records[c].iat == s.records[d].iat
      && Punctual(t, s.records[c].iat, s.records[c].checkedAtMs)
      && Punctual(t, s.records[d].iat, s.records[d].checkedAtMs)
      ==> c == d
  }

  predicate Traced(s: Sys) {
    forall d :: d in s.deliveries && (s.deliveries[d].phase.Passed? || Counts(s, d)) ==>
      && d in s.records
      && s.records[d].jti == ClaimsOf(s.deliveries[d].message).jti
      && s.records[d].iat == ClaimsOf(s.deliveries[d].message).iat
  }

  // Checked by iat + threshold.
  predicate Timely(t: Terms, iat: real, checkedAtMs: int) {
    Seconds(checkedAtMs) as real <= iat + t.cfg.threshold as real
  }

  predicate Vetted(t: Terms, s: Sys) {
    forall d :: d in s.deliveries && s.deliveries[d].phase.Recording? ==>
      s.deliveries[d].phase.checkedAtMs <= s.nowMs
      && Timely(t, ClaimsOf(s.deliveries[d].message).iat, s.deliveries[d].phase.checkedAtMs)
  }

  predicate Covered(t: Terms, s: Sys) {
    forall d :: d in s.records ==>
      var r := s.records[d];
      r.checkedAtMs <= r.recordedAtMs && Timely(t, r.iat, r.checkedAtMs) && Kept(t, s, r)
  }

  // The record is in the store for at least its own lifetime.
  predicate Kept(t: Terms, s: Sys, r: Record) {
    && r.recordedAtMs <= s.nowMs && PREFIX + r.jti in s.store
    && r.recordedAtMs + t.cfg.dedupTtl * 1000 <= s.store[PREFIX + r.jti].expiresAtMs
  }

  lemma StepKeepsRecords(t: Terms, s: Sys, e: Event)
    requires Enabled(t, s, e) && forall d :: d in s.records ==> Kept(t, s, s.records[d])
    ensures var s' := Next(t, s, e); forall d :: d in s'.records ==> Kept(t, s', s'.records[d])
  {
    if e.Foreign? {
      assert forall jti :: PREFIX <= PREFIX + jti;
    }
  }

  lemma {:induction false} PathKeepsRecords(t: Terms, p: seq<Sys>, i: nat)
    requires Path(t, p) && i < |p|
    ensures forall d :: d in p[i].records ==> Kept(t, p[i], p[i].records[d])
  {
    if i > 0 {
      PathKeepsRecords(t, p, i - 1);
      assert Leads(t, p[i - 1], p[i - 1 + 1]);
      var e :| Enabled(t, p[i - 1], e) && p[i] == Next(t, p[i - 1], e);
      StepKeepsRecords(t, p[i - 1], e);
    }
  }

  predicate Inv(t: Terms, s: Sys) {
    OneRecord(t, s) && Traced(s) && Vetted(t, s) && Covered(t, s)
  }

  predicate LongEnough(t: Terms) {
    t.cfg.dedupTtl * 1000 >= (t.cfg.threshold + t.lead + 1) * 1000 + t.delay
  }

  lemma StaleWindow(t: Terms, iat: real, t0: int, t1: int)
    requires Punctual(t, iat, t0) && Timely(t, iat, t1)
    ensures t1 - t0 < (t.cfg.threshold + t.lead + 1) * 1000
  {
    assert (Seconds(t1) - Seconds(t0)) as real <= t.cfg.threshold as real + t.lead as real;
    assert Seconds(t1) - Seconds(t0) <= t.cfg.threshold + t.lead;
  }

  lemma SameKey(a: string, b: string)
    ensures PREFIX + a == PREFIX + b <==> a == b
  {
    assert (PREFIX + a)[|PREFIX|..] == a && (PREFIX + b)[|PREFIX|..] == b;
  }

  lemma RecordStillAlive(t: Terms, s: Sys, c: nat, d: nat)
    requires Inv(t, s) && LongEnough(t) && Enabled(t, s, Store(d)) && c in s.records
    requires Punctual(t, s.records[c].iat, s.records[c].checkedAtMs)
    requires s.records[c].jti == ClaimsOf(s.deliveries[d].message).jti
    requires s.records[c].iat == ClaimsOf(s.deliveries[d].message).iat
    ensures R.Alive(s.store, Key(s.deliveries[d].message), s.nowMs)
  {
    StaleWindow(t, s.records[c].iat, s.records[c].checkedAtMs, s.deliveries[d].phase.checkedAtMs);
  }

  lemma RefusalKeepsInv(t: Terms, s: Sys, d: nat)
    requires Inv(t, s) && d in s.deliveries
    ensures Inv(t, Move(s, d, Finished(Failed)))
  {
  }

  lemma RecordingKeepsInv(t: Terms, s: Sys, d: nat)
    requires Inv(t, s) && d in s.deliveries && s.deliveries[d].phase.Recording?
    requires forall c :: c in s.records && Punctual(t, s.records[c].iat, s.records[c].checkedAtMs) ==>
               !(s.records[c].jti == ClaimsOf(s.deliveries[d].message).jti
                 && s.records[c].iat == ClaimsOf(s.deliveries[d].message).iat)
    requires !R.Alive(s.store, Key(s.deliveries[d].message), s.nowMs)
    ensures Inv(t, Recorded(t, s, d))
  {
    var m := s.deliveries[d].message;
    forall c | c in s.records
      ensures PREFIX + s.records[c].jti == Key(m) <==> s.records[c].jti == ClaimsOf(m).jti
    {
      SameKey(s.records[c].jti, ClaimsOf(m).jti);
    }
  }

  lemma StoreKeepsInv(t: Terms, s: Sys, d: nat)
    requires Inv(t, s) && LongEnough(t) && Enabled(t, s, Store(d))
    ensures Inv(t, Next(t, s, Store(d)))
  {
    if R.Alive(s.store, Key(s.deliveries[d].message), s.nowMs) {
      RefusalKeepsInv(t, s, d);
    } else {
      forall c | c in s.records && s.records[c].jti == ClaimsOf(s.deliveries[d].message).jti
                 && s.records[c].iat == ClaimsOf(s.deliveries[d].message).iat
                 && Punctual(t, s.records[c].iat, s.records[c].checkedAtMs)
        ensures false
      {
        RecordStillAlive(t, s, c, d);
      }
      RecordingKeepsInv(t, s, d);
    }
  }

  lemma ForeignKeepsInv(t: Terms, s: Sys, key: string, entry: Option<R.Entry>)
    requires Inv(t, s) && Enabled(t, s, Foreign(key, entry))
    ensures Inv(t, Next(t, s, Foreign(key, entry)))
  {
    assert forall jti :: PREFIX <= PREFIX + jti;
  }

  lemma StepKeepsInv(t: Terms, s: Sys, e: Event)
    requires Inv(t, s) && LongEnough(t) && Enabled(t, s, e)
    ensures Inv(t, Next(t, s, e))
  {
    match e
    case Store(d) => StoreKeepsInv(t, s, d);
    case Foreign(key, entry) => ForeignKeepsInv(t, s, key, entry);
    case _ =>
  }

  lemma {:induction false} PathKeepsInv(t: Terms, p: seq<Sys>, i: nat)
    requires LongEnough(t) && Path(t, p) && i < |p|
    ensures Inv(t, p[i])
  {
    if i > 0 {
      PathKeepsInv(t, p, i - 1);
      assert Leads(t, p[i - 1], p[i - 1 + 1]);
      var e :| Enabled(t, p[i - 1], e) && p[i] == Next(t, p[i - 1], e);
      StepKeepsInv(t, p[i - 1], e);
    }
  }

  // The delivery added one to processed or to denied.
  predicate Counts(s: Sys, d: nat) {
    d in s.deliveries && s.deliveries[d].phase.Finished? && s.deliveries[d].phase.fate.Counted?
  }

  predicate SameEnvelope(a: Message, b: Message) {
    ClaimsOf(a).jti == ClaimsOf(b).jti && ClaimsOf(a).iat == ClaimsOf(b).iat
  }

  // It was not dated too far ahead when its check passed.
  predicate Answered(t: Terms, s: Sys, d: nat) {
    d in s.records && Punctual(t, s.records[d].iat, s.records[d].checkedAtMs)
  }

  // Each envelope dated at most `lead` seconds ahead at its first check, which puts it
  // no further ahead at any later one, contributes at most one to processed + denied.
  ghost predicate AtMostOnce(t: Terms, s: Sys) {
    forall c, d | Counts(s, c) && Counts(s, d) && Answered(t, s, c) && Answered(t, s, d) ::
      SameEnvelope(s.deliveries[c].message, s.deliveries[d].message) ==> c == d
  }

  ghost predicate OnceOnly(t: Terms) {
    forall s | Reachable(t, s) :: AtMostOnce(t, s)
  }

  lemma LongRecordsProcessOnce(t: Terms)
    requires LongEnough(t)
    ensures OnceOnly(t)
  {
    forall s | Reachable(t, s)
      ensures AtMostOnce(t, s)
    {
      var p :| Path(t, p) && p[|p| - 1] == s;
      PathKeepsInv(t, p, |p| - 1);
    }
  }

  // ---------- The bound is exact ----------

  function Sample(cfg: Config, iat: real): Message {
    Message(true, Claims(Some(cfg.queueArn), Some("h"), iat, "j"), "h")
  }

  lemma Start(t: Terms)
    ensures Reachable(t, Sys(0, map[], map[], map[]))
  {
    assert Path(t, [Sys(0, map[], map[], map[])]);
  }

  lemma Arrive(t: Terms, s: Sys, d: nat, iat: real) returns (s': Sys)
    requires Reachable(t, s) && d !in s.deliveries && Timely(t, iat, s.nowMs)
    ensures s' == s.(deliveries := s.deliveries[d := Delivery(Sample(t.cfg, iat), Recording(s.nowMs))])
    ensures Reachable(t, s')
  {
    var m := Sample(t.cfg, iat);
    Extend(t, s, Deliver(d, m));
    var s1 := s.(deliveries := s.deliveries[d := Delivery(m, Received)]);
    assert Passes(t.cfg, m, s.nowMs);
    Extend(t, s1, Check(d));
    s' := Move(s1, d, Recording(s.nowMs));
  }

  // One delivery taken through to the end, `wait` ms between check and record.
  lemma Visit(t: Terms, s: Sys, d: nat, iat: real, wait: nat) returns (s': Sys)
    requires Reachable(t, s) && d !in s.deliveries && wait <= t.delay && Timely(t, iat, s.nowMs)
    requires !R.Alive(s.store, PREFIX + "j", s.nowMs + wait)
    ensures Reachable(t, s') && s'.nowMs == s.nowMs + wait
    ensures s'.store == s.store[PREFIX + "j" := R.Entry(R.Mark, s'.nowMs + t.cfg.dedupTtl * 1000)]
    ensures s'.deliveries == s.deliveries[d := Delivery(Sample(t.cfg, iat), Finished(Counted(true, true)))]
    ensures s'.records == s.records[d := Record("j", iat, s.nowMs, s'.nowMs)]
  {
    var s1 := Arrive(t, s, d, iat);
    Extend(t, s1, Tick(wait));
    s' := Close(t, s1.(nowMs := s.nowMs + wait), d);
  }

  lemma Close(t: Terms, s: Sys, d: nat) returns (s': Sys)
    requires Reachable(t, s) && Enabled(t, s, Store(d)) && !R.Alive(s.store, Key(s.deliveries[d].message), s.nowMs)
    ensures Reachable(t, s') && s'.nowMs == s.nowMs
    ensures s'.store == s.store[Key(s.deliveries[d].message) := R.Entry(R.Mark, s.nowMs + t.cfg.dedupTtl * 1000)]
    ensures s'.deliveries == s.deliveries[d := Delivery(s.deliveries[d].message, Finished(Counted(true, true)))]
    ensures s'.records == Recorded(t, s, d).records
  {
    Extend(t, s, Store(d));
    var s1 := Recorded(t, s, d);
    Extend(t, s1, Finish(d, Allow, true));
    s' := Move(s1, d, Finished(Counted(true, true)));
  }

  // Two visits of one envelope, the second when the first record has just expired.
  lemma TwoVisits(t: Terms, iat: real, gap: nat, wait: nat) returns (s: Sys)
    requires wait <= t.delay && t.cfg.dedupTtl * 1000 == gap + wait
    requires Seconds(gap) as real <= iat + t.cfg.threshold as real && 0.0 <= iat + t.cfg.threshold as real
    requires iat <= t.lead as real
    ensures Reachable(t, s) && !AtMostOnce(t, s)
  {
    Start(t);
    var s1 := Visit(t, Sys(0, map[], map[], map[]), 0, iat, 0);
    Extend(t, s1, Tick(gap));
    var s2 := s1.(nowMs := gap);
    assert Seconds(gap) >= 0;
    s := Visit(t, s2, 1, iat, wait);
    assert s.deliveries[0].message == s.deliveries[1].message;
    assert Counts(s, 0) && Counts(s, 1) && SameEnvelope(s.deliveries[0].message, s.deliveries[1].message);
  }

  lemma ShortRecordsProcessTwice(t: Terms)
    requires !LongEnough(t)
    ensures !OnceOnly(t)
  {
    var last := (t.cfg.threshold + t.lead + 1) * 1000 - 1;
    var gap := if t.cfg.dedupTtl * 1000 < last then t.cfg.dedupTtl * 1000 else last;
    assert Seconds(gap) <= t.cfg.threshold + t.lead;
    var _ := TwoVisits(t, t.lead as real, gap, t.cfg.dedupTtl * 1000 - gap);
  }

  /** Each envelope dated at most `lead` seconds ahead at its first check, in whatever
      company, is processed or denied at most once over every delivery schedule exactly
      when the dedup record outlives the staleness threshold and the lead, rounded up
      to the next second, plus the delay. */
  lemma ProcessedOnceExactly(t: Terms)
    ensures OnceOnly(t) <==> t.cfg.dedupTtl * 1000 >= (t.cfg.threshold + t.lead + 1) * 1000 + t.delay
  {
    if LongEnough(t) {
      LongRecordsProcessOnce(t);
    } else {
      ShortRecordsProcessTwice(t);
    }
  }

  /** So no dedup TTL protects envelopes dated arbitrarily far ahead: the staleness check
      has no lower bound. */
  lemma FutureDatesOutliveDedup(cfg: Config, delay: nat)
    ensures exists lead :: !OnceOnly(Terms(cfg, delay, lead))
  {
    ProcessedOnceExactly(Terms(cfg, delay, cfg.dedupTtl));
  }

  /** For envelopes not dated ahead, the default 24 h record and instantaneous steps, every queue type is safe
      except the dead-letter queue, whose threshold equals the record's lifetime. */
  lemma DefaultsSafeExceptDlq(queueArn: string, q: QueueType)
    ensures OnceOnly(Terms(Config(queueArn, DefaultStaleness(q), DEFAULT_DEDUP_TTL), 0, 0)) <==> q != Dlq
  {
    ProcessedOnceExactly(Terms(Config(queueArn, DefaultStaleness(q), DEFAULT_DEDUP_TTL), 0, 0));
  }

  /** How long a record each queue type needs, under the same conditions: one second more
      than its default threshold. */
  lemma DefaultsNeed(queueArn: string, q: QueueType, dedupTtl: nat)
    ensures OnceOnly(Terms(Config(queueArn, DefaultStaleness(q), dedupTtl), 0, 0)) <==>
              dedupTtl >= match q
                          case SqsStandard => 901
                          case SqsFifo => 301
                          case Dlq => 86401
                          case EventBridge => 901
  {
    ProcessedOnceExactly(Terms(Config(queueArn, DefaultStaleness(q), dedupTtl), 0, 0));
  }

  /** Once verified, every redelivery that reaches its record inside the window fails,
      on any schedule. */
  lemma RedeliveryFails(t: Terms, s: Sys, c: nat, d: nat)
    requires Reachable(t, s) && c in s.records && Enabled(t, s, Store(d))
    requires s.records[c].jti == ClaimsOf(s.deliveries[d].message).jti
    requires s.nowMs < s.records[c].recordedAtMs + t.cfg.dedupTtl * 1000
    ensures Next(t, s, Store(d)).deliveries[d].phase == Finished(Failed)
  {
    var p :| Path(t, p) && p[|p| - 1] == s;
    PathKeepsRecords(t, p, |p| - 1);
  }
}
