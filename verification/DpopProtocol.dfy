/** Any number of verifier calls interleaved at their awaits, on a Redis shared
    with other clients, while the clock moves forward. */
module DpopProtocol {
  import opened Wrappers
  import opened Dpop
  import R = Redis

  datatype Call = Call(input: Input, phase: Phase)

  // History: which call recorded a jti, consumed a nonce, or issued one.
  datatype Record = Record(jti: string, iat: real, checkedAtMs: int, recordedAtMs: int)

  datatype Stamp = Stamp(nonce: string, atMs: int)

  datatype Sys = Sys(nowMs: int, store: R.Store, calls: map<nat, Call>, records: map<nat, Record>,
                     issues: map<nat, Stamp>, consumptions: map<nat, Stamp>)

  function Init(nowMs: int): Sys {
    Sys(nowMs, map[], map[], map[], map[], map[])
  }

  datatype Event =
    | Tick(ms: nat)
    | Begin(call: nat, input: Input)
    | Check(call: nat)
    | Consume(call: nat)
    | Challenge(call: nat, nonce: string)
    | Unstored(call: nat, nonce: string)                 // challenged although the nonce could not be stored
    | Store(call: nat)
    | Bind(call: nat)
    | Abort(call: nat)                                   // Redis or the process fails at an await
    | Foreign(key: string, entry: Option<R.Entry>)       // another client of the same Redis

  // `delay` bounds the time from the iat check to the jti record, if at all.
  predicate Enabled(cfg: Config, delay: Option<nat>, s: Sys, e: Event) {
    match e
    case Tick(_) => true
    case Begin(c, _) => c !in s.calls
    case Check(c) => c in s.calls && s.calls[c].phase.Presented?
    case Consume(c) => c in s.calls && s.calls[c].phase.Consuming?
    case Challenge(c, _) => c in s.calls && s.calls[c].phase.Challenging?
    case Unstored(c, _) => c in s.calls && s.calls[c].phase.Challenging?
    case Store(c) =>
      && c in s.calls && s.calls[c].phase.Recording?
      && (delay.Some? ==> s.nowMs - s.calls[c].phase.checkedAtMs <= delay.value)
    case Bind(c) => c in s.calls && s.calls[c].phase.Binding?
    case Abort(c) => c in s.calls && !s.calls[c].phase.Accepted? && !s.calls[c].phase.Rejected?
    case Foreign(key, _) => !(cfg.jtiPrefix <= key) && !(cfg.noncePrefix <= key)
  }

  function Move(s: Sys, c: nat, phase: Phase): Sys
    requires c in s.calls
  {
    s.(calls := s.calls[c := s.calls[c].(phase := phase)])
  }

  function AfterCheck(cfg: Config, crypto: Crypto, s: Sys, c: nat): Sys
    requires Enabled(cfg, None, s, Check(c))
  {
    Move(s, c, CheckStep(cfg, crypto, s.calls[c].input, s.nowMs))
  }

  function AfterConsume(cfg: Config, s: Sys, c: nat): Sys
    requires Enabled(cfg, None, s, Consume(c))
  {
    var i := s.calls[c].input;
    var (phase, store) := ConsumeStep(cfg, i, s.calls[c].phase.checkedAtMs, s.store, s.nowMs);
    Move(s, c, phase).(store := store,
    consumptions := if phase.Recording? then s.consumptions[c := Stamp(ClaimsOf(i.proof).nonce, s.nowMs)]
    else s.consumptions)
  }

  function AfterChallenge(cfg: Config, s: Sys, c: nat, n: string): Sys
    requires Enabled(cfg, None, s, Challenge(c, n))
  {
    var (phase, store) := ChallengeStep(cfg, n, s.store, s.nowMs);
    Move(s, c, phase).(store := store,
    issues := if R.Alive(s.store, NonceKey(cfg, n), s.nowMs) then s.issues else s.issues[c := Stamp(n, s.nowMs)])
  }

  function AfterStore(cfg: Config, s: Sys, c: nat): Sys
    requires Enabled(cfg, None, s, Store(c))
  {
    var i := s.calls[c].input;
    var (phase, store) := RecordStep(cfg, i, s.store, s.nowMs);
    var claims := ClaimsOf(i.proof);
    Move(s, c, phase).(store := store,
    records := if phase.Binding?
    then s.records[c := Record(claims.jti, claims.iat, s.calls[c].phase.checkedAtMs, s.nowMs)]
    else s.records)
  }

  function AfterBind(crypto: Crypto, s: Sys, c: nat): Sys
    requires c in s.calls && s.calls[c].phase.Binding?
  {
    Move(s, c, BindStep(crypto, s.calls[c].input))
  }

  function AfterForeign(s: Sys, key: string, entry: Option<R.Entry>): Sys {
    s.(store := match entry case Some(v) => s.store[key := v] case None => s.store - {key})
  }

  function Next(cfg: Config, crypto: Crypto, s: Sys, e: Event): Sys
    requires Enabled(cfg, None, s, e)
  {
    match e
    case Tick(ms) => s.(nowMs := s.nowMs + ms)
    case Begin(c, i) => s.(calls := s.calls[c := Call(i, Presented)])
    case Check(c) => AfterCheck(cfg, crypto, s, c)
    case Consume(c) => AfterConsume(cfg, s, c)
    case Challenge(c, n) => AfterChallenge(cfg, s, c, n)
    case Unstored(c, n) => Move(s, c, Rejected(Auth(401, UseDpopNonce, Some(n))))
    case Store(c) => AfterStore(cfg, s, c)
    case Bind(c) => AfterBind(crypto, s, c)
    case Abort(c) => Move(s, c, Rejected(Plain))
    case Foreign(key, entry) => AfterForeign(s, key, entry)
  }

  // A step concerns one call.
  lemma OthersUntouched(cfg: Config, crypto: Crypto, s: Sys, e: Event)
    requires Enabled(cfg, None, s, e) && !e.Tick? && !e.Foreign?
    ensures var s' := Next(cfg, crypto, s, e);
            && s'.nowMs == s.nowMs && s'.calls.Keys == s.calls.Keys + {e.call}
            && (forall c :: c in s.calls && c != e.call ==> s'.calls[c] == s.calls[c])
            && (forall c :: c != e.call ==> (c in s'.records <==> c in s.records))
            && (forall c :: c in s.records && c != e.call ==> s'.records[c] == s.records[c])
  {
  }

  predicate Admissible(cfg: Config, crypto: Crypto, delay: Option<nat>, s: Sys, es: seq<Event>)
    decreases es
  {
    es == [] || (Enabled(cfg, delay, s, es[0]) && Admissible(cfg, crypto, delay, Next(cfg, crypto, s, es[0]), es[1..]))
  }

  function Run(cfg: Config, crypto: Crypto, delay: Option<nat>, s: Sys, es: seq<Event>): Sys
    requires Admissible(cfg, crypto, delay, s, es)
    decreases es
  {
    if es == [] then s else Run(cfg, crypto, delay, Next(cfg, crypto, s, es[0]), es[1..])
  }

  // ---------- Composing runs ----------

  lemma Cons(cfg: Config, crypto: Crypto, delay: Option<nat>, s: Sys, e: Event, es: seq<Event>)
    requires Enabled(cfg, delay, s, e) && Admissible(cfg, crypto, delay, Next(cfg, crypto, s, e), es)
    ensures Admissible(cfg, crypto, delay, s, [e] + es)
    ensures Run(cfg, crypto, delay, s, [e] + es) == Run(cfg, crypto, delay, Next(cfg, crypto, s, e), es)
  {
    assert ([e] + es)[1..] == es;
  }

  lemma {:induction false} Append(cfg: Config, crypto: Crypto, delay: Option<nat>, s: Sys,
                                  es: seq<Event>, fs: seq<Event>)
    requires Admissible(cfg, crypto, delay, s, es)
    requires Admissible(cfg, crypto, delay, Run(cfg, crypto, delay, s, es), fs)
    ensures Admissible(cfg, crypto, delay, s, es + fs)
    ensures Run(cfg, crypto, delay, s, es + fs) == Run(cfg, crypto, delay, Run(cfg, crypto, delay, s, es), fs)
    decreases es
  {
    if es == [] {
      assert es + fs == fs;
    } else {
      Append(cfg, crypto, delay, Next(cfg, crypto, s, es[0]), es[1..], fs);
      assert (es + fs)[1..] == es[1..] + fs;
    }
  }

  lemma {:induction false} Split(cfg: Config, crypto: Crypto, delay: Option<nat>, s: Sys,
                                 es: seq<Event>, fs: seq<Event>)
    requires Admissible(cfg, crypto, delay, s, es + fs)
    ensures Admissible(cfg, crypto, delay, s, es)
    ensures Admissible(cfg, crypto, delay, Run(cfg, crypto, delay, s, es), fs)
    decreases es
  {
    if es == [] {
      assert es + fs == fs;
    } else {
      assert (es + fs)[1..] == es[1..] + fs;
      Split(cfg, crypto, delay, Next(cfg, crypto, s, es[0]), es[1..], fs);
    }
  }

  // ---------- Single steps that go well ----------

  lemma ConsumeSucceeds(cfg: Config, s: Sys, c: nat)
    requires Enabled(cfg, None, s, Consume(c))
    requires R.Alive(s.store, NonceKey(cfg, ClaimsOf(s.calls[c].input.proof).nonce), s.nowMs)
    ensures var i := s.calls[c].input;
            AfterConsume(cfg, s, c) ==
            s.(calls := s.calls[c := Call(i, Recording(s.calls[c].phase.checkedAtMs))],
            store := s.store - {NonceKey(cfg, ClaimsOf(i.proof).nonce)},
            consumptions := s.consumptions[c := Stamp(ClaimsOf(i.proof).nonce, s.nowMs)])
  {
  }

  lemma StoreSucceeds(cfg: Config, s: Sys, c: nat)
    requires Enabled(cfg, None, s, Store(c)) && ClaimsOf(s.calls[c].input.proof).jti != ""
    requires !R.Alive(s.store, JtiKey(cfg, ClaimsOf(s.calls[c].input.proof).jti), s.nowMs)
    ensures var i := s.calls[c].input;
            var r := Record(ClaimsOf(i.proof).jti, ClaimsOf(i.proof).iat, s.calls[c].phase.checkedAtMs, s.nowMs);
            AfterStore(cfg, s, c) ==
            s.(calls := s.calls[c := Call(i, Binding)], records := s.records[c := r],
            store := s.store[JtiKey(cfg, r.jti) := R.Entry(R.Mark, s.nowMs + cfg.jtiTtl * 1000)])
  {
  }

  lemma StoreRefused(cfg: Config, s: Sys, c: nat)
    requires Enabled(cfg, None, s, Store(c))
    requires ClaimsOf(s.calls[c].input.proof).jti == ""
             || R.Alive(s.store, JtiKey(cfg, ClaimsOf(s.calls[c].input.proof).jti), s.nowMs)
    ensures var s' := AfterStore(cfg, s, c);
            s'.calls[c].phase.Rejected? && s' == s.(calls := s.calls[c := Call(s.calls[c].input, s'.calls[c].phase)])
  {
  }

  // How every call starts, and how one that gets through ends.
  function Opening(c: nat, i: Input): seq<Event> {
    [Begin(c, i)] + ([Check(c)] + [])
  }

  function Closing(c: nat): seq<Event> {
    [Store(c)] + ([Bind(c)] + [])
  }

  lemma OpeningRuns(cfg: Config, crypto: Crypto, delay: Option<nat>, s: Sys, c: nat, i: Input)
    requires c !in s.calls
    ensures Admissible(cfg, crypto, delay, s, Opening(c, i))
    ensures Run(cfg, crypto, delay, s, Opening(c, i))
            == s.(calls := s.calls[c := Call(i, CheckStep(cfg, crypto, i, s.nowMs))])
  {
    var s1 := s.(calls := s.calls[c := Call(i, Presented)]);
    var s2 := s.(calls := s.calls[c := Call(i, CheckStep(cfg, crypto, i, s.nowMs))]);
    assert AfterCheck(cfg, crypto, s1, c) == s2;
    Cons(cfg, crypto, delay, s1, Check(c), []);
    Cons(cfg, crypto, delay, s, Begin(c, i), [Check(c)] + []);
  }

  lemma ClosingRuns(cfg: Config, crypto: Crypto, delay: Option<nat>, s: Sys, c: nat)
    requires Enabled(cfg, delay, s, Store(c)) && ClaimsOf(s.calls[c].input.proof).jti != ""
    requires !R.Alive(s.store, JtiKey(cfg, ClaimsOf(s.calls[c].input.proof).jti), s.nowMs)
    ensures Admissible(cfg, crypto, delay, s, Closing(c))
    ensures var s' := Run(cfg, crypto, delay, s, Closing(c));
            var i := s.calls[c].input;
            && s'.nowMs == s.nowMs && s'.calls == s.calls[c := Call(i, BindStep(crypto, i))]
            && s'.store == s.store[JtiKey(cfg, ClaimsOf(i.proof).jti) := R.Entry(R.Mark, s.nowMs + cfg.jtiTtl * 1000)]
  {
    StoreSucceeds(cfg, s, c);
    var s1 := AfterStore(cfg, s, c);
    Cons(cfg, crypto, delay, s1, Bind(c), []);
    Cons(cfg, crypto, delay, s, Store(c), [Bind(c)] + []);
  }

  // ---------- The code of one call is a run of the protocol ----------

  ghost predicate Reaches(cfg: Config, crypto: Crypto, s: Sys, t: Sys) {
    exists es :: Admissible(cfg, crypto, None, s, es) && Run(cfg, crypto, None, s, es) == t
  }

  lemma ReachesStep(cfg: Config, crypto: Crypto, s: Sys, t: Sys, e: Event)
    requires Reaches(cfg, crypto, s, t) && Enabled(cfg, None, t, e)
    ensures Reaches(cfg, crypto, s, Next(cfg, crypto, t, e))
  {
    var es :| Admissible(cfg, crypto, None, s, es) && Run(cfg, crypto, None, s, es) == t;
    Cons(cfg, crypto, None, t, e, []);
    Append(cfg, crypto, None, s, es, [e] + []);
  }

  lemma ReachesWait(cfg: Config, crypto: Crypto, s: Sys, t: Sys, atMs: int)
    requires Reaches(cfg, crypto, s, t) && t.nowMs <= atMs
    ensures Reaches(cfg, crypto, s, t.(nowMs := atMs))
  {
    ReachesStep(cfg, crypto, s, t, Tick(atMs - t.nowMs));
  }

  // The second half of a call: challenge, or record and bind.
  lemma FinishIsARun(cfg: Config, crypto: Crypto, s: Sys, t: Sys, c: nat, m: Moments)
    requires Reaches(cfg, crypto, s, t) && c in t.calls
    requires t.calls[c].phase.Challenging? || t.calls[c].phase.Recording?
    requires t.nowMs <= m.issueMs && t.nowMs <= m.recordMs
    ensures var (phase, store) := Finish(cfg, crypto, t.calls[c].input, t.store, m, t.calls[c].phase);
            Arrives(cfg, crypto, s, c, Call(t.calls[c].input, phase), store)
  {
    var i := t.calls[c].input;
    if t.calls[c].phase.Challenging? {
      var t1 := t.(nowMs := m.issueMs);
      ReachesWait(cfg, crypto, s, t, m.issueMs);
      ReachesStep(cfg, crypto, s, t1, Challenge(c, m.challenge));
      var u := AfterChallenge(cfg, t1, c, m.challenge);
      assert Landed(cfg, crypto, s, u, c, Call(i, u.calls[c].phase), u.store);
    } else {
      var t1 := t.(nowMs := m.recordMs);
      ReachesWait(cfg, crypto, s, t, m.recordMs);
      ReachesStep(cfg, crypto, s, t1, Store(c));
      var u := AfterStore(cfg, t1, c);
      assert Landed(cfg, crypto, s, u, c, Call(i, RecordStep(cfg, i, t.store, m.recordMs).0), u.store);
      if u.calls[c].phase.Binding? {
        ReachesStep(cfg, crypto, s, u, Bind(c));
        var v := AfterBind(crypto, u, c);
        assert Landed(cfg, crypto, s, v, c, Call(i, BindStep(crypto, i)), u.store);
      }
    }
  }

  // u is reachable, and there the call stands and the store holds as given.
  ghost predicate Landed(cfg: Config, crypto: Crypto, s: Sys, u: Sys, c: nat, call: Call, store: R.Store) {
    Reaches(cfg, crypto, s, u) && c in u.calls && u.calls[c] == call && u.store == store
  }

  ghost predicate Arrives(cfg: Config, crypto: Crypto, s: Sys, c: nat, call: Call, store: R.Store) {
    exists u :: Landed(cfg, crypto, s, u, c, call, store)
  }

  // From the checks on, by what they decided.
  lemma RestIsARun(cfg: Config, crypto: Crypto, s: Sys, t: Sys, c: nat, i: Input, m: Moments)
    requires m.checkMs <= m.consumeMs <= m.issueMs && m.consumeMs <= m.recordMs
    requires Landed(cfg, crypto, s, t, c, Call(i, CheckStep(cfg, crypto, i, m.checkMs)), s.store)
    requires t.nowMs == m.checkMs
    ensures var (phase, store) := Undisturbed(cfg, crypto, i, s.store, m);
            Arrives(cfg, crypto, s, c, Call(i, phase), store)
  {
    var p := t.calls[c].phase;
    if p.Consuming? {
      ReachesWait(cfg, crypto, s, t, m.consumeMs);
      var t1 := t.(nowMs := m.consumeMs);
      ReachesStep(cfg, crypto, s, t1, Consume(c));
      var u := AfterConsume(cfg, t1, c);
      assert u.calls[c] == Call(i, ConsumeStep(cfg, i, m.checkMs, s.store, m.consumeMs).0);
      FinishIsARun(cfg, crypto, s, u, c, m);
    } else if p.Challenging? || p.Recording? {
      FinishIsARun(cfg, crypto, s, t, c, m);
    }
  }

  /** What the verifier's code does undisturbed is one of the protocol's runs, so
      everything proved of all runs holds of it in any company. */
  lemma UndisturbedIsARun(cfg: Config, crypto: Crypto, s: Sys, c: nat, i: Input, m: Moments)
    requires c !in s.calls && s.nowMs <= m.checkMs <= m.consumeMs <= m.issueMs && m.consumeMs <= m.recordMs
    ensures var (phase, store) := Undisturbed(cfg, crypto, i, s.store, m);
            Arrives(cfg, crypto, s, c, Call(i, phase), store)
  {
    assert Run(cfg, crypto, None, s, []) == s;
    ReachesStep(cfg, crypto, s, s, Begin(c, i));
    var s1 := s.(calls := s.calls[c := Call(i, Presented)]);
    ReachesWait(cfg, crypto, s, s1, m.checkMs);
    var s2 := s1.(nowMs := m.checkMs);
    ReachesStep(cfg, crypto, s, s2, Check(c));
    RestIsARun(cfg, crypto, s, AfterCheck(cfg, crypto, s2, c), c, i, m);
  }
}
