/** The client's DPoP key pair and its rotation. */
module KeyManager {
  import opened Wrappers

  const OVERLAP_MS := 2 * 60 * 60 * 1000
  const LIFETIME_MS := 24 * 60 * 60 * 1000
  const ROTATE_AFTER_MS := LIFETIME_MS - 60 * 60 * 1000

  datatype ActiveKey = ActiveKey(thumbprint: string, createdAtMs: int, retiredAtMs: Option<int>)

  datatype State = State(current: Option<ActiveKey>, previous: Option<ActiveKey>)

  function InitStep(thumbprint: string, nowMs: int): State {
    State(Some(ActiveKey(thumbprint, nowMs, None)), None)
  }

  // The old key retires when the call starts; the new one is dated when it is ready.
  function RotateStep(s: State, thumbprint: string, nowMs: int, readyMs: int): Option<State> {
    if s.current.None? then None
    else Some(State(Some(ActiveKey(thumbprint, readyMs, None)), Some(s.current.value.(retiredAtMs := Some(nowMs)))))
  }

  predicate Overlaps(k: Option<ActiveKey>, nowMs: int) {
    k.Some? && k.value.retiredAtMs.Some? && nowMs - k.value.retiredAtMs.value < OVERLAP_MS
  }

  // Listing drops the previous key once its window is over.
  function ListStep(s: State, nowMs: int): (State, seq<string>) {
    var first := if s.current.Some? then [s.current.value.thumbprint] else [];
    if Overlaps(s.previous, nowMs) then (s, first + [s.previous.value.thumbprint])
    else (s.(previous := None), first)
  }

  class Manager {
    var current: Option<ActiveKey>
    var previous: Option<ActiveKey>

    constructor ()
      ensures current.None? && previous.None?
    {
      current, previous := None, None;
    }

    method InitKeyPair(thumbprint: string, nowMs: int)
      modifies this
      ensures State(current, previous) == InitStep(thumbprint, nowMs)
    {
      current := Some(ActiveKey(thumbprint, nowMs, None));
      previous := None;
    }

    method RotateKey(thumbprint: string, nowMs: int, readyMs: int) returns (rotated: bool)
      modifies this
      ensures rotated <==> old(current).Some?
      ensures var next := RotateStep(State(old(current), old(previous)), thumbprint, nowMs, readyMs);
              State(current, previous) == if next.Some? then next.value else State(old(current), old(previous))
    {
      if current.None? {
        return false;
      }
      previous := Some(current.value.(retiredAtMs := Some(nowMs)));
      current := Some(ActiveKey(thumbprint, readyMs, None));
      return true;
    }

    method GetActiveKeys(nowMs: int) returns (keys: seq<string>)
      modifies this
      ensures State(current, previous) == ListStep(State(old(current), old(previous)), nowMs).0
      ensures keys == ListStep(State(old(current), old(previous)), nowMs).1
    {
      keys := [];
      if current.Some? {
        keys := keys + [current.value.thumbprint];
      }
      if previous.Some? && previous.value.retiredAtMs.Some? && nowMs - previous.value.retiredAtMs.value < OVERLAP_MS {
        keys := keys + [previous.value.thumbprint];
      } else {
        previous := None;
      }
    }

    method ShouldRotate(nowMs: int) returns (due: bool)
      ensures due <==> current.Some? && nowMs - current.value.createdAtMs > 23 * 60 * 60 * 1000
    {
      if current.None? {
        return false;
      }
      return nowMs - current.value.createdAtMs > LIFETIME_MS - 60 * 60 * 1000;
    }
  }

  // ---------- Runs of calls that do not overlap ----------

  datatype Op = Init(thumbprint: string, wait: nat) | Rotate(thumbprint: string, wait: nat) | List | Wait(ms: nat)

  datatype Sys = Sys(nowMs: int, keys: State)

  // A call that generates a key takes `wait` ms; a rotation before init has no effect.
  function Step(s: Sys, op: Op): (Sys, seq<string>) {
    match op
    case Init(t, wait) => (Sys(s.nowMs + wait, InitStep(t, s.nowMs + wait)), [])
    case Rotate(t, wait) =>
      var next := RotateStep(s.keys, t, s.nowMs, s.nowMs + wait);
      (Sys(s.nowMs + wait, if next.Some? then next.value else s.keys), [])
    case List => var (keys, listed) := ListStep(s.keys, s.nowMs); (Sys(s.nowMs, keys), listed)
    case Wait(ms) => (s.(nowMs := s.nowMs + ms), [])
  }

  function Run(s: Sys, ops: seq<Op>): (Sys, seq<seq<string>>)
    decreases ops
  {
    if ops == [] then (s, [])
    else
      var (s1, reply) := Step(s, ops[0]);
      var (s2, replies) := Run(s1, ops[1..]);
      (s2, [reply] + replies)
  }

  // The reference: the full history of retirements since the last init.
  datatype Retired = Retired(thumbprint: string, atMs: int)

  datatype Book = Book(nowMs: int, current: Option<string>, madeMs: int, retired: seq<Retired>)

  function Listed(b: Book): seq<string> {
    (if b.current.Some? then [b.current.value] else []) +
    if b.retired != [] && b.nowMs - b.retired[|b.retired| - 1].atMs < 2 * 60 * 60 * 1000
    then [b.retired[|b.retired| - 1].thumbprint] else []
  }

  function BookStep(b: Book, op: Op): (Book, seq<string>) {
    match op
    case Init(t, wait) => (Book(b.nowMs + wait, Some(t), b.nowMs + wait, []), [])
    case Rotate(t, wait) =>
      if b.current.None? then (b.(nowMs := b.nowMs + wait), [])
      else (Book(b.nowMs + wait, Some(t), b.nowMs + wait, b.retired + [Retired(b.current.value, b.nowMs)]), [])
    case List => (b, Listed(b))
    case Wait(ms) => (b.(nowMs := b.nowMs + ms), [])
  }

  function BookRun(b: Book, ops: seq<Op>): (Book, seq<seq<string>>)
    decreases ops
  {
    if ops == [] then (b, [])
    else
      var (b1, reply) := BookStep(b, ops[0]);
      var (b2, replies) := BookRun(b1, ops[1..]);
      (b2, [reply] + replies)
  }

  // The one slot holds the last retirement, unless its window is already over.
  predicate Coupled(s: Sys, b: Book) {
    && s.nowMs == b.nowMs
    && (s.keys.current.Some? <==> b.current.Some?)
    && (s.keys.current.Some? ==>
          s.keys.current.value.thumbprint == b.current.value && s.keys.current.value.createdAtMs == b.madeMs)
    && (match s.keys.previous
        case Some(k) =>
          && b.retired != []
          && k.thumbprint == b.retired[|b.retired| - 1].thumbprint
          && k.retiredAtMs == Some(b.retired[|b.retired| - 1].atMs)
        case None => b.retired != [] ==> b.nowMs - b.retired[|b.retired| - 1].atMs >= OVERLAP_MS)
  }

  lemma StepRefines(s: Sys, b: Book, op: Op)
    requires Coupled(s, b)
    ensures Step(s, op).1 == BookStep(b, op).1 && Coupled(Step(s, op).0, BookStep(b, op).0)
  {
  }

  /** On every run the list is the current key plus exactly the most recently retired
      one, if it retired less than two hours ago: forgetting older keys, and the
      previous one when listing, is never visible. */
  lemma {:induction false} ListsRefineHistory(s: Sys, b: Book, ops: seq<Op>)
    requires Coupled(s, b)
    ensures Run(s, ops).1 == BookRun(b, ops).1 && Coupled(Run(s, ops).0, BookRun(b, ops).0)
    decreases ops
  {
    if ops != [] {
      StepRefines(s, b, ops[0]);
      ListsRefineHistory(Step(s, ops[0]).0, BookStep(b, ops[0]).0, ops[1..]);
    }
  }

  predicate Generates(op: Op, t: string) {
    (op.Init? || op.Rotate?) && op.thumbprint == t
  }

  /** A key no longer listed is never listed again, unless it is generated again. */
  lemma {:induction false} DroppedNeverReturns(s: Sys, ops: seq<Op>, t: string)
    requires t !in ListStep(s.keys, s.nowMs).1 && forall i :: 0 <= i < |ops| ==> !Generates(ops[i], t)
    ensures forall i :: 0 <= i < |Run(s, ops).1| ==> t !in Run(s, ops).1[i]
    decreases ops
  {
    if ops != [] {
      var s1 := Step(s, ops[0]).0;
      assert t !in Step(s, ops[0]).1;
      assert s.keys.current.Some? ==> s.keys.current.value.thumbprint in ListStep(s.keys, s.nowMs).1;
      assert Overlaps(s.keys.previous, s.nowMs) ==> s.keys.previous.value.thumbprint in ListStep(s.keys, s.nowMs).1;
      DroppedNeverReturns(s1, ops[1..], t);
    }
  }

  // Rotations only happen when they are due.
  predicate Disciplined(s: Sys, ops: seq<Op>)
    decreases ops
  {
    ops != [] ==>
      && (ops[0].Rotate? && s.keys.current.Some? ==> s.nowMs - s.keys.current.value.createdAtMs > ROTATE_AFTER_MS)
      && Disciplined(Step(s, ops[0]).0, ops[1..])
  }

  // The previous key retired before the current one was made.
  predicate InOrder(s: Sys) {
    s.keys.previous.Some? ==>
      s.keys.current.Some? && s.keys.previous.value.retiredAtMs.Some?
      && s.keys.previous.value.retiredAtMs.value <= s.keys.current.value.createdAtMs
  }

  // Rotating now would push out a key still in its window.
  predicate CutsShort(s: Sys, op: Op) {
    op.Rotate? && s.keys.current.Some? && Overlaps(s.keys.previous, s.nowMs)
  }

  /** Rotating only when due never cuts an overlap window short, at any point of the run. */
  lemma {:induction false} DisciplineKeepsWindows(s: Sys, ops: seq<Op>, i: nat)
    requires InOrder(s) && Disciplined(s, ops) && i < |ops|
    ensures !CutsShort(Run(s, ops[..i]).0, ops[i])
    decreases ops
  {
    if i > 0 {
      DisciplineKeepsWindows(Step(s, ops[0]).0, ops[1..], i - 1);
      assert ops[..i][1..] == ops[1..][..i - 1];
    } else {
      assert ops[..0] == [];
    }
  }
}

/** The broker's signing key: a TTL cache on top of the TTL cache of secrets. */
module SigningKey {
  import opened Wrappers

  // A cached secret, dated when its fetch began.
  datatype Secret = Secret(pem: string, fetchedAtMs: int)

  function SecretStep(cache: map<string, Secret>, arn: string, ttlMs: nat, nowMs: int, remote: Option<string>)
      : (map<string, Secret>, Option<Secret>)
  {
    if arn in cache && nowMs - cache[arn].fetchedAtMs < ttlMs then (cache, Some(cache[arn]))
    else if remote.None? || remote.value == "" then (cache, None)
    else (cache[arn := Secret(remote.value, nowMs)], Some(Secret(remote.value, nowMs)))
  }

  class SecretCache {
    var cache: map<string, Secret>

    constructor ()
      ensures cache == map[]
    {
      cache := map[];
    }

    // `remote` is what the secret store answers, if anything; it is asked only on a miss.
    method GetClientSecret(arn: string, ttlMs: nat, nowMs: int, remote: Option<string>) returns (r: Option<Secret>)
      modifies this
      ensures (cache, r) == SecretStep(old(cache), arn, ttlMs, nowMs, remote)
      ensures r.Some? ==> arn in cache && r.value == cache[arn]
      ensures r.Some? ==> r.value.fetchedAtMs == nowMs || nowMs - r.value.fetchedAtMs < ttlMs
    {
      if arn in cache && nowMs - cache[arn].fetchedAtMs < ttlMs {
        return Some(cache[arn]);
      }
      if remote.None? || remote.value == "" {
        return None;
      }
      cache := cache[arn := Secret(remote.value, nowMs)];
      return Some(cache[arn]);
    }

    method InvalidateClientSecret(arn: string)
      modifies this
      ensures cache == old(cache) - {arn}
    {
      cache := cache - {arn};
    }
  }

  // A loaded key; `fetchedAtMs` is when the fetch of its secret began.
  datatype Loaded = Loaded(pem: string, fetchedAtMs: int, loadedAtMs: int)

  datatype Terms = Terms(keyTtl: nat, secretTtl: nat, loadMs: nat)

  // Both caches, for the secret named arn.
  datatype State = State(arn: string, cached: Option<Loaded>, secrets: map<string, Secret>)

  // A failed load keeps the key that was cached, and the secret it may have fetched.
  function GetStep(t: Terms, v: State, nowMs: int, remote: Option<string>, importable: string -> bool, doneMs: int)
      : (State, Option<Loaded>)
  {
    if v.cached.Some? && nowMs - v.cached.value.loadedAtMs < t.keyTtl then (v, v.cached)
    else
      var (secrets, secret) := SecretStep(v.secrets, v.arn, t.secretTtl, nowMs, remote);
      if secret.None? || !importable(secret.value.pem) then (v.(secrets := secrets), None)
      else
        var loaded := Some(Loaded(secret.value.pem, secret.value.fetchedAtMs, doneMs));
        (v.(cached := loaded, secrets := secrets), loaded)
  }

  class Loader {
    const arn: string
    const ttlMs: nat
    const secretTtlMs: nat
    const secrets: SecretCache
    var cached: Option<Loaded>

    constructor (arn: string, ttlMs: nat, secretTtlMs: nat, secrets: SecretCache)
      ensures this.arn == arn && this.ttlMs == ttlMs && this.secretTtlMs == secretTtlMs && this.secrets == secrets
      ensures cached.None?
    {
      this.arn, this.ttlMs, this.secretTtlMs, this.secrets := arn, ttlMs, secretTtlMs, secrets;
      cached := None;
    }

    ghost function View(): State
      reads this, secrets
    {
      State(arn, cached, secrets.cache)
    }

    // `importable` says whether the PEM text yields an RSA key.
    method Get(nowMs: int, remote: Option<string>, importable: string -> bool, doneMs: int) returns (r: Option<Loaded>)
      requires nowMs <= doneMs
      modifies this, secrets
      ensures (View(), r) == GetStep(Terms(ttlMs, secretTtlMs, doneMs - nowMs), old(View()), nowMs, remote, importable,
                                     doneMs)
      ensures r.Some? ==> cached == r
      ensures old(cached.Some? && nowMs - cached.value.loadedAtMs < ttlMs) ==> r == old(cached)
      ensures r.Some? && r != old(cached) ==>
                && r.value.loadedAtMs == doneMs && importable(r.value.pem)
                && (r.value.fetchedAtMs == nowMs || nowMs - r.value.fetchedAtMs < secretTtlMs)
    {
      if cached.Some? && nowMs - cached.value.loadedAtMs < ttlMs {
        return cached;
      }
      var secret := secrets.GetClientSecret(arn, secretTtlMs, nowMs, remote);
      if secret.None? || !importable(secret.value.pem) {
        return None;
      }
      cached := Some(Loaded(secret.value.pem, secret.value.fetchedAtMs, doneMs));
      return cached;
    }

    method Invalidate()
      modifies this, secrets
      ensures View() == old(View()).(cached := None, secrets := old(secrets.cache) - {arn})
    {
      cached := None;
      secrets.InvalidateClientSecret(arn);
    }
  }

  // ---------- Overlapping loads ----------

  /** A load in flight: waiting for the secret store, or holding a secret whose fetch
      began at `from` while the key is imported. */
  datatype Load = Fetching(startMs: int) | Importing(startMs: int, from: int)

  datatype Stamp = Stamp(from: int, atMs: int)

  // `secret` is the start of the cached fetch; `cached` the key with its load time.
  datatype Sys = Sys(nowMs: int, secret: Option<int>, cached: Option<Stamp>, loads: map<nat, Load>,
                     served: map<nat, Stamp>)

  datatype Event =
    | Tick(ms: nat) | Get(call: nat) | Fetched(call: nat) | Done(call: nat) | Fail(call: nat) | Invalidate

  predicate Enabled(t: Terms, s: Sys, e: Event) {
    match e
    case Get(c) => c !in s.loads && c !in s.served
    case Fetched(c) => c in s.loads && s.loads[c].Fetching?
    case Done(c) => c in s.loads && s.loads[c].Importing? && s.nowMs - s.loads[c].startMs <= t.loadMs
    case Fail(c) => c in s.loads
    case _ => true
  }

  function Next(t: Terms, s: Sys, e: Event): Sys
    requires Enabled(t, s, e)
  {
    match e
    case Tick(ms) => s.(nowMs := s.nowMs + ms)
    case Get(c) =>
      if s.cached.Some? && s.nowMs - s.cached.value.atMs < t.keyTtl then
        s.(served := s.served[c := Stamp(s.cached.value.from, s.nowMs)])
      else if s.secret.Some? && s.nowMs - s.secret.value < t.secretTtl then
        s.(loads := s.loads[c := Importing(s.nowMs, s.secret.value)])
      else s.(loads := s.loads[c := Fetching(s.nowMs)])
    case Fetched(c) =>
      s.(secret := Some(s.loads[c].startMs), loads := s.loads[c := Importing(s.loads[c].startMs, s.loads[c].startMs)])
    case Done(c) =>
      var key := Stamp(s.loads[c].from, s.nowMs);
      s.(cached := Some(key), loads := s.loads - {c}, served := s.served[c := key])
    case Fail(c) => s.(loads := s.loads - {c})
    case Invalidate => s.(cached := None, secret := None)
  }

  predicate Admissible(t: Terms, s: Sys, es: seq<Event>)
    decreases es
  {
    es == [] || (Enabled(t, s, es[0]) && Admissible(t, Next(t, s, es[0]), es[1..]))
  }

  function Run(t: Terms, s: Sys, es: seq<Event>): Sys
    requires Admissible(t, s, es)
    decreases es
  {
    if es == [] then s else Run(t, Next(t, s, es[0]), es[1..])
  }

  predicate Inv(t: Terms, s: Sys) {
    && (s.cached.Some? ==> s.cached.value.atMs - s.cached.value.from <= t.secretTtl + t.loadMs)
    && (forall c :: c in s.loads && s.loads[c].Importing? ==> s.loads[c].startMs - s.loads[c].from <= t.secretTtl)
    && (forall c :: c in s.served ==> s.served[c].atMs - s.served[c].from < t.keyTtl + t.secretTtl + t.loadMs)
  }

  lemma {:induction false} RunKeepsInv(t: Terms, s: Sys, es: seq<Event>)
    requires t.keyTtl > 0 && Inv(t, s) && Admissible(t, s, es)
    ensures Inv(t, Run(t, s, es))
    decreases es
  {
    if es != [] {
      RunKeepsInv(t, Next(t, s, es[0]), es[1..]);
    }
  }

  function Init(nowMs: int): Sys {
    Sys(nowMs, None, None, map[], map[])
  }

  /** The two lifetimes and the load time add up: over any overlapping calls, a key
      served at time t rests on a secret fetch begun later than
      t - (keyTtl + secretTtl + load time). */
  lemma StalenessAdds(t: Terms, nowMs: int, es: seq<Event>, c: nat)
    requires t.keyTtl > 0 && Admissible(t, Init(nowMs), es) && c in Run(t, Init(nowMs), es).served
    ensures var k := Run(t, Init(nowMs), es).served[c]; k.from > k.atMs - (t.keyTtl + t.secretTtl + t.loadMs)
  {
    RunKeepsInv(t, Init(nowMs), es);
  }

  // ---------- The code of one call is a run ----------

  lemma RunOne(t: Terms, s: Sys, e: Event)
    requires Enabled(t, s, e)
    ensures Admissible(t, s, [e]) && Run(t, s, [e]) == Next(t, s, e)
  {
    assert [e][1..] == [];
  }

  lemma RunMore(t: Terms, s: Sys, e: Event, es: seq<Event>)
    requires Enabled(t, s, e) && Admissible(t, Next(t, s, e), es)
    ensures Admissible(t, s, [e] + es) && Run(t, s, [e] + es) == Run(t, Next(t, s, e), es)
  {
    assert ([e] + es)[1..] == es;
  }

  // The run holds what the two caches hold.
  predicate Mirrors(s: Sys, v: State) {
    && s.cached == (if v.cached.Some? then Some(Stamp(v.cached.value.fetchedAtMs, v.cached.value.loadedAtMs)) else None)
    && s.secret == if v.arn in v.secrets then Some(v.secrets[v.arn].fetchedAtMs) else None
  }

  // The events of a load that has its secret.
  function Ending(c: nat, waitMs: nat, imported: bool): seq<Event> {
    [Tick(waitMs)] + [if imported then Done(c) else Fail(c)]
  }

  lemma EndingRuns(t: Terms, s: Sys, c: nat, waitMs: nat, imported: bool)
    requires c in s.loads && s.loads[c].Importing? && s.nowMs == s.loads[c].startMs && waitMs <= t.loadMs
    ensures Admissible(t, s, Ending(c, waitMs, imported))
    ensures var s' := s.(nowMs := s.nowMs + waitMs);
            Run(t, s, Ending(c, waitMs, imported)) == Next(t, s', if imported then Done(c) else Fail(c))
  {
    var e := if imported then Done(c) else Fail(c);
    RunOne(t, s.(nowMs := s.nowMs + waitMs), e);
    RunMore(t, s, Tick(waitMs), [e]);
  }

  // The run ends by doneMs with these caches and this answer to call c.
  predicate Lands(t: Terms, s: Sys, es: seq<Event>, c: nat, doneMs: int, v: State, r: Option<Loaded>) {
    && Admissible(t, s, es)
    && var s' := Run(t, s, es);
    && Mirrors(s', v) && s'.loads == s.loads && s.nowMs <= s'.nowMs <= doneMs
    && s'.served == if r.Some? then s.served[c := Stamp(r.value.fetchedAtMs, s'.nowMs)] else s.served
  }

  lemma FailedFetchLands(t: Terms, s: Sys, v: State, c: nat, doneMs: int)
    requires Mirrors(s, v) && s.nowMs <= doneMs && c !in s.loads && c !in s.served && c in Next(t, s, Get(c)).loads
    ensures Lands(t, s, [Get(c)] + [Fail(c)], c, doneMs, v, None)
  {
    var s1 := Next(t, s, Get(c));
    RunOne(t, s1, Fail(c));
    RunMore(t, s, Get(c), [Fail(c)]);
    assert s1.loads - {c} == s.loads;
  }

  // From the secret on: s1 is where call c of s holds it.
  lemma ImportLands(t: Terms, s: Sys, s1: Sys, v: State, c: nat, secret: Secret, imported: bool, doneMs: int)
    requires Mirrors(s1, v) && s1.nowMs == s.nowMs <= doneMs <= s.nowMs + t.loadMs && c !in s.loads && c !in s.served
    requires s1.served == s.served && s1.loads == s.loads[c := Importing(s.nowMs, secret.fetchedAtMs)]
    ensures Admissible(t, s1, Ending(c, doneMs - s.nowMs, imported))
    ensures var s' := Run(t, s1, Ending(c, doneMs - s.nowMs, imported));
            && Mirrors(s', if imported then v.(cached := Some(Loaded(secret.pem, secret.fetchedAtMs, doneMs))) else v)
            && s'.loads == s.loads && s'.nowMs == doneMs
            && s'.served == if imported then s.served[c := Stamp(secret.fetchedAtMs, doneMs)] else s.served
  {
    EndingRuns(t, s1, c, doneMs - s.nowMs, imported);
    assert s1.loads - {c} == s.loads;
  }

  lemma HitLands(t: Terms, s: Sys, v: State, c: nat, doneMs: int)
    requires Mirrors(s, v) && s.nowMs <= doneMs && c !in s.loads && c !in s.served
    requires v.cached.Some? && s.nowMs - v.cached.value.loadedAtMs < t.keyTtl
    ensures Lands(t, s, [Get(c)], c, doneMs, v, v.cached)
  {
    RunOne(t, s, Get(c));
  }

  lemma HeldSecretLands(t: Terms, s: Sys, v: State, c: nat, imported: bool, doneMs: int)
    requires Mirrors(s, v) && s.nowMs <= doneMs <= s.nowMs + t.loadMs && c !in s.loads && c !in s.served
    requires !(v.cached.Some? && s.nowMs - v.cached.value.loadedAtMs < t.keyTtl)
    requires v.arn in v.secrets && s.nowMs - v.secrets[v.arn].fetchedAtMs < t.secretTtl
    ensures var loaded := Some(Loaded(v.secrets[v.arn].pem, v.secrets[v.arn].fetchedAtMs, doneMs));
            Lands(t, s, [Get(c)] + Ending(c, doneMs - s.nowMs, imported), c, doneMs,
                  if imported then v.(cached := loaded) else v, if imported then loaded else None)
  {
    ImportLands(t, s, Next(t, s, Get(c)), v, c, v.secrets[v.arn], imported, doneMs);
    RunMore(t, s, Get(c), Ending(c, doneMs - s.nowMs, imported));
  }

  lemma FetchedSecretLands(t: Terms, s: Sys, v: State, c: nat, pem: string, imported: bool, doneMs: int)
    requires Mirrors(s, v) && s.nowMs <= doneMs <= s.nowMs + t.loadMs && c !in s.loads && c !in s.served
    requires !(v.cached.Some? && s.nowMs - v.cached.value.loadedAtMs < t.keyTtl)
    requires !(v.arn in v.secrets && s.nowMs - v.secrets[v.arn].fetchedAtMs < t.secretTtl)
    ensures var v' := v.(secrets := v.secrets[v.arn := Secret(pem, s.nowMs)]);
            var loaded := Some(Loaded(pem, s.nowMs, doneMs));
            Lands(t, s, [Get(c)] + ([Fetched(c)] + Ending(c, doneMs - s.nowMs, imported)), c, doneMs,
                  if imported then v'.(cached := loaded) else v', if imported then loaded else None)
  {
    var ending := Ending(c, doneMs - s.nowMs, imported);
    var v' := v.(secrets := v.secrets[v.arn := Secret(pem, s.nowMs)]);
    var s1 := s.(loads := s.loads[c := Fetching(s.nowMs)]);
    var s2 := s.(secret := Some(s.nowMs), loads := s1.loads[c := Importing(s.nowMs, s.nowMs)]);
    ImportLands(t, s, s2, v', c, Secret(pem, s.nowMs), imported, doneMs);
    RunMore(t, s1, Fetched(c), ending);
    RunMore(t, s, Get(c), [Fetched(c)] + ending);
  }

  /** What a call of the loader does with nothing in between is one of the runs above,
      and it ends with the same caches and the same answer. */
  lemma GetIsARun(t: Terms, s: Sys, v: State, c: nat, remote: Option<string>, importable: string -> bool, doneMs: int)
      returns (es: seq<Event>)
    requires Mirrors(s, v) && s.nowMs <= doneMs <= s.nowMs + t.loadMs && c !in s.loads && c !in s.served
    ensures var (v', r) := GetStep(t, v, s.nowMs, remote, importable, doneMs); Lands(t, s, es, c, doneMs, v', r)
  {
    var (_, secret) := SecretStep(v.secrets, v.arn, t.secretTtl, s.nowMs, remote);
    if v.cached.Some? && s.nowMs - v.cached.value.loadedAtMs < t.keyTtl {
      es := [Get(c)];
      HitLands(t, s, v, c, doneMs);
    } else if secret.None? {
      es := [Get(c)] + [Fail(c)];
      FailedFetchLands(t, s, v, c, doneMs);
    } else if v.arn in v.secrets && s.nowMs - v.secrets[v.arn].fetchedAtMs < t.secretTtl {
      es := [Get(c)] + Ending(c, doneMs - s.nowMs, importable(secret.value.pem));
      HeldSecretLands(t, s, v, c, importable(secret.value.pem), doneMs);
    } else {
      es := [Get(c)] + ([Fetched(c)] + Ending(c, doneMs - s.nowMs, importable(secret.value.pem)));
      FetchedSecretLands(t, s, v, c, secret.value.pem, importable(secret.value.pem), doneMs);
    }
  }

  lemma InvalidateIsARun(t: Terms, s: Sys, v: State)
    requires Mirrors(s, v)
    ensures Mirrors(Next(t, s, Invalidate), v.(cached := None, secrets := v.secrets - {v.arn}))
  {
  }

  // ---------- When invalidation takes effect ----------

  // Whatever is served after an invalidation now comes from a fetch begun no earlier.
  ghost predicate TakesEffect(t: Terms, s: Sys) {
    forall es, c | Admissible(t, Next(t, s, Invalidate), es) && c in Run(t, Next(t, s, Invalidate), es).served ::
      c !in s.served ==> Run(t, Next(t, s, Invalidate), es).served[c].from >= s.nowMs
  }

  // A load that can no longer bring in anything fetched before t0: it rests on a later
  // fetch, or has run out of time, and with it the secret it still waits for.
  predicate Harmless(t: Terms, nowMs: int, t0: int, l: Load) {
    match l
    case Importing(start, from) => t0 <= from || nowMs - start > t.loadMs
    case Fetching(start) => t0 <= start || (nowMs - start > t.loadMs && nowMs - start >= t.secretTtl)
  }

  // Nothing served since, held or on its way brings back a fetch begun before t0.
  predicate Since(t: Terms, s: Sys, t0: int, before: set<nat>) {
    && t0 <= s.nowMs
    && (s.secret.Some? ==> t0 <= s.secret.value || s.nowMs - s.secret.value >= t.secretTtl)
    && (s.cached.Some? ==> t0 <= s.cached.value.from)
    && (forall c :: c in s.loads ==> Harmless(t, s.nowMs, t0, s.loads[c]))
    && (forall c :: c in s.served && c !in before ==> t0 <= s.served[c].from)
  }

  lemma {:induction false} RunKeepsSince(t: Terms, s: Sys, es: seq<Event>, t0: int, before: set<nat>)
    requires Since(t, s, t0, before) && Admissible(t, s, es)
    ensures Since(t, Run(t, s, es), t0, before)
    decreases es
  {
    if es != [] {
      RunKeepsSince(t, Next(t, s, es[0]), es[1..], t0, before);
    }
  }

  // A call is loading or served, not both.
  lemma {:induction false} LoadsAreUnserved(t: Terms, s: Sys, es: seq<Event>)
    requires Admissible(t, s, es) && s.loads.Keys !! s.served.Keys
    ensures var s' := Run(t, s, es); s'.loads.Keys !! s'.served.Keys
    decreases es
  {
    if es != [] {
      LoadsAreUnserved(t, Next(t, s, es[0]), es[1..]);
    }
  }

  lemma FreshCall(ids: set<nat>) returns (c: nat)
    ensures forall x :: x in ids ==> x < c
  {
    if ids == {} {
      c := 0;
    } else {
      var x :| x in ids;
      var d := FreshCall(ids - {x});
      c := if x < d then d else x + 1;
      assert forall y :: y in ids ==> y == x || y in ids - {x};
    }
  }

  // A load that is not harmless brings its fetch back: in person if it still has the
  // time, otherwise through the secret it leaves behind.
  lemma LoadBringsBack(t: Terms, s: Sys, c: nat) returns (es: seq<Event>, d: nat)
    requires s.loads.Keys !! s.served.Keys && s.secret.None? && s.cached.None?
    requires c in s.loads && !Harmless(t, s.nowMs, s.nowMs, s.loads[c])
    ensures Admissible(t, s, es) && d !in s.served && d in Run(t, s, es).served
    ensures Run(t, s, es).served[d].from < s.nowMs
  {
    assert c !in s.served;
    if s.loads[c].Importing? {
      es, d := [Done(c)], c;
      RunOne(t, s, Done(c));
    } else {
      var s1 := Next(t, s, Fetched(c));
      if s.nowMs - s.loads[c].startMs <= t.loadMs {
        es, d := [Fetched(c)] + [Done(c)], c;
        RunOne(t, s1, Done(c));
        RunMore(t, s, Fetched(c), [Done(c)]);
      } else {
        d := FreshCall(s.loads.Keys + s.served.Keys);
        assert d !in s1.loads && d !in s1.served;
        var s2 := Next(t, s1, Get(d));
        es := [Fetched(c)] + ([Get(d)] + [Done(d)]);
        RunOne(t, s2, Done(d));
        RunMore(t, s1, Get(d), [Done(d)]);
        RunMore(t, s, Fetched(c), [Get(d)] + [Done(d)]);
      }
    }
  }

  lemma TakesEffectExactly(t: Terms, s: Sys)
    requires s.loads.Keys !! s.served.Keys
    ensures TakesEffect(t, s) <==> forall c :: c in s.loads ==> Harmless(t, s.nowMs, s.nowMs, s.loads[c])
  {
    if forall c :: c in s.loads ==> Harmless(t, s.nowMs, s.nowMs, s.loads[c]) {
      forall es, c | Admissible(t, Next(t, s, Invalidate), es) && c in Run(t, Next(t, s, Invalidate), es).served
        ensures c !in s.served ==> Run(t, Next(t, s, Invalidate), es).served[c].from >= s.nowMs
      {
        RunKeepsSince(t, Next(t, s, Invalidate), es, s.nowMs, s.served.Keys);
      }
    } else {
      var c :| c in s.loads && !Harmless(t, s.nowMs, s.nowMs, s.loads[c]);
      var es, d := LoadBringsBack(t, Next(t, s, Invalidate), c);
    }
  }

  /** After any history, an invalidation takes effect exactly when every load in flight
      rests on a fetch begun just now, or can neither finish in time nor leave a
      secret that is still good. */
  lemma InvalidateExactly(t: Terms, startMs: int, history: seq<Event>)
    requires Admissible(t, Init(startMs), history)
    ensures var s := Run(t, Init(startMs), history);
            TakesEffect(t, s) <==> forall c :: c in s.loads ==> Harmless(t, s.nowMs, s.nowMs, s.loads[c])
  {
    LoadsAreUnserved(t, Init(startMs), history);
    TakesEffectExactly(t, Run(t, Init(startMs), history));
  }

  /** In particular with no load in flight. */
  lemma InvalidateTakesEffect(t: Terms, s: Sys)
    requires s.loads == map[]
    ensures TakesEffect(t, s)
  {
    TakesEffectExactly(t, s);
  }

  /** But not a millisecond after a load began that still has the time to finish. */
  lemma LoadInFlightOutlivesInvalidate(t: Terms, startMs: int)
    requires t.loadMs > 0
    ensures Admissible(t, Init(startMs), [Get(0)] + [Tick(1)])
    ensures !TakesEffect(t, Run(t, Init(startMs), [Get(0)] + [Tick(1)]))
  {
    var s1 := Next(t, Init(startMs), Get(0));
    RunOne(t, s1, Tick(1));
    RunMore(t, Init(startMs), Get(0), [Tick(1)]);
    InvalidateExactly(t, startMs, [Get(0)] + [Tick(1)]);
    assert !Harmless(t, startMs + 1, startMs + 1, Fetching(startMs));
  }
}
