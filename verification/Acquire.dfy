/** Getting an access token: cache, then the provider with bounded retries, then
    whatever the cache still holds. */
module Acquire {
  import opened Wrappers
  import opened Text
  import opened TokenCache
  import opened Keyspace
  import CacheKey
  import R = Redis

  // ---------- Cache and fallback ----------

  datatype Grant = Grant(accessToken: string, expiresIn: int, scope: string)

  // Whatever made the provider call fail.
  datatype Trouble = Trouble

  function Granted(g: Grant, requested: seq<string>): seq<string> {
    if g.scope != "" then Split(g.scope, ' ') else requested
  }

  function HeldFor(g: Grant, requested: seq<string>, nowMs: int): Held {
    R.Token(g.accessToken, Seconds(nowMs) + g.expiresIn, Granted(g, requested))
  }

  function At(s: State, ms: int): State {
    s.(nowMs := ms)
  }

  function AcquireStep(hash: string -> string, s: State, client: string, scopes: seq<string>, force: bool,
                       provider: Result<Grant, Trouble>, doneMs: int): (State, Result<Held, Trouble>)
    requires Typed(s.store)
  {
    var key := CacheKey.Key(hash, client, scopes);
    var (s1, cached) := if force then (s, None) else GetStep(s, key);
    if cached.Some? then (s1, Success(cached.value))
    else
      match provider
      case Success(g) =>
        var v := HeldFor(g, scopes, doneMs);
        (SetStep(At(s1, doneMs), CacheKey.Key(hash, client, v.scopes), v), Success(v))
      case Failure(t) =>
        var stale := StaleStep(At(s1, doneMs), key);
        (At(s1, doneMs), if stale.Some? then Success(stale.value) else Result.Failure(t))
  }

  class Acquirer {
    const cache: Cache

    constructor (cache: Cache)
      ensures this.cache == cache
    {
      this.cache := cache;
    }

    method Acquire(client: string, scopes: seq<string>, force: bool, provider: Result<Grant, Trouble>,
                   nowMs: int, doneMs: int) returns (r: Result<Held, Trouble>)
      requires Typed(cache.redis.data)
      modifies cache, cache.redis
      ensures r == AcquireStep(cache.hash, old(cache.View(nowMs)), client, scopes, force, provider, doneMs).1
      ensures At(cache.View(nowMs), doneMs) ==
              At(AcquireStep(cache.hash, old(cache.View(nowMs)), client, scopes, force, provider, doneMs).0, doneMs)
    {
      if !force {
        var cached := cache.Get(client, scopes, nowMs);
        if cached.Some? {
          return Success(cached.value);
        }
      }
      if provider.Success? {
        var g := provider.value;
        var granted := if g.scope != "" then Split(g.scope, ' ') else scopes;
        var expiresAt := doneMs / 1000 + g.expiresIn;
        cache.Set(client, granted, g.accessToken, expiresAt, doneMs);
        return Success(R.Token(g.accessToken, expiresAt, granted));
      }
      var stale := cache.GetStale(client, scopes, doneMs);
      if stale.Some? {
        return Success(stale.value);
      }
      return Result.Failure(provider.error);
    }
  }

  // No hash collision between the two scope lists.
  predicate Tell(hash: string -> string, a: seq<string>, b: seq<string>) {
    && |CacheKey.Digest(hash, a)| == |CacheKey.Digest(hash, b)|
    && (CacheKey.Digest(hash, a) == CacheKey.Digest(hash, b) ==>
          Join(CacheKey.Sort(a), ',') == Join(CacheKey.Sort(b), ','))
  }

  // Nobody sets this key again.
  predicate NotSet(ops: seq<Op>, key: string) {
    forall i :: 0 <= i < |ops| ==> !(ops[i].Set? && ops[i].key == key)
  }

  lemma {:induction false} LastStays(p: Plain, ops: seq<Op>, key: string)
    requires NotSet(ops, key)
    ensures var p' := PlainRun(p, ops).0;
            && (key in p'.last <==> key in p.last) && (key in p.last ==> p'.last[key] == p.last[key])
            && p.nowMs <= p'.nowMs
    decreases ops
  {
    if ops != [] {
      assert NotSet(ops[1..], key) && !(ops[0].Set? && ops[0].key == key);
      LastStays(PlainStep(p, ops[0]).0, ops[1..], key);
    }
  }

  /** After a cache miss answered by the provider, and whatever else this process and
      the other clients of the Redis then do short of setting that key, the same request
      hits the cache exactly when the token is still fresh and the key does not tell the
      granted scopes from the requested ones, that is, for scopes without commas, when
      they are the same in some order. */
  lemma NextAcquireHits(hash: string -> string, s: State, p: Plain, client: string, scopes: seq<string>,
                        g: Grant, doneMs: int, ops: seq<Op>)
    requires Coupled(s, p) && s.nowMs <= doneMs && Tell(hash, Granted(g, scopes), scopes)
    requires Legal(ops) && NotSet(ops, CacheKey.Key(hash, client, scopes))
    requires GetStep(s, CacheKey.Key(hash, client, scopes)).1.None?
    ensures var (s', r) := AcquireStep(hash, s, client, scopes, false, Success(g), doneMs);
            && Typed(s'.store) && r == Success(HeldFor(g, scopes, doneMs))
            && var later := Run(s', ops).0;
            GetStep(later, CacheKey.Key(hash, client, scopes)).1 ==
            if CacheKey.Alike(Granted(g, scopes), scopes) && Fresh(r.value, later.nowMs) then Some(r.value) else None
    ensures CacheKey.Plain(scopes) && CacheKey.Plain(Granted(g, scopes)) ==>
              (CacheKey.Alike(Granted(g, scopes), scopes) <==> multiset(Granted(g, scopes)) == multiset(scopes))
  {
    var key := CacheKey.Key(hash, client, scopes);
    var v := HeldFor(g, scopes, doneMs);
    CacheKey.KeyExact(hash, client, v.scopes, client, scopes);
    GetIsExpected(s, p, key);
    SetThenGet(GetStep(s, key).0, p.(gets := p.gets + 1), CacheKey.Key(hash, client, v.scopes), v, key, doneMs, ops);
  }

  lemma SetLater(s: State, p: Plain, keyed: string, v: Held, doneMs: int)
    requires Coupled(s, p) && s.nowMs <= doneMs && M2M <= keyed
    ensures Coupled(SetStep(At(s, doneMs), keyed, v), PlainStep(p.(nowMs := doneMs), Op.Set(keyed, v)).0)
  {
    StepRefines(s, p, Wait(doneMs - s.nowMs));
    StepRefines(At(s, doneMs), p.(nowMs := doneMs), Op.Set(keyed, v));
  }

  // A value set at doneMs, looked up after other operations under the same or another key.
  lemma SetThenGet(s: State, p: Plain, keyed: string, v: Held, key: string, doneMs: int, ops: seq<Op>)
    requires Coupled(s, p) && s.nowMs <= doneMs && M2M <= keyed && M2M <= key && Expected(p, key).None?
    requires Legal(ops) && NotSet(ops, key)
    ensures var s' := SetStep(At(s, doneMs), keyed, v);
            && Typed(s'.store)
            && var later := Run(s', ops).0;
            GetStep(later, key).1 == if key == keyed && Fresh(v, later.nowMs) then Some(v) else None
  {
    var s', p' := SetStep(At(s, doneMs), keyed, v), PlainStep(p.(nowMs := doneMs), Op.Set(keyed, v)).0;
    SetLater(s, p, keyed, v, doneMs);
    CacheRefinesPlainMap(s', p', ops);
    LastStays(p', ops, key);
    GetIsExpected(Run(s', ops).0, PlainRun(p', ops).0, key);
  }

  // ---------- Every call ----------

  // The last token set under this key, until its record runs out.
  function LastStale(p: Plain, key: string, nowMs: int): Option<Held> {
    if key in p.last && key in p.setMs
       && nowMs < p.setMs[key] + (var left := p.last[key].expiresAt - p.setMs[key] / 1000;
                                  if left > 1 then left else 1) * 1000
    then Some(p.last[key]) else None
  }

  // The last token set under this key, if more than half a minute of it is left.
  function LastFresh(p: Plain, key: string): Option<Held> {
    if key in p.last && p.last[key].expiresAt - 30 > p.nowMs / 1000 then Some(p.last[key]) else None
  }

  lemma LastFreshExactly(p: Plain, key: string)
    ensures Expected(p, key) == LastFresh(p, key)
  {
  }

  lemma LastStaleExactly(s: State, p: Plain, key: string)
    requires Coupled(s, p) && M2M <= key
    ensures StaleStep(s, key) == LastStale(p, key, s.nowMs)
  {
  }

  // After the lookup, if there is one.
  function Looked(hash: string -> string, s: State, p: Plain, client: string, scopes: seq<string>, force: bool)
      : (State, Plain)
    requires Typed(s.store)
  {
    if force then (s, p) else (GetStep(s, CacheKey.Key(hash, client, scopes)).0, p.(gets := p.gets + 1))
  }

  lemma FreshIsServed(hash: string -> string, s: State, p: Plain, client: string, scopes: seq<string>,
                      provider: Result<Grant, Trouble>, doneMs: int)
    requires Coupled(s, p) && LastFresh(p, CacheKey.Key(hash, client, scopes)).Some?
    ensures var (s', r) := AcquireStep(hash, s, client, scopes, false, provider, doneMs);
            && r == Success(LastFresh(p, CacheKey.Key(hash, client, scopes)).value)
            && Coupled(s', p.(gets := p.gets + 1))
  {
    GetIsExpected(s, p, CacheKey.Key(hash, client, scopes));
    LastFreshExactly(p, CacheKey.Key(hash, client, scopes));
  }

  // A forced call, or one that finds nothing fresh, turns to the provider.
  lemma AfterMiss(hash: string -> string, s: State, p: Plain, client: string, scopes: seq<string>, force: bool,
                  provider: Result<Grant, Trouble>, doneMs: int)
    requires Coupled(s, p) && (force || LastFresh(p, CacheKey.Key(hash, client, scopes)).None?)
    ensures var (s1, p1) := Looked(hash, s, p, client, scopes, force);
            var (s', r) := AcquireStep(hash, s, client, scopes, force, provider, doneMs);
            && Coupled(s1, p1) && s1.nowMs == s.nowMs
            && match provider
               case Success(g) =>
                 var v := HeldFor(g, scopes, doneMs);
                 r == Success(v) && s' == SetStep(At(s1, doneMs), CacheKey.Key(hash, client, v.scopes), v)
               case Failure(t) =>
                 var stale := StaleStep(At(s1, doneMs), CacheKey.Key(hash, client, scopes));
                 && s' == At(s1, doneMs)
                 && r == if stale.Some? then Success(stale.value) else Result.Failure(t)
  {
    GetIsExpected(s, p, CacheKey.Key(hash, client, scopes));
    LastFreshExactly(p, CacheKey.Key(hash, client, scopes));
  }

  lemma FailureLeaves(hash: string -> string, s: State, p: Plain, client: string, scopes: seq<string>, force: bool,
                      trouble: Trouble, doneMs: int)
    requires Coupled(s, p) && s.nowMs <= doneMs
    requires force || LastFresh(p, CacheKey.Key(hash, client, scopes)).None?
    ensures var s', p1 := AcquireStep(hash, s, client, scopes, force, Result.Failure(trouble), doneMs).0,
                          Looked(hash, s, p, client, scopes, force).1;
            Coupled(s', p1.(nowMs := doneMs))
  {
    AfterMiss(hash, s, p, client, scopes, force, Result.Failure(trouble), doneMs);
    var (s1, p1) := Looked(hash, s, p, client, scopes, force);
    StepRefines(s1, p1, Wait(doneMs - s.nowMs));
  }

  /** The fallback: when the provider fails, the last token is served for as long as its
      record lives, and only then. */
  lemma FallbackExactly(hash: string -> string, s: State, p: Plain, client: string, scopes: seq<string>, force: bool,
                        trouble: Trouble, doneMs: int)
    requires Coupled(s, p) && s.nowMs <= doneMs
    requires force || LastFresh(p, CacheKey.Key(hash, client, scopes)).None?
    ensures var r := AcquireStep(hash, s, client, scopes, force, Result.Failure(trouble), doneMs).1;
            var last := LastStale(p, CacheKey.Key(hash, client, scopes), doneMs);
            r == if last.Some? then Success(last.value) else Result.Failure(trouble)
  {
    AfterMiss(hash, s, p, client, scopes, force, Result.Failure(trouble), doneMs);
    FailureLeaves(hash, s, p, client, scopes, force, trouble, doneMs);
    var (s1, p1) := Looked(hash, s, p, client, scopes, force);
    LastStaleExactly(At(s1, doneMs), p1.(nowMs := doneMs), CacheKey.Key(hash, client, scopes));
  }

  /** The answer to every call: a fresh last token unless forced, whatever the provider
      would say; otherwise what the provider grants, dated by the clock then; otherwise,
      when it fails, the last token for as long as its record lives. */
  lemma AcquireExactly(hash: string -> string, s: State, p: Plain, client: string, scopes: seq<string>, force: bool,
                       provider: Result<Grant, Trouble>, doneMs: int)
    requires Coupled(s, p) && s.nowMs <= doneMs
    ensures var r, key := AcquireStep(hash, s, client, scopes, force, provider, doneMs).1,
                          CacheKey.Key(hash, client, scopes);
            if !force && LastFresh(p, key).Some? then r == Success(LastFresh(p, key).value)
            else
              match provider
              case Success(g) =>
                r == Success(R.Token(g.accessToken, doneMs / 1000 + g.expiresIn,
                                     if g.scope == "" then scopes else Split(g.scope, ' ')))
              case Failure(t) =>
                r == if LastStale(p, key, doneMs).Some? then Success(LastStale(p, key, doneMs).value)
                     else Result.Failure(t)
  {
    if force || LastFresh(p, CacheKey.Key(hash, client, scopes)).None? {
      if provider.Failure? {
        FallbackExactly(hash, s, p, client, scopes, force, provider.error, doneMs);
      } else {
        AfterMiss(hash, s, p, client, scopes, force, provider, doneMs);
      }
    } else {
      FreshIsServed(hash, s, p, client, scopes, provider, doneMs);
    }
  }

  /** What a call leaves behind: a granted token is the last one set, under the scopes
      granted; a failed call, by `FailureLeaves`, sets nothing. */
  lemma GrantLeaves(hash: string -> string, s: State, p: Plain, client: string, scopes: seq<string>, force: bool,
                    g: Grant, doneMs: int)
    requires Coupled(s, p) && s.nowMs <= doneMs
    requires force || LastFresh(p, CacheKey.Key(hash, client, scopes)).None?
    ensures var s', p1 := AcquireStep(hash, s, client, scopes, force, Success(g), doneMs).0,
                          Looked(hash, s, p, client, scopes, force).1;
            var v := HeldFor(g, scopes, doneMs);
            Coupled(s', PlainStep(p1.(nowMs := doneMs), Op.Set(CacheKey.Key(hash, client, v.scopes), v)).0)
  {
    AfterMiss(hash, s, p, client, scopes, force, Success(g), doneMs);
    var (s1, p1) := Looked(hash, s, p, client, scopes, force);
    var v := HeldFor(g, scopes, doneMs);
    SetLater(s1, p1, CacheKey.Key(hash, client, v.scopes), v, doneMs);
  }

  /** When the provider fails, what is served instead was the last token set for the
      request, and was not a full second past its expiry if it was live when set. */
  lemma FallbackWithinBound(hash: string -> string, s: State, p: Plain, client: string, scopes: seq<string>,
                            force: bool, doneMs: int)
    requires Coupled(s, p) && s.nowMs <= doneMs
    ensures var r := AcquireStep(hash, s, client, scopes, force, Result.Failure(Trouble), doneMs).1;
            var key := CacheKey.Key(hash, client, scopes);
            && (r.Success? ==> WithinBound(p, key, r.value, doneMs) || (!force && Expected(p, key) == Some(r.value)))
            && (key !in p.last ==> r == Result.Failure(Trouble))
  {
    var key := CacheKey.Key(hash, client, scopes);
    GetIsExpected(s, p, key);
    var (s1, p1) := if force then (s, p) else (GetStep(s, key).0, p.(gets := p.gets + 1));
    StepRefines(s1, p1, Wait(doneMs - s.nowMs));
    if StaleStep(At(s1, doneMs), key).Some? {
      StaleWithinBound(At(s1, doneMs), PlainStep(p1, Wait(doneMs - s.nowMs)).0, key);
    }
  }
}

/** The provider call: exponential backoff with jitter. */
module Retry {
  import opened Wrappers

  datatype Config = Config(maxRetries: int, baseDelayMs: nat, maxDelayMs: nat)

  datatype Outcome = Token(value: string) | Status(code: int) | Other

  datatype Error = BadStatus(code: int) | Thrown | Exhausted

  predicate Retryable(o: Outcome) {
    o.Status? && (o.code == 429 || 500 <= o.code < 600)
  }

  function Pow2(n: nat): nat {
    if n == 0 then 1 else 2 * Pow2(n - 1)
  }

  function Backoff(cfg: Config, attempt: nat): nat {
    var raw := cfg.baseDelayMs * Pow2(attempt);
    if raw < cfg.maxDelayMs then raw else cfg.maxDelayMs
  }

  function Sum(xs: seq<int>): int {
    if xs == [] then 0 else Sum(xs[..|xs| - 1]) + xs[|xs| - 1]
  }

  function ErrorOf(o: Outcome): Error {
    match o
    case Status(code) => BadStatus(code)
    case _ => Thrown
  }

  // Each sleep is its backoff plus a jitter below it.
  predicate Paced(cfg: Config, sleeps: seq<int>) {
    forall i :: 0 <= i < |sleeps| ==>
      Backoff(cfg, i) <= sleeps[i] && (sleeps[i] < 2 * Backoff(cfg, i) || sleeps[i] == 0 == Backoff(cfg, i))
  }

  lemma JitterBelow(x: real, base: nat)
    requires 0.0 <= x < 1.0
    ensures 0 <= (x * base as real).Floor
    ensures base > 0 ==> (x * base as real).Floor < base
    ensures base == 0 ==> (x * base as real).Floor == 0
  {
    if base > 0 {
      assert x * base as real < 1.0 * base as real;
    }
    assert 0.0 <= x * base as real;
  }

  /** Call number i answers outcomes(i); random(i) is drawn before sleep number i. */
  method AcquireTokenWithRetry(cfg: Config, outcomes: nat -> Outcome, random: nat -> real)
      returns (r: Result<string, Error>, calls: nat, sleeps: seq<int>)
    requires forall i: nat :: 0.0 <= random(i) < 1.0
    ensures r == Result.Failure(Exhausted) <==> cfg.maxRetries < 0
    ensures cfg.maxRetries >= 0 ==>
              && 1 <= calls <= cfg.maxRetries + 1
              && r == (match outcomes(calls - 1) case Token(t) => Success(t) case o => Result.Failure(ErrorOf(o)))
              && (Retryable(outcomes(calls - 1)) ==> calls == cfg.maxRetries + 1)
    ensures forall i :: 0 <= i < calls - 1 ==> Retryable(outcomes(i))
    ensures cfg.maxRetries >= 0 ==> |sleeps| == calls - 1
    ensures Paced(cfg, sleeps)
  {
    calls, sleeps := 0, [];
    var attempt := 0;
    while attempt <= cfg.maxRetries
      invariant 0 <= attempt && attempt == calls == |sleeps|
      invariant cfg.maxRetries >= 0 ==> attempt <= cfg.maxRetries
      invariant forall i :: 0 <= i < attempt ==> Retryable(outcomes(i))
      invariant Paced(cfg, sleeps)
    {
      var o := outcomes(attempt);
      calls := calls + 1;
      if o.Token? {
        return Success(o.value), calls, sleeps;
      }
      if o.Other? {
        return Result.Failure(Thrown), calls, sleeps;
      }
      var retryable := o.code == 429 || (o.code >= 500 && o.code < 600);
      if !retryable {
        return Result.Failure(BadStatus(o.code)), calls, sleeps;
      }
      if attempt == cfg.maxRetries {
        return Result.Failure(BadStatus(o.code)), calls, sleeps;
      }
      var base := Backoff(cfg, attempt);
      var jitter := (random(attempt) * base as real).Floor;
      JitterBelow(random(attempt), base);
      sleeps := sleeps + [base + jitter];
      attempt := attempt + 1;
    }
    return Result.Failure(Exhausted), calls, sleeps;
  }

  lemma {:induction false} Pow2Positive(n: nat)
    ensures Pow2(n) >= 1
  {
    if n > 0 {
      Pow2Positive(n - 1);
    }
  }

  lemma BackoffPositive(cfg: Config, attempt: nat)
    requires cfg.baseDelayMs > 0 && cfg.maxDelayMs > 0
    ensures 0 < Backoff(cfg, attempt) <= cfg.maxDelayMs
    ensures Backoff(cfg, attempt) <= cfg.baseDelayMs * Pow2(attempt)
  {
    Pow2Positive(attempt);
    assert cfg.baseDelayMs * Pow2(attempt) >= cfg.baseDelayMs;
  }

  /** The backoff starts at the base delay and doubles up to the maximum. */
  lemma BackoffDoubles(cfg: Config, attempt: nat)
    ensures Backoff(cfg, 0) == if cfg.baseDelayMs < cfg.maxDelayMs then cfg.baseDelayMs else cfg.maxDelayMs
    ensures Backoff(cfg, attempt + 1)
            == if 2 * Backoff(cfg, attempt) < cfg.maxDelayMs then 2 * Backoff(cfg, attempt) else cfg.maxDelayMs
  {
    var b, x := cfg.baseDelayMs, Pow2(attempt);
    assert b * (2 * x) == 2 * (b * x);
  }

  lemma DoubledBound(b: int, x: int)
    ensures 2 * b * (2 * x - 1) == 2 * b * (x - 1) + 2 * (b * x)
  {
  }

  lemma OneMoreBound(n: int, b: int)
    ensures 2 * (n + 1) * b == 2 * n * b + 2 * b
  {
  }

  /** The whole time slept over n > 0 retries is below 2*base*(2^n - 1). */
  lemma {:induction false} SleepBelowGeometric(cfg: Config, sleeps: seq<int>)
    requires cfg.baseDelayMs > 0 && cfg.maxDelayMs > 0 && Paced(cfg, sleeps)
    ensures Sum(sleeps) + |sleeps| <= 2 * cfg.baseDelayMs * (Pow2(|sleeps|) - 1)
  {
    if sleeps != [] {
      var n := |sleeps| - 1;
      SleepBelowGeometric(cfg, sleeps[..n]);
      BackoffPositive(cfg, n);
      DoubledBound(cfg.baseDelayMs, Pow2(n));
      var step, total := cfg.baseDelayMs * Pow2(n), 2 * cfg.baseDelayMs * (Pow2(n) - 1);
      assert sleeps[n] < 2 * step;
    }
  }

  /** And below 2*n*maxDelay. */
  lemma {:induction false} SleepBelowLinear(cfg: Config, sleeps: seq<int>)
    requires cfg.baseDelayMs > 0 && cfg.maxDelayMs > 0 && Paced(cfg, sleeps)
    ensures Sum(sleeps) + |sleeps| <= 2 * |sleeps| * cfg.maxDelayMs
  {
    if sleeps != [] {
      var n := |sleeps| - 1;
      SleepBelowLinear(cfg, sleeps[..n]);
      BackoffPositive(cfg, n);
      OneMoreBound(n, cfg.maxDelayMs);
      assert sleeps[n] < 2 * Backoff(cfg, n);
    }
  }
}
