/** The two-level token cache: a process-local map in front of a Redis record with a
    lifetime of its own. */
module TokenCache {
  import opened Wrappers
  import opened Keyspace
  import CacheKey
  import R = Redis

  const BUFFER_SECONDS := 30

  type Held = v: R.Value | v.Token?
    witness R.Token("", 0, [])

  function Seconds(ms: int): int {
    ms / 1000
  }

  predicate Fresh(v: Held, nowMs: int) {
    v.expiresAt - BUFFER_SECONDS > Seconds(nowMs)
  }

  datatype State = State(nowMs: int, l1: map<string, Held>, store: R.Store,
                         hitsL1: nat, hitsL2: nat, missesL1: nat, missesL2: nat)

  function Lifetime(v: Held, nowMs: int): int {
    var left := v.expiresAt - Seconds(nowMs);
    if left > 1 then left else 1
  }

  // The cache is the only writer of its keys, so they hold entries.
  predicate Typed(store: R.Store) {
    forall k :: k in store && M2M <= k ==> store[k].value.Token?
  }

  function SetStep(s: State, key: string, v: Held): State {
    s.(l1 := s.l1[key := v], store := R.Apply(s.store, key, R.Cmd.Set(v, Lifetime(v, s.nowMs)), s.nowMs).0)
  }

  function GetStep(s: State, key: string): (State, Option<Held>)
    requires Typed(s.store) && M2M <= key
  {
    if key in s.l1 && Fresh(s.l1[key], s.nowMs) then
      (s.(hitsL1 := s.hitsL1 + 1), Some(s.l1[key]))
    else
      var missed := s.(l1 := s.l1 - {key}, missesL1 := s.missesL1 + 1);
      if !R.Alive(s.store, key, s.nowMs) || !Fresh(s.store[key].value, s.nowMs) then
        (missed.(missesL2 := s.missesL2 + 1), None)
      else
        (missed.(l1 := missed.l1[key := s.store[key].value], hitsL2 := s.hitsL2 + 1), Some(s.store[key].value))
  }

  function StaleStep(s: State, key: string): Option<Held>
    requires Typed(s.store) && M2M <= key
  {
    if R.Alive(s.store, key, s.nowMs) then Some(s.store[key].value) else None
  }

  class Cache {
    var l1: map<string, Held>
    var hitsL1: nat
    var hitsL2: nat
    var missesL1: nat
    var missesL2: nat
    const hash: string -> string
    const redis: R.Server

    ghost function View(nowMs: int): State
      reads this, redis
    {
      State(nowMs, l1, redis.data, hitsL1, hitsL2, missesL1, missesL2)
    }

    function KeyOf(client: string, scopes: seq<string>): (key: string)
      ensures M2M <= key
    {
      CacheKey.Key(hash, client, scopes)
    }

    constructor (hash: string -> string, redis: R.Server)
      ensures this.hash == hash && this.redis == redis && l1 == map[]
      ensures hitsL1 == hitsL2 == missesL1 == missesL2 == 0
    {
      this.hash, this.redis := hash, redis;
      l1, hitsL1, hitsL2, missesL1, missesL2 := map[], 0, 0, 0, 0;
    }

    method ClearL1(ghost nowMs: int)
      modifies this`l1
      ensures View(nowMs) == old(View(nowMs)).(l1 := map[])
    {
      l1 := map[];
    }

    method Set(client: string, scopes: seq<string>, accessToken: string, expiresAt: int, nowMs: int)
      modifies this`l1, redis
      ensures View(nowMs) == SetStep(old(View(nowMs)), KeyOf(client, scopes), R.Token(accessToken, expiresAt, scopes))
    {
      var key := KeyOf(client, scopes);
      var left := expiresAt - nowMs / 1000;
      var ttlSeconds := if left > 1 then left else 1;
      l1 := l1[key := R.Token(accessToken, expiresAt, scopes)];
      redis.Set(key, R.Token(accessToken, expiresAt, scopes), ttlSeconds, nowMs);
    }

    method Get(client: string, scopes: seq<string>, nowMs: int) returns (r: Option<Held>)
      requires Typed(redis.data)
      modifies this
      ensures (View(nowMs), r) == GetStep(old(View(nowMs)), KeyOf(client, scopes))
    {
      var key := KeyOf(client, scopes);
      var nowSec := nowMs / 1000;
      if key in l1 && l1[key].expiresAt - BUFFER_SECONDS > nowSec {
        hitsL1 := hitsL1 + 1;
        return Some(l1[key]);
      }
      l1 := l1 - {key};
      missesL1 := missesL1 + 1;
      var raw := redis.Get(key, nowMs);
      if raw.None? {
        missesL2 := missesL2 + 1;
        return None;
      }
      var parsed: Held := raw.value;
      if parsed.expiresAt - BUFFER_SECONDS <= nowSec {
        missesL2 := missesL2 + 1;
        return None;
      }
      l1 := l1[key := parsed];
      hitsL2 := hitsL2 + 1;
      return Some(parsed);
    }

    method GetStale(client: string, scopes: seq<string>, nowMs: int) returns (r: Option<Held>)
      requires Typed(redis.data)
      ensures r == StaleStep(View(nowMs), KeyOf(client, scopes))
    {
      var raw := redis.Get(KeyOf(client, scopes), nowMs);
      if raw.None? {
        return None;
      }
      return Some(raw.value);
    }
  }

  // ---------- One process: the cache is a plain map ----------

  datatype Op =
    | Set(key: string, held: Held) | Get(key: string) | ClearL1 | Wait(ms: nat)
    | Foreign(key: string, entry: Option<R.Entry>)   // another client of the Redis

  predicate Legal(ops: seq<Op>) {
    forall i :: 0 <= i < |ops| ==>
      match ops[i]
      case Set(k, _) => M2M <= k
      case Get(k) => M2M <= k
      case Foreign(k, _) => !(M2M <= k)
      case _ => true
  }

  function Step(s: State, op: Op): (State, Option<Held>)
    requires Typed(s.store) && Legal([op])
    ensures Typed(Step(s, op).0.store)
  {
    assert [op][0] == op;
    match op
    case Set(k, v) => (SetStep(s, k, v), None)
    case Get(k) => GetStep(s, k)
    case ClearL1 => (s.(l1 := map[]), None)
    case Wait(ms) => (s.(nowMs := s.nowMs + ms), None)
    case Foreign(k, e) => (s.(store := match e case Some(v) => s.store[k := v] case None => s.store - {k}), None)
  }

  function Run(s: State, ops: seq<Op>): (r: (State, seq<Option<Held>>))
    requires Typed(s.store) && Legal(ops)
    ensures Typed(r.0.store) && |r.1| == |ops|
    decreases ops
  {
    if ops == [] then (s, [])
    else
      assert Legal([ops[0]]) && Legal(ops[1..]);
      var (s1, reply) := Step(s, ops[0]);
      var (s2, replies) := Run(s1, ops[1..]);
      (s2, [reply] + replies)
  }

  // The reference: the last value set, served while fresh.
  datatype Plain = Plain(nowMs: int, last: map<string, Held>, setMs: map<string, int>, gets: nat)

  function Expected(p: Plain, key: string): Option<Held> {
    if key in p.last && Fresh(p.last[key], p.nowMs) then Some(p.last[key]) else None
  }

  function PlainStep(p: Plain, op: Op): (Plain, Option<Held>) {
    match op
    case Set(k, v) => (p.(last := p.last[k := v], setMs := p.setMs[k := p.nowMs]), None)
    case Get(k) => (p.(gets := p.gets + 1), Expected(p, k))
    case ClearL1 => (p, None)
    case Wait(ms) => (p.(nowMs := p.nowMs + ms), None)
    case Foreign(_, _) => (p, None)
  }

  function PlainRun(p: Plain, ops: seq<Op>): (Plain, seq<Option<Held>>)
    decreases ops
  {
    if ops == [] then (p, [])
    else
      var (p1, reply) := PlainStep(p, ops[0]);
      var (p2, replies) := PlainRun(p1, ops[1..]);
      (p2, [reply] + replies)
  }

  // Both levels only hold last values, and the record outlives freshness.
  predicate Coupled(s: State, p: Plain) {
    && s.nowMs == p.nowMs && Typed(s.store) && p.last.Keys == p.setMs.Keys
    && (forall k :: k in s.l1 ==> k in p.last && s.l1[k] == p.last[k])
    && (forall k :: M2M <= k && k in s.store ==> k in p.last)
    && (forall k :: k in p.last ==>
          && M2M <= k && k in s.store && s.store[k].value == p.last[k] && p.setMs[k] <= p.nowMs
          && s.store[k].expiresAtMs == p.setMs[k] + Lifetime(p.last[k], p.setMs[k]) * 1000)
    && s.hitsL1 + s.missesL1 == p.gets && s.hitsL2 + s.missesL2 == s.missesL1
  }

  // The record is alive for as long as its value is fresh.
  lemma RecordOutlivesFreshness(s: State, p: Plain, key: string)
    requires Coupled(s, p) && key in p.last && Fresh(p.last[key], s.nowMs)
    ensures R.Alive(s.store, key, s.nowMs)
  {
    assert p.setMs[key] - Seconds(p.setMs[key]) * 1000 >= 0;
  }

  lemma GetIsExpected(s: State, p: Plain, key: string)
    requires Coupled(s, p) && M2M <= key
    ensures GetStep(s, key).1 == Expected(p, key)
    ensures Coupled(GetStep(s, key).0, p.(gets := p.gets + 1))
  {
    if key in p.last && Fresh(p.last[key], s.nowMs) {
      RecordOutlivesFreshness(s, p, key);
    }
  }

  /** The counters: one of the L1 pair per lookup, and one of the L2 pair per L1 miss,
      by where the answer came from. */
  lemma CountersTell(s: State, key: string)
    requires Typed(s.store) && M2M <= key
    ensures var (s', r) := GetStep(s, key);
            var here := key in s.l1 && s.l1[key].expiresAt - 30 > s.nowMs / 1000;
            && s'.hitsL1 == s.hitsL1 + (if here then 1 else 0)
            && s'.missesL1 == s.missesL1 + (if here then 0 else 1)
            && s'.hitsL2 == s.hitsL2 + (if !here && r.Some? then 1 else 0)
            && s'.missesL2 == s.missesL2 + if r.None? then 1 else 0
  {
  }

  lemma StepRefines(s: State, p: Plain, op: Op)
    requires Coupled(s, p) && Legal([op])
    ensures Step(s, op).1 == PlainStep(p, op).1 && Coupled(Step(s, op).0, PlainStep(p, op).0)
  {
    assert [op][0] == op;
    if op.Get? {
      GetIsExpected(s, p, op.key);
    }
  }

  /** Refinement: over every sequence of operations of one process, whatever is
      evicted from L1 and whatever other clients do to their keys, the cache answers
      exactly like a plain map of last values filtered by freshness. */
  lemma {:induction false} CacheRefinesPlainMap(s: State, p: Plain, ops: seq<Op>)
    requires Coupled(s, p) && Legal(ops)
    ensures Run(s, ops).1 == PlainRun(p, ops).1 && Coupled(Run(s, ops).0, PlainRun(p, ops).0)
    decreases ops
  {
    if ops != [] {
      assert Legal([ops[0]]) && Legal(ops[1..]);
      StepRefines(s, p, ops[0]);
      CacheRefinesPlainMap(Step(s, ops[0]).0, PlainStep(p, ops[0]).0, ops[1..]);
    }
  }

  function Empty(nowMs: int): State {
    State(nowMs, map[], map[], 0, 0, 0, 0)
  }

  function EmptyPlain(nowMs: int): Plain {
    Plain.Plain(nowMs, map[], map[], 0)
  }

  // At most the second past its expiry, or the second after it was set; never a full
  // second past if it was live when set.
  predicate InBound(v: Held, setMs: int, nowMs: int) {
    && (Seconds(nowMs) <= v.expiresAt || Seconds(nowMs) <= Seconds(setMs) + 1)
    && (Seconds(setMs) < v.expiresAt ==> nowMs < v.expiresAt * 1000 + 1000)
  }

  // Within its lifetime of setMs an entry is in bound.
  lemma LifetimeInBound(v: Held, setMs: int, nowMs: int)
    requires nowMs < setMs + Lifetime(v, setMs) * 1000
    ensures InBound(v, setMs, nowMs)
  {
    assert setMs - Seconds(setMs) * 1000 < 1000;
  }

  predicate WithinBound(p: Plain, key: string, v: Held, nowMs: int) {
    key in p.last && key in p.setMs && v == p.last[key] && InBound(v, p.setMs[key], nowMs)
  }

  lemma StaleWithinBound(s: State, p: Plain, key: string)
    requires Coupled(s, p) && M2M <= key && StaleStep(s, key).Some?
    ensures WithinBound(p, key, StaleStep(s, key).value, s.nowMs)
  {
    LifetimeInBound(p.last[key], p.setMs[key], s.nowMs);
  }

  /** The fallback's bound: after any run, a stale answer is the last value set and at
      most the second past its expiry, or the second after it was set when it was set
      already expired; one that was live when set is never a full second past. */
  lemma StaleBound(nowMs: int, ops: seq<Op>, key: string)
    requires Legal(ops) && M2M <= key
    ensures var s := Run(Empty(nowMs), ops).0;
            StaleStep(s, key).Some? ==>
              WithinBound(PlainRun(EmptyPlain(nowMs), ops).0, key, StaleStep(s, key).value, s.nowMs)
  {
    CacheRefinesPlainMap(Empty(nowMs), EmptyPlain(nowMs), ops);
    if StaleStep(Run(Empty(nowMs), ops).0, key).Some? {
      StaleWithinBound(Run(Empty(nowMs), ops).0, PlainRun(EmptyPlain(nowMs), ops).0, key);
    }
  }
}

/** Several processes, each with its own L1, with every call suspended at its await. */
module SharedCache {
  import opened Wrappers
  import opened Keyspace
  import opened TokenCache
  import R = Redis

  // An entry with the time of its set, which is history: the code does not see it.
  datatype Dated = Dated(held: Held, setMs: int)

  datatype Pending =
    | Writing(key: string, entry: Dated)
    | Reading(process: nat, key: string, startMs: int)

  datatype Answer = Answer(key: string, entry: Dated, stale: bool, atMs: int)

  // History: every value set, the set behind each record, and what calls returned: a
  // fresh answer as of its start, a stale one as of its reading.
  datatype Sys = Sys(nowMs: int, l1: map<(nat, string), Dated>, store: R.Store, setMs: map<string, int>,
                     pending: map<nat, Pending>, written: set<(string, Dated)>, answers: map<nat, Answer>)

  function Init(nowMs: int): Sys {
    Sys(nowMs, map[], map[], map[], map[], {}, map[])
  }

  datatype Event =
    | Tick(ms: nat)
    | BeginSet(process: nat, call: nat, key: string, held: Held)
    | EndSet(call: nat)
    | BeginGet(process: nat, call: nat, key: string)
    | EndGet(call: nat)
    | GetStale(call: nat, key: string)
    | Evict(process: nat)
    | Foreign(key: string, entry: Option<R.Entry>)

  // `delay` bounds the time from the set to the write of its record.
  predicate Enabled(delay: nat, s: Sys, e: Event) {
    match e
    case BeginSet(_, _, k, _) => M2M <= k
    case EndSet(c) => c in s.pending && s.pending[c].Writing? && s.nowMs - s.pending[c].entry.setMs <= delay
    case BeginGet(_, _, k) => M2M <= k
    case EndGet(c) => c in s.pending && s.pending[c].Reading?
    case GetStale(_, k) => M2M <= k
    case Foreign(k, _) => !(M2M <= k)
    case _ => true
  }

  // The entry that a read of the key finds now.
  function Record(s: Sys, key: string): Option<Dated> {
    if R.Alive(s.store, key, s.nowMs) && s.store[key].value.Token? && key in s.setMs
    then Some(Dated(s.store[key].value, s.setMs[key])) else None
  }

  function Next(delay: nat, s: Sys, e: Event): Sys
    requires Enabled(delay, s, e)
  {
    match e
    case Tick(ms) => s.(nowMs := s.nowMs + ms)
    case BeginSet(p, c, k, v) =>
      s.(l1 := s.l1[(p, k) := Dated(v, s.nowMs)], pending := s.pending[c := Writing(k, Dated(v, s.nowMs))],
      written := s.written + {(k, Dated(v, s.nowMs))})
    case EndSet(c) =>
      // the lifetime was computed when the set began
      var w := s.pending[c];
      s.(store := R.Apply(s.store, w.key, R.Cmd.Set(w.entry.held, Lifetime(w.entry.held, w.entry.setMs)), s.nowMs).0,
      setMs := s.setMs[w.key := w.entry.setMs], pending := s.pending - {c})
    case BeginGet(p, c, k) =>
      if (p, k) in s.l1 && Fresh(s.l1[(p, k)].held, s.nowMs) then
        s.(answers := s.answers[c := Answer(k, s.l1[(p, k)], false, s.nowMs)])
      else s.(l1 := s.l1 - {(p, k)}, pending := s.pending[c := Reading(p, k, s.nowMs)])
    case EndGet(c) =>
      // freshness is judged by the clock reading taken when the call began
      var r, found := s.pending[c], Record(s, s.pending[c].key);
      var rest := s.(pending := s.pending - {c});
      if found.Some? && Fresh(found.value.held, r.startMs) then
        rest.(l1 := s.l1[(r.process, r.key) := found.value],
        answers := s.answers[c := Answer(r.key, found.value, false, r.startMs)])
      else rest
    case GetStale(c, k) =>
      if Record(s, k).Some? then s.(answers := s.answers[c := Answer(k, Record(s, k).value, true, s.nowMs)]) else s
    case Evict(p) => s.(l1 := map e | e in s.l1 && e.0 != p :: s.l1[e])
    case Foreign(k, entry) => s.(store := match entry case Some(v) => s.store[k := v] case None => s.store - {k})
  }

  // A record was set under its key, and expires by its lifetime counted from the set,
  // plus the delay of its write.
  predicate Sound(delay: nat, s: Sys, k: string) {
    k in s.store ==>
      && s.store[k].value.Token? && k in s.setMs && (k, Dated(s.store[k].value, s.setMs[k])) in s.written
      && s.store[k].expiresAtMs <= s.setMs[k] + delay + Lifetime(s.store[k].value, s.setMs[k]) * 1000
  }

  // What an answer promises.
  predicate Justified(delay: nat, s: Sys, a: Answer) {
    && (a.key, a.entry) in s.written
    && if a.stale then InBound(a.entry.held, a.entry.setMs, a.atMs - delay) else Fresh(a.entry.held, a.atMs)
  }

  // Nothing is held anywhere that was not set under its key.
  predicate Inv(delay: nat, s: Sys) {
    && (forall e :: e in s.l1 ==> (e.1, s.l1[e]) in s.written)
    && (forall k :: k in s.store && M2M <= k ==> Sound(delay, s, k))
    && (forall c :: c in s.pending && s.pending[c].Writing? ==> (s.pending[c].key, s.pending[c].entry) in s.written)
    && (forall c :: c in s.pending ==> M2M <= s.pending[c].key)
    && (forall c :: c in s.answers ==> Justified(delay, s, s.answers[c]))
  }

  predicate Admissible(delay: nat, s: Sys, es: seq<Event>)
    decreases es
  {
    es == [] || (Enabled(delay, s, es[0]) && Admissible(delay, Next(delay, s, es[0]), es[1..]))
  }

  function Run(delay: nat, s: Sys, es: seq<Event>): Sys
    requires Admissible(delay, s, es)
    decreases es
  {
    if es == [] then s else Run(delay, Next(delay, s, es[0]), es[1..])
  }

  lemma BeginSetKeepsInv(delay: nat, s: Sys, p: nat, c: nat, k: string, v: Held)
    requires Inv(delay, s) && M2M <= k
    ensures Inv(delay, Next(delay, s, BeginSet(p, c, k, v)))
  {
  }

  lemma EndSetKeepsInv(delay: nat, s: Sys, c: nat)
    requires Inv(delay, s) && Enabled(delay, s, EndSet(c))
    ensures Inv(delay, Next(delay, s, EndSet(c)))
  {
    var s' := Next(delay, s, EndSet(c));
    forall k | M2M <= k
      ensures Sound(delay, s', k)
    {
      assert Sound(delay, s, k);
    }
  }

  lemma AnswerKeepsInv(delay: nat, s: Sys, c: nat, a: Answer)
    requires Inv(delay, s) && Justified(delay, s, a)
    ensures Inv(delay, s.(answers := s.answers[c := a]))
  {
    assert forall k :: M2M <= k ==> Sound(delay, s, k);
  }

  lemma PromotionKeepsInv(delay: nat, s: Sys, e: (nat, string), entry: Dated)
    requires Inv(delay, s) && (e.1, entry) in s.written
    ensures Inv(delay, s.(l1 := s.l1[e := entry]))
  {
    assert forall k :: M2M <= k ==> Sound(delay, s, k);
  }

  lemma BeginGetKeepsInv(delay: nat, s: Sys, p: nat, c: nat, k: string)
    requires Inv(delay, s) && M2M <= k
    ensures Inv(delay, Next(delay, s, BeginGet(p, c, k)))
  {
    if (p, k) in s.l1 && Fresh(s.l1[(p, k)].held, s.nowMs) {
      AnswerKeepsInv(delay, s, c, Answer(k, s.l1[(p, k)], false, s.nowMs));
    } else {
      assert forall j :: M2M <= j ==> Sound(delay, s, j);
    }
  }

  lemma EndGetKeepsInv(delay: nat, s: Sys, c: nat)
    requires Inv(delay, s) && Enabled(delay, s, EndGet(c))
    ensures Inv(delay, Next(delay, s, EndGet(c)))
  {
    var r, found := s.pending[c], Record(s, s.pending[c].key);
    var rest := s.(pending := s.pending - {c});
    assert forall k :: M2M <= k ==> Sound(delay, s, k);
    assert Inv(delay, rest);
    if found.Some? && Fresh(found.value.held, r.startMs) {
      assert Sound(delay, s, r.key);
      PromotionKeepsInv(delay, rest, (r.process, r.key), found.value);
      AnswerKeepsInv(delay, rest.(l1 := s.l1[(r.process, r.key) := found.value]), c,
                     Answer(r.key, found.value, false, r.startMs));
    }
  }

  lemma GetStaleKeepsInv(delay: nat, s: Sys, c: nat, k: string)
    requires Inv(delay, s) && M2M <= k
    ensures Inv(delay, Next(delay, s, GetStale(c, k)))
  {
    if Record(s, k).Some? {
      var entry := Record(s, k).value;
      assert Sound(delay, s, k);
      LifetimeInBound(entry.held, entry.setMs, s.nowMs - delay);
      AnswerKeepsInv(delay, s, c, Answer(k, entry, true, s.nowMs));
    }
  }

  lemma StepKeepsInv(delay: nat, s: Sys, e: Event)
    requires Inv(delay, s) && Enabled(delay, s, e)
    ensures Inv(delay, Next(delay, s, e))
  {
    match e
    case BeginSet(p, c, k, v) => BeginSetKeepsInv(delay, s, p, c, k, v);
    case EndSet(c) => EndSetKeepsInv(delay, s, c);
    case BeginGet(p, c, k) => BeginGetKeepsInv(delay, s, p, c, k);
    case EndGet(c) => EndGetKeepsInv(delay, s, c);
    case GetStale(c, k) => GetStaleKeepsInv(delay, s, c, k);
    case _ => assert forall k :: M2M <= k ==> Sound(delay, s, k);
  }

  lemma {:induction false} RunKeepsInv(delay: nat, s: Sys, es: seq<Event>)
    requires Inv(delay, s) && Admissible(delay, s, es)
    ensures Inv(delay, Run(delay, s, es))
    decreases es
  {
    if es != [] {
      StepKeepsInv(delay, s, es[0]);
      RunKeepsInv(delay, Next(delay, s, es[0]), es[1..]);
    }
  }

  /** Whatever the interleaving, a returned entry was set under exactly that key. A
      fresh answer was fresh when the call began; a stale one is within the bound of a
      single process at the clock less the delay of the write. */
  lemma AnswersWereSetAndFresh(delay: nat, nowMs: int, es: seq<Event>, c: nat)
    requires Admissible(delay, Init(nowMs), es) && c in Run(delay, Init(nowMs), es).answers
    ensures var s := Run(delay, Init(nowMs), es);
            var a := s.answers[c];
            && (a.key, a.entry) in s.written
            && (!a.stale ==> Fresh(a.entry.held, a.atMs))
            && (a.stale ==> InBound(a.entry.held, a.entry.setMs, a.atMs - delay))
  {
    RunKeepsInv(delay, Init(nowMs), es);
  }

  // ---------- The code of one call is a run ----------

  lemma RunOne(delay: nat, s: Sys, e: Event)
    requires Enabled(delay, s, e)
    ensures Admissible(delay, s, [e]) && Run(delay, s, [e]) == Next(delay, s, e)
  {
    assert [e][1..] == [];
  }

  lemma RunTwo(delay: nat, s: Sys, e: Event, f: Event)
    requires Enabled(delay, s, e) && Enabled(delay, Next(delay, s, e), f)
    ensures Admissible(delay, s, [e] + [f]) && Run(delay, s, [e] + [f]) == Next(delay, Next(delay, s, e), f)
  {
    RunOne(delay, Next(delay, s, e), f);
    assert ([e] + [f])[1..] == [f];
  }

  // The map of process p.
  ghost predicate LevelOne(l1: map<(nat, string), Dated>, p: nat, m: map<string, Held>) {
    (forall k :: k in m <==> (p, k) in l1) && forall k :: k in m ==> m[k] == l1[(p, k)].held
  }

  lemma LevelOneDrops(l1: map<(nat, string), Dated>, p: nat, m: map<string, Held>, k: string)
    requires LevelOne(l1, p, m)
    ensures LevelOne(l1 - {(p, k)}, p, m - {k})
  {
  }

  lemma LevelOneTakes(l1: map<(nat, string), Dated>, p: nat, m: map<string, Held>, k: string, entry: Dated)
    requires LevelOne(l1, p, m)
    ensures LevelOne(l1[(p, k) := entry], p, m[k := entry.held])
  {
  }

  // The cache of process p, as its code sees it.
  ghost predicate Mirrors(s: Sys, p: nat, v: State) {
    v.nowMs == s.nowMs && v.store == s.store && LevelOne(s.l1, p, v.l1)
  }

  lemma SetIsARun(delay: nat, s: Sys, p: nat, v: State, c: nat, k: string, held: Held) returns (es: seq<Event>)
    requires Mirrors(s, p, v) && M2M <= k
    ensures Admissible(delay, s, es) && Mirrors(Run(delay, s, es), p, SetStep(v, k, held))
  {
    es := [BeginSet(p, c, k, held)] + [EndSet(c)];
    LevelOneTakes(s.l1, p, v.l1, k, Dated(held, s.nowMs));
    RunTwo(delay, s, BeginSet(p, c, k, held), EndSet(c));
  }

  // What a call answered, if anything.
  predicate Answers(s: Sys, s': Sys, c: nat, key: string, stale: bool, r: Option<Held>) {
    if r.None? then s'.answers == s.answers
    else c in s'.answers && s'.answers == s.answers[c := s'.answers[c]]
         && s'.answers[c].key == key && s'.answers[c].entry.held == r.value
         && s'.answers[c].stale == stale && s'.answers[c].atMs == s.nowMs
  }

  lemma HitMirrors(delay: nat, s: Sys, p: nat, v: State, c: nat, k: string)
    requires Mirrors(s, p, v) && M2M <= k && Typed(v.store) && k in v.l1 && Fresh(v.l1[k], v.nowMs)
    ensures var (s', (v', r)) := (Next(delay, s, BeginGet(p, c, k)), GetStep(v, k));
            Mirrors(s', p, v') && Answers(s, s', c, k, false, r)
  {
  }

  lemma BeginMisses(delay: nat, s: Sys, p: nat, v: State, c: nat, k: string)
    requires Mirrors(s, p, v) && M2M <= k && !(k in v.l1 && Fresh(v.l1[k], v.nowMs))
    ensures Next(delay, s, BeginGet(p, c, k))
            == s.(l1 := s.l1 - {(p, k)}, pending := s.pending[c := Reading(p, k, s.nowMs)])
  {
  }

  // The read of L2: it finds what the code finds.
  lemma EndReads(delay: nat, s: Sys, p: nat, c: nat, k: string)
    requires M2M <= k && c in s.pending && s.pending[c] == Reading(p, k, s.nowMs) && Sound(delay, s, k)
    ensures var s' := Next(delay, s, EndGet(c));
            && s'.nowMs == s.nowMs && s'.store == s.store
            && if R.Alive(s.store, k, s.nowMs) && Fresh(s.store[k].value, s.nowMs)
               then var entry := Dated(s.store[k].value, s.setMs[k]);
                    && s'.l1 == s.l1[(p, k) := entry]
                    && s'.answers == s.answers[c := Answer(k, entry, false, s.nowMs)]
               else s'.l1 == s.l1 && s'.answers == s.answers
  {
  }

  // After a miss in L1, at the read of L2.
  lemma MissMirrors(delay: nat, s: Sys, p: nat, v: State, c: nat, k: string)
    requires Inv(delay, s) && Mirrors(s, p, v) && M2M <= k && Typed(v.store)
    requires !(k in v.l1 && Fresh(v.l1[k], v.nowMs))
    ensures var s1 := Next(delay, s, BeginGet(p, c, k));
            && Enabled(delay, s1, EndGet(c))
            && var (s', (v', r)) := (Next(delay, s1, EndGet(c)), GetStep(v, k));
            Mirrors(s', p, v') && Answers(s, s', c, k, false, r)
  {
    assert Sound(delay, s, k);
    var s1 := s.(l1 := s.l1 - {(p, k)}, pending := s.pending[c := Reading(p, k, s.nowMs)]);
    BeginMisses(delay, s, p, v, c, k);
    EndReads(delay, s1, p, c, k);
    LevelOneDrops(s.l1, p, v.l1, k);
    if R.Alive(s.store, k, s.nowMs) && Fresh(s.store[k].value, s.nowMs) {
      LevelOneTakes(s1.l1, p, v.l1 - {k}, k, Dated(s.store[k].value, s.setMs[k]));
    }
  }

  /** What a call of the cache does with nothing in between is one of these runs, and it
      ends with the same two levels and the same answer. */
  lemma GetIsARun(delay: nat, s: Sys, p: nat, v: State, c: nat, k: string) returns (es: seq<Event>)
    requires Inv(delay, s) && Mirrors(s, p, v) && M2M <= k && Typed(v.store)
    ensures Admissible(delay, s, es)
    ensures var (v', r) := GetStep(v, k);
            Mirrors(Run(delay, s, es), p, v') && Answers(s, Run(delay, s, es), c, k, false, r)
  {
    if k in v.l1 && Fresh(v.l1[k], v.nowMs) {
      es := [BeginGet(p, c, k)];
      RunOne(delay, s, BeginGet(p, c, k));
      HitMirrors(delay, s, p, v, c, k);
    } else {
      es := [BeginGet(p, c, k)] + [EndGet(c)];
      MissMirrors(delay, s, p, v, c, k);
      RunTwo(delay, s, BeginGet(p, c, k), EndGet(c));
    }
  }

  lemma GetStaleIsARun(delay: nat, s: Sys, p: nat, v: State, c: nat, k: string)
    requires Inv(delay, s) && Mirrors(s, p, v) && M2M <= k && Typed(v.store)
    ensures var s' := Next(delay, s, GetStale(c, k)); Mirrors(s', p, v) && Answers(s, s', c, k, true, StaleStep(v, k))
  {
    assert Sound(delay, s, k);
  }
}
