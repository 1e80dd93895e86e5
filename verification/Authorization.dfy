/** Local Cedar evaluation. */
module Cedar {
  import opened Wrappers
  import opened Json

  // An empty principal, action or resource places no condition.
  datatype Policy = Policy(id: string, permit: bool, principal: string, action: string, resource: string,
                           whenScopes: Option<seq<string>>, unlessScopes: Option<seq<string>>,
                           whenContext: Option<map<string, Json>>)

  datatype Query = Query(principal: string, action: string, resource: string, scopes: seq<string>,
                         context: map<string, Json>)

  // `===`: two separately parsed objects or arrays are never the same.
  predicate Identical(a: Json, b: Json) {
    a == b && !a.Obj? && !a.Arr?
  }

  predicate Matches(p: Policy, q: Query) {
    && (p.principal != "" ==> p.principal == q.principal)
    && (p.action != "" ==> p.action == q.action)
    && (p.resource != "" ==> p.resource == q.resource)
    && (p.whenScopes.Some? ==> forall s :: s in p.whenScopes.value ==> s in q.scopes)
    && (p.unlessScopes.Some? ==> exists s :: s in p.unlessScopes.value && s !in q.scopes)
    && (p.whenContext.Some? ==>
          forall k :: k in p.whenContext.value ==> k in q.context && Identical(q.context[k], p.whenContext.value[k]))
  }

  /** A policy fails to match exactly for one of these reasons: a party it names is another,
      a scope it asks for is missing, all the scopes it excepts are held, or a piece of
      context it asks for is missing, different, or not a plain value. */
  lemma MismatchExactly(p: Policy, q: Query)
    ensures !Matches(p, q) <==>
              || (p.principal != "" && p.principal != q.principal)
              || (p.action != "" && p.action != q.action)
              || (p.resource != "" && p.resource != q.resource)
              || (p.whenScopes.Some? && exists s :: s in p.whenScopes.value && s !in q.scopes)
              || (p.unlessScopes.Some? && forall s :: s in p.unlessScopes.value ==> s in q.scopes)
              || (p.whenContext.Some?
                  && exists k :: k in p.whenContext.value
                                 && (k !in q.context || q.context[k] != p.whenContext.value[k]
                                     || p.whenContext.value[k].Obj? || p.whenContext.value[k].Arr?))
  {
  }

  predicate Allows(ps: seq<Policy>, q: Query) {
    && (exists p :: p in ps && p.permit && Matches(p, q))
    && (forall p :: p in ps && Matches(p, q) ==> p.permit)
  }

  function MatchingIds(ps: seq<Policy>, q: Query): seq<string> {
    if ps == [] then []
    else MatchingIds(ps[..|ps| - 1], q) + if Matches(ps[|ps| - 1], q) then [ps[|ps| - 1].id] else []
  }

  /** Forbid overrides permit; the reasons are the matching policies in order. */
  method Evaluate(ps: seq<Policy>, q: Query) returns (allowed: bool, reasons: seq<string>)
    ensures allowed <==> Allows(ps, q)
    ensures reasons == MatchingIds(ps, q)
  {
    reasons := [];
    var allow, forbid := false, false;
    for k := 0 to |ps|
      invariant allow <==> exists p :: p in ps[..k] && p.permit && Matches(p, q)
      invariant forbid <==> exists p :: p in ps[..k] && !p.permit && Matches(p, q)
      invariant reasons == MatchingIds(ps[..k], q)
    {
      assert ps[..k + 1] == ps[..k] + [ps[k]];
      assert ps[..k + 1][..k] == ps[..k];
      if Matches(ps[k], q) {
        reasons := reasons + [ps[k].id];
        if !ps[k].permit {
          forbid := true;
        } else {
          allow := true;
        }
      }
    }
    assert ps[..|ps|] == ps;
    allowed := !(forbid || !allow);
  }

  /** The order of the policies is irrelevant. */
  lemma OrderIrrelevant(ps: seq<Policy>, qs: seq<Policy>, q: Query)
    requires multiset(ps) == multiset(qs)
    ensures Allows(ps, q) <==> Allows(qs, q)
  {
    forall p
      ensures p in ps <==> p in qs
    {
      assert p in ps <==> p in multiset(ps);
      assert p in qs <==> p in multiset(qs);
    }
  }

  /** Inserting a forbid anywhere keeps every denial, and denies exactly the queries it matches. */
  lemma ForbidOnlyDenies(before: seq<Policy>, f: Policy, after: seq<Policy>, q: Query)
    requires !f.permit
    ensures Allows(before + [f] + after, q) <==> Allows(before + after, q) && !Matches(f, q)
  {
    var small, big := before + after, before + [f] + after;
    forall p
      ensures p in big <==> p in small || p == f
    {
    }
    if Allows(big, q) {
      var p :| p in big && p.permit && Matches(p, q);
      assert p in small;
    }
  }

  function When(p: Policy): seq<string> {
    if p.whenScopes.Some? then p.whenScopes.value else []
  }

  // Some query matches: the two scope conditions leave room for each other, and no
  // object or array is asked for.
  predicate Possible(p: Policy) {
    && (p.unlessScopes.Some? ==> exists s :: s in p.unlessScopes.value && s !in When(p))
    && (p.whenContext.Some? ==>
          forall k :: k in p.whenContext.value ==> !p.whenContext.value[k].Obj? && !p.whenContext.value[k].Arr?)
  }

  // The query with just the scopes and the context the policy asks for.
  function Witness(p: Policy, principal: string, action: string, resource: string): Query {
    Query(principal, action, resource, When(p), if p.whenContext.Some? then p.whenContext.value else map[])
  }

  predicate Names(p: Policy, principal: string, action: string, resource: string) {
    && (p.principal != "" ==> p.principal == principal)
    && (p.action != "" ==> p.action == action)
    && (p.resource != "" ==> p.resource == resource)
  }

  lemma PossibleExactly(p: Policy, principal: string, action: string, resource: string)
    requires Names(p, principal, action, resource)
    ensures Possible(p) <==> Matches(p, Witness(p, principal, action, resource))
  {
  }

  lemma MatchedIsPossible(p: Policy, q: Query)
    requires Matches(p, q)
    ensures Possible(p)
  {
    if p.unlessScopes.Some? {
      var s :| s in p.unlessScopes.value && s !in q.scopes;
      assert s in p.unlessScopes.value && s !in When(p);
    }
  }

  // A permit no scope withdraws; a forbid no scope triggers; or a policy that never matches.
  predicate ScopeProof(p: Policy) {
    !Possible(p) || if p.permit then p.unlessScopes.None? else When(p) == []
  }

  /** Under such policies extra scopes never turn ALLOW into DENY. */
  lemma MoreScopesNeverDeny(ps: seq<Policy>, q: Query, more: seq<string>)
    requires (forall p :: p in ps ==> ScopeProof(p)) && Allows(ps, q) && forall s :: s in q.scopes ==> s in more
    ensures Allows(ps, q.(scopes := more))
  {
    var q' := q.(scopes := more);
    var p :| p in ps && p.permit && Matches(p, q);
    MatchedIsPossible(p, q);
    assert Matches(p, q');
    forall f | f in ps && Matches(f, q')
      ensures f.permit
    {
      if !f.permit {
        MatchedIsPossible(f, q');
        assert Matches(f, q);
      }
    }
  }

  const EVERYTHING := Policy("all", true, "", "", "", None, None, None)

  // A permit by itself; a forbid against a permit for everything.
  function Alone(p: Policy): seq<Policy> {
    if p.permit then [p] else [EVERYTHING, p]
  }

  lemma AloneAllows(p: Policy, q: Query)
    ensures Allows(Alone(p), q) <==> (Matches(p, q) <==> p.permit)
  {
    assert p in Alone(p);
    if !p.permit {
      assert EVERYTHING in Alone(p) && Matches(EVERYTHING, q);
    }
  }

  /** And that condition is exact, policy by policy: any other policy has a query that
      is allowed and, with more scopes, denied. */
  lemma ScopesDenyExactly(p: Policy)
    ensures (forall q, more | Allows(Alone(p), q) && forall s :: s in q.scopes ==> s in more ::
               Allows(Alone(p), q.(scopes := more)))
            <==> ScopeProof(p)
  {
    if ScopeProof(p) {
      forall q, more | Allows(Alone(p), q) && forall s :: s in q.scopes ==> s in more
        ensures Allows(Alone(p), q.(scopes := more))
      {
        assert ScopeProof(EVERYTHING);
        MoreScopesNeverDeny(Alone(p), q, more);
      }
    } else {
      var q := Witness(p, p.principal, p.action, p.resource);
      PossibleExactly(p, p.principal, p.action, p.resource);
      if p.permit {
        var more := q.scopes + p.unlessScopes.value;
        AloneAllows(p, q);
        AloneAllows(p, q.(scopes := more));
      } else {
        var none := q.(scopes := []);
        assert q == none.(scopes := q.scopes) && When(p)[0] in When(p);
        AloneAllows(p, none);
        AloneAllows(p, q);
      }
    }
  }
}

/** The decision cache in front of the engine. */
module Authorize {
  import opened Wrappers
  import opened Json
  import opened Text
  import Cedar

  // The token goes to the remote engine, the scopes and the rest of the context to either.
  datatype Input = Input(principal: string, action: string, resource: string, token: string, scopes: seq<string>,
                         context: map<string, Json>)

  function Key(i: Input): string {
    i.principal + ":" + i.action + ":" + i.resource
  }

  datatype Entry = Entry(allowed: bool, storedAtMs: int)

  // One call: a hit answers, a miss asks and stores only what the engine answered.
  function Answered(ttlMs: nat, cache: map<string, Entry>, i: Input, nowMs: int, engineSays: Option<bool>, doneMs: int)
      : (map<string, Entry>, Option<bool>)
  {
    if Key(i) in cache && nowMs - cache[Key(i)].storedAtMs < ttlMs then (cache, Some(cache[Key(i)].allowed))
    else if engineSays.None? then (cache, None)
    else (cache[Key(i) := Entry(engineSays.value, doneMs)], engineSays)
  }

  class Authorizer {
    const ttlMs: nat
    var cache: map<string, Entry>

    constructor (ttlMs: nat)
      ensures this.ttlMs == ttlMs && cache == map[]
    {
      this.ttlMs, cache := ttlMs, map[];
    }

    // `engineSays` is the engine's answer, or none if it throws; it is asked only on a miss.
    method Authorize(i: Input, nowMs: int, engineSays: Option<bool>, doneMs: int) returns (r: Option<bool>, hit: bool)
      modifies this
      ensures (cache, r) == Answered(ttlMs, old(cache), i, nowMs, engineSays, doneMs)
      ensures hit <==> old(Key(i) in cache && nowMs - cache[Key(i)].storedAtMs < ttlMs)
      ensures hit ==> r == Some(old(cache[Key(i)].allowed)) && cache == old(cache)
      ensures !hit ==> r == engineSays
    {
      var key := Key(i);
      if key in cache && nowMs - cache[key].storedAtMs < ttlMs {
        return Some(cache[key].allowed), true;
      }
      if engineSays.None? {
        return None, false;
      }
      cache := cache[key := Entry(engineSays.value, doneMs)];
      return engineSays, false;
    }
  }

  // ---------- Concurrent callers ----------

  datatype Answer = Answer(input: Input, allowed: bool, atMs: int)

  // What the engine decided, and when.
  datatype Decision = Decision(input: Input, allowed: bool, atMs: int)

  datatype Sys = Sys(nowMs: int, cache: map<string, Entry>, waiting: map<nat, Input>, decided: set<Decision>,
                     answers: map<nat, Answer>)

  // The engine may answer one input differently at different times: its policies change,
  // and the local engine may stand in for a remote one that fails.
  datatype Event = Tick(ms: nat) | Ask(call: nat, input: Input) | Decide(call: nat, allowed: bool) | Fail(call: nat)

  predicate Enabled(s: Sys, e: Event) {
    match e
    case Tick(_) => true
    case Ask(c, _) => c !in s.waiting && c !in s.answers
    case Decide(c, _) => c in s.waiting
    case Fail(c) => c in s.waiting
  }

  function Next(ttlMs: nat, s: Sys, e: Event): Sys
    requires Enabled(s, e)
  {
    match e
    case Tick(ms) => s.(nowMs := s.nowMs + ms)
    case Ask(c, i) =>
      if Key(i) in s.cache && s.nowMs - s.cache[Key(i)].storedAtMs < ttlMs then
        s.(answers := s.answers[c := Answer(i, s.cache[Key(i)].allowed, s.nowMs)])
      else s.(waiting := s.waiting[c := i])
    case Decide(c, allowed) =>
      var i := s.waiting[c];
      s.(waiting := s.waiting - {c}, cache := s.cache[Key(i) := Entry(allowed, s.nowMs)],
      decided := s.decided + {Decision(i, allowed, s.nowMs)}, answers := s.answers[c := Answer(i, allowed, s.nowMs)])
    case Fail(c) => s.(waiting := s.waiting - {c})
  }

  predicate Admissible(ttlMs: nat, s: Sys, es: seq<Event>)
    decreases es
  {
    es == [] || (Enabled(s, es[0]) && Admissible(ttlMs, Next(ttlMs, s, es[0]), es[1..]))
  }

  function Run(ttlMs: nat, s: Sys, es: seq<Event>): Sys
    requires Admissible(ttlMs, s, es)
    decreases es
  {
    if es == [] then s else Run(ttlMs, Next(ttlMs, s, es[0]), es[1..])
  }

  const EMPTY := Sys(0, map[], map[], {}, map[])

  lemma RunOne(ttlMs: nat, s: Sys, e: Event)
    requires Enabled(s, e)
    ensures Admissible(ttlMs, s, [e]) && Run(ttlMs, s, [e]) == Next(ttlMs, s, e)
  {
    assert [e][1..] == [];
  }

  lemma RunMore(ttlMs: nat, s: Sys, e: Event, es: seq<Event>)
    requires Enabled(s, e) && Admissible(ttlMs, Next(ttlMs, s, e), es)
    ensures Admissible(ttlMs, s, [e] + es) && Run(ttlMs, s, [e] + es) == Run(ttlMs, Next(ttlMs, s, e), es)
  {
    assert ([e] + es)[1..] == es;
  }

  /** What a call of the authorizer does with nothing in between is one of these runs,
      and it ends with the same cache and the same answer. */
  lemma CallIsARun(ttlMs: nat, s: Sys, c: nat, i: Input, engineSays: Option<bool>, doneMs: int)
      returns (es: seq<Event>)
    requires c !in s.waiting && c !in s.answers && s.nowMs <= doneMs
    ensures Admissible(ttlMs, s, es)
    ensures var s', (cache, r) := Run(ttlMs, s, es), Answered(ttlMs, s.cache, i, s.nowMs, engineSays, doneMs);
            && s'.cache == cache && s'.waiting == s.waiting && s.nowMs <= s'.nowMs <= doneMs
            && s'.answers == if r.Some? then s.answers[c := Answer(i, r.value, s'.nowMs)] else s.answers
  {
    var s1 := Next(ttlMs, s, Ask(c, i));
    if c in s1.answers {
      es := [Ask(c, i)];
      RunOne(ttlMs, s, Ask(c, i));
    } else {
      var s2 := s1.(nowMs := doneMs);
      var e := if engineSays.Some? then Decide(c, engineSays.value) else Fail(c);
      es := [Ask(c, i)] + ([Tick(doneMs - s.nowMs)] + [e]);
      RunOne(ttlMs, s2, e);
      RunMore(ttlMs, s1, Tick(doneMs - s.nowMs), [e]);
      RunMore(ttlMs, s, Ask(c, i), [Tick(doneMs - s.nowMs)] + [e]);
      assert s2.waiting - {c} == s.waiting;
    }
  }

  // Decided for this key, less than the TTL before it was given (or right then).
  ghost predicate Recent(ttlMs: nat, s: Sys, a: Answer) {
    exists d :: && d in s.decided && Key(d.input) == Key(a.input) && d.allowed == a.allowed
                && d.atMs <= a.atMs && (a.atMs - d.atMs < ttlMs || d.atMs == a.atMs)
  }

  ghost predicate Backed(s: Sys, k: string) {
    k in s.cache ==>
      && s.cache[k].storedAtMs <= s.nowMs
      && exists d :: d in s.decided && Key(d.input) == k && d.allowed == s.cache[k].allowed
                     && d.atMs == s.cache[k].storedAtMs
  }

  ghost predicate Inv(ttlMs: nat, s: Sys) {
    (forall k :: Backed(s, k)) && forall c :: c in s.answers ==> Recent(ttlMs, s, s.answers[c])
  }

  // Decisions accumulate, so what they back stays backed.
  lemma StillRecent(ttlMs: nat, s: Sys, s': Sys, a: Answer)
    requires Recent(ttlMs, s, a) && s.decided <= s'.decided
    ensures Recent(ttlMs, s', a)
  {
    var d :| && d in s.decided && Key(d.input) == Key(a.input) && d.allowed == a.allowed
             && d.atMs <= a.atMs && (a.atMs - d.atMs < ttlMs || d.atMs == a.atMs);
    assert d in s'.decided;
  }

  lemma StillBacked(s: Sys, s': Sys, k: string)
    requires Backed(s, k) && s.decided <= s'.decided && s.nowMs <= s'.nowMs
    requires k in s'.cache ==> k in s.cache && s'.cache[k] == s.cache[k]
    ensures Backed(s', k)
  {
    if k in s'.cache {
      var d :| && d in s.decided && Key(d.input) == k && d.allowed == s.cache[k].allowed
               && d.atMs == s.cache[k].storedAtMs;
      assert d in s'.decided;
    }
  }

  lemma DecideKeepsInv(ttlMs: nat, s: Sys, c: nat, allowed: bool)
    requires Inv(ttlMs, s) && c in s.waiting
    ensures Inv(ttlMs, Next(ttlMs, s, Decide(c, allowed)))
  {
    var s', i := Next(ttlMs, s, Decide(c, allowed)), s.waiting[c];
    assert Decision(i, allowed, s.nowMs) in s'.decided;
    forall k
      ensures Backed(s', k)
    {
      if k != Key(i) {
        assert Backed(s, k);
        StillBacked(s, s', k);
      }
    }
    forall d | d in s'.answers
      ensures Recent(ttlMs, s', s'.answers[d])
    {
      if d != c {
        StillRecent(ttlMs, s, s', s.answers[d]);
      }
    }
  }

  lemma StepKeepsInv(ttlMs: nat, s: Sys, e: Event)
    requires Inv(ttlMs, s) && Enabled(s, e)
    ensures Inv(ttlMs, Next(ttlMs, s, e))
  {
    if e.Decide? {
      DecideKeepsInv(ttlMs, s, e.call, e.allowed);
    } else {
      var s' := Next(ttlMs, s, e);
      forall k
        ensures Backed(s', k)
      {
        assert Backed(s, k);
        StillBacked(s, s', k);
      }
      forall c | c in s'.answers
        ensures Recent(ttlMs, s', s'.answers[c])
      {
        if c in s.answers {
          StillRecent(ttlMs, s, s', s.answers[c]);
        } else {
          assert Backed(s, Key(e.input));
        }
      }
    }
  }

  lemma {:induction false} RunKeepsInv(ttlMs: nat, s: Sys, es: seq<Event>)
    requires Inv(ttlMs, s) && Admissible(ttlMs, s, es)
    ensures Inv(ttlMs, Run(ttlMs, s, es))
    decreases es
  {
    if es != [] {
      StepKeepsInv(ttlMs, s, es[0]);
      RunKeepsInv(ttlMs, Next(ttlMs, s, es[0]), es[1..]);
    }
  }

  /** On every interleaving, however the engine's mind changes, an answer is a decision
      it made for the same key less than the TTL earlier. */
  lemma AnswersAreRecent(ttlMs: nat, es: seq<Event>, c: nat)
    requires Admissible(ttlMs, EMPTY, es) && c in Run(ttlMs, EMPTY, es).answers
    ensures var s := Run(ttlMs, EMPTY, es); Recent(ttlMs, s, s.answers[c])
  {
    RunKeepsInv(ttlMs, EMPTY, es);
  }

  // ---------- When the cache is invisible ----------

  // The engine decides as this function throughout.
  predicate Steady(ttlMs: nat, engine: Input -> bool, s: Sys, es: seq<Event>)
    requires Admissible(ttlMs, s, es)
    decreases es
  {
    es == [] || ((es[0].Decide? ==> es[0].allowed == engine(s.waiting[es[0].call]))
                 && Steady(ttlMs, engine, Next(ttlMs, s, es[0]), es[1..]))
  }

  ghost predicate Agrees(engine: Input -> bool, s: Sys) {
    forall c :: c in s.answers ==> s.answers[c].allowed == engine(s.answers[c].input)
  }

  ghost predicate Transparent(ttlMs: nat, engine: Input -> bool) {
    forall es | Admissible(ttlMs, EMPTY, es) && Steady(ttlMs, engine, EMPTY, es) ::
      Agrees(engine, Run(ttlMs, EMPTY, es))
  }

  // The decision is a function of the cache key.
  ghost predicate KeyDecides(engine: Input -> bool) {
    forall i, j | Key(i) == Key(j) :: engine(i) == engine(j)
  }

  ghost predicate Faithful(engine: Input -> bool, s: Sys) {
    Agrees(engine, s) && forall i: Input :: Key(i) in s.cache ==> s.cache[Key(i)].allowed == engine(i)
  }

  lemma {:induction false} RunKeepsFaithful(ttlMs: nat, engine: Input -> bool, s: Sys, es: seq<Event>)
    requires KeyDecides(engine) && Faithful(engine, s)
    requires Admissible(ttlMs, s, es) && Steady(ttlMs, engine, s, es)
    ensures Faithful(engine, Run(ttlMs, s, es))
    decreases es
  {
    if es != [] {
      RunKeepsFaithful(ttlMs, engine, Next(ttlMs, s, es[0]), es[1..]);
    }
  }

  // Ask about i, let the engine decide, then ask about j at once.
  lemma SecondAskerGetsFirstAnswer(ttlMs: nat, engine: Input -> bool, i: Input, j: Input) returns (es: seq<Event>)
    requires ttlMs > 0 && Key(i) == Key(j)
    ensures Admissible(ttlMs, EMPTY, es) && Steady(ttlMs, engine, EMPTY, es)
    ensures var s := Run(ttlMs, EMPTY, es); 1 in s.answers && s.answers[1] == Answer(j, engine(i), 0)
  {
    var decide := Decide(0, engine(i));
    es := [Ask(0, i)] + ([decide] + [Ask(1, j)]);
    var s1 := Next(ttlMs, EMPTY, Ask(0, i));
    var s2 := Next(ttlMs, s1, decide);
    RunOne(ttlMs, s2, Ask(1, j));
    RunMore(ttlMs, s1, decide, [Ask(1, j)]);
    RunMore(ttlMs, EMPTY, Ask(0, i), [decide] + [Ask(1, j)]);
    assert [Ask(1, j)][1..] == [] && ([decide] + [Ask(1, j)])[1..] == [Ask(1, j)];
    assert es[1..] == [decide] + [Ask(1, j)];
    assert Steady(ttlMs, engine, s2, [Ask(1, j)]);
    assert Steady(ttlMs, engine, s1, [decide] + [Ask(1, j)]);
  }

  /** With an engine that decides steadily, the cached authorizer always agrees with it
      exactly when the decision depends on nothing but the key. */
  lemma TransparentExactly(ttlMs: nat, engine: Input -> bool)
    requires ttlMs > 0
    ensures Transparent(ttlMs, engine) <==> KeyDecides(engine)
  {
    if KeyDecides(engine) {
      forall es | Admissible(ttlMs, EMPTY, es) && Steady(ttlMs, engine, EMPTY, es)
        ensures Agrees(engine, Run(ttlMs, EMPTY, es))
      {
        RunKeepsFaithful(ttlMs, engine, EMPTY, es);
      }
    } else {
      var i, j :| Key(i) == Key(j) && engine(i) != engine(j);
      var es := SecondAskerGetsFirstAnswer(ttlMs, engine, i, j);
      assert !Agrees(engine, Run(ttlMs, EMPTY, es));
    }
  }

  // ---------- The local engine ----------

  function QueryOf(i: Input): Cedar.Query {
    Cedar.Query(i.principal, i.action, i.resource, i.scopes, i.context)
  }

  function Local(ps: seq<Cedar.Policy>): Input -> bool {
    (i: Input) => Cedar.Allows(ps, QueryOf(i))
  }

  /** What the key can tell about a policy: it reads neither scopes nor context, and
      names nobody and nothing, or all three and without a colon. */
  predicate KeyOnly(p: Cedar.Policy) {
    && Cedar.When(p) == [] && p.unlessScopes.None? && (p.whenContext.Some? ==> p.whenContext.value == map[])
    && ((p.principal == "" && p.action == "" && p.resource == "")
        || (p.principal != "" && p.action != "" && p.resource != ""
            && ':' !in p.principal && ':' !in p.action && ':' !in p.resource))
  }

  lemma PieceOfOne(s: string)
    ensures ':' !in s <==> |Split(s, ':')| == 1
    ensures ':' !in s ==> Split(s, ':') == [s]
  {
    if ':' !in s {
      IndexOfPiece(s, ':', "");
    }
  }

  // Parts without a colon are told apart by the key from any others.
  lemma PlainPartsAreTold(i: Input, j: Input)
    requires Key(i) == Key(j) && ':' !in i.principal && ':' !in i.action && ':' !in i.resource
    ensures i.principal == j.principal && i.action == j.action && i.resource == j.resource
  {
    KeySplits(i);
    KeySplits(j);
    PieceOfOne(i.principal);
    PieceOfOne(i.action);
    PieceOfOne(i.resource);
    ThreePieces(Split(j.principal, ':'), Split(j.action, ':'), Split(j.resource, ':'),
                i.principal, i.action, i.resource);
    PieceOfOne(j.principal);
    PieceOfOne(j.action);
    PieceOfOne(j.resource);
  }

  lemma ThreePieces(a: seq<string>, b: seq<string>, c: seq<string>, x: string, y: string, z: string)
    requires a != [] && b != [] && c != [] && a + b + c == [x] + [y] + [z]
    ensures a == [x] && b == [y] && c == [z]
  {
    assert |a| == |b| == |c| == 1;
    assert a[0] == (a + b + c)[0] && b[0] == (a + b + c)[1] && c[0] == (a + b + c)[2];
  }

  lemma KeySplits(i: Input)
    ensures Split(Key(i), ':') == Split(i.principal, ':') + Split(i.action, ':') + Split(i.resource, ':')
  {
    SplitConcat(i.principal + ":" + i.action, ':', i.resource);
    SplitConcat(i.principal, ':', i.action);
  }

  lemma KeyOnlyMatchesAlike(p: Cedar.Policy, i: Input, j: Input)
    requires KeyOnly(p) && Key(i) == Key(j) && Cedar.Matches(p, QueryOf(i))
    ensures Cedar.Matches(p, QueryOf(j))
  {
    if p.principal != "" {
      PlainPartsAreTold(i, j);
    }
  }

  /** A check on the policies that suffices for the cache to be invisible. */
  lemma LocalIsTransparent(ttlMs: nat, ps: seq<Cedar.Policy>)
    requires ttlMs > 0 && forall p :: p in ps ==> KeyOnly(p) || !Cedar.Possible(p)
    ensures Transparent(ttlMs, Local(ps))
  {
    forall i, j | Key(i) == Key(j)
      ensures Local(ps)(i) == Local(ps)(j)
    {
      forall p | p in ps
        ensures Cedar.Matches(p, QueryOf(i)) <==> Cedar.Matches(p, QueryOf(j))
      {
        MatchesAlike(p, i, j);
      }
    }
    TransparentExactly(ttlMs, Local(ps));
  }

  lemma MatchesAlike(p: Cedar.Policy, i: Input, j: Input)
    requires (KeyOnly(p) || !Cedar.Possible(p)) && Key(i) == Key(j)
    ensures Cedar.Matches(p, QueryOf(i)) <==> Cedar.Matches(p, QueryOf(j))
  {
    if Cedar.Matches(p, QueryOf(i)) {
      Cedar.MatchedIsPossible(p, QueryOf(i));
      KeyOnlyMatchesAlike(p, i, j);
    } else if Cedar.Matches(p, QueryOf(j)) {
      Cedar.MatchedIsPossible(p, QueryOf(j));
      KeyOnlyMatchesAlike(p, j, i);
    }
  }

  // An input the policy matches.
  function Asking(p: Cedar.Policy, principal: string, action: string, resource: string): Input {
    var q := Cedar.Witness(p, principal, action, resource);
    Input(principal, action, resource, "", q.scopes, q.context)
  }

  // A colon moves from one part to its neighbour.
  lemma MovesLeft(i: Input, x: string, y: string)
    requires i.action == x + ":" + y
    ensures Key(i) == Key(i.(principal := i.principal + ":" + x, action := y))
  {
    assert i.principal + ":" + (x + ":" + y) == (i.principal + ":" + x) + ":" + y;
  }

  lemma MovesRight(i: Input, x: string, y: string)
    requires i.resource == x + ":" + y
    ensures Key(i) == Key(i.(action := i.action + ":" + x, resource := y))
  {
    assert i.principal + ":" + i.action + ":" + (x + ":" + y) == i.principal + ":" + (i.action + ":" + x) + ":" + y;
  }

  // Two inputs with one key that the policy tells apart, if it leaves a part unnamed:
  // the colon stands in an unnamed part, next to a named one.
  lemma ColonLeavesNamed(p: Cedar.Policy) returns (i: Input, j: Input)
    requires Cedar.Possible(p)
    requires (p.principal != "" && p.action == "") || (p.action != "" && p.resource == "")
    ensures Key(i) == Key(j) && Cedar.Matches(p, QueryOf(i)) && !Cedar.Matches(p, QueryOf(j))
  {
    if p.action == "" {
      i := Asking(p, p.principal, "x:y", p.resource);
      j := i.(principal := p.principal + ":x", action := "y");
      MovesLeft(i, "x", "y");
    } else {
      i := Asking(p, p.principal, p.action, "x:y");
      j := i.(action := p.action + ":x", resource := "y");
      MovesRight(i, "x", "y");
    }
    Cedar.PossibleExactly(p, i.principal, i.action, i.resource);
  }

  lemma ColonJoinsNamed(p: Cedar.Policy) returns (i: Input, j: Input)
    requires Cedar.Possible(p)
    requires (p.principal == "" && p.action != "") || (p.action == "" && p.resource != "")
    ensures Key(i) == Key(j) && Cedar.Matches(p, QueryOf(i)) && !Cedar.Matches(p, QueryOf(j))
  {
    assert "x" + ":" + "y" == "x:y";
    if p.action != "" {
      i := Asking(p, "x:y", p.action, p.resource);
      j := i.(principal := "x", action := "y" + ":" + p.action);
      MovesLeft(j, "y", p.action);
    } else {
      i := Asking(p, p.principal, "x:y", p.resource);
      j := i.(action := "x", resource := "y" + ":" + p.resource);
      MovesRight(j, "y", p.resource);
    }
    Cedar.PossibleExactly(p, i.principal, i.action, i.resource);
  }

  // Or if it names all three and one of them has a colon.
  lemma NamedColonMoves(p: Cedar.Policy) returns (i: Input, j: Input)
    requires Cedar.Possible(p) && p.principal != "" && p.action != "" && p.resource != ""
    requires ':' in p.principal || ':' in p.action || ':' in p.resource
    ensures Key(i) == Key(j) && Cedar.Matches(p, QueryOf(i)) && !Cedar.Matches(p, QueryOf(j))
  {
    i := Asking(p, p.principal, p.action, p.resource);
    Cedar.PossibleExactly(p, p.principal, p.action, p.resource);
    if ':' in p.principal {
      var x, y := Cut(p.principal);
      j := i.(principal := x, action := y + ":" + p.action);
      MovesLeft(j, y, p.action);
    } else if ':' in p.action {
      var x, y := Cut(p.action);
      j := i.(principal := p.principal + ":" + x, action := y);
      MovesLeft(i, x, y);
    } else {
      var x, y := Cut(p.resource);
      j := i.(action := p.action + ":" + x, resource := y);
      MovesRight(i, x, y);
    }
  }

  lemma Cut(s: string) returns (x: string, y: string)
    requires ':' in s
    ensures s == x + ":" + y
  {
    var k :| 0 <= k < |s| && s[k] == ':';
    x, y := s[..k], s[k + 1..];
  }

  // Scopes or context it tells apart.
  lemma ContextTells(p: Cedar.Policy) returns (i: Input, j: Input)
    requires Cedar.Possible(p)
    requires Cedar.When(p) != [] || p.unlessScopes.Some? || (p.whenContext.Some? && p.whenContext.value != map[])
    ensures Key(i) == Key(j) && Cedar.Matches(p, QueryOf(i)) && !Cedar.Matches(p, QueryOf(j))
  {
    i := Asking(p, p.principal, p.action, p.resource);
    Cedar.PossibleExactly(p, p.principal, p.action, p.resource);
    if Cedar.When(p) != [] {
      j := i.(scopes := []);
      assert Cedar.When(p)[0] in Cedar.When(p);
    } else if p.unlessScopes.Some? {
      j := i.(scopes := p.unlessScopes.value);
    } else {
      j := i.(context := map[]);
      var k :| k in p.whenContext.value;
    }
  }

  /** And for one policy the check is exact: any other permit that can match, or forbid
      beside a permit for everything, shows through the cache. */
  lemma LocalIsTransparentExactly(ttlMs: nat, p: Cedar.Policy)
    requires ttlMs > 0
    ensures Transparent(ttlMs, Local(Cedar.Alone(p))) <==> KeyOnly(p) || !Cedar.Possible(p)
  {
    if KeyOnly(p) || !Cedar.Possible(p) {
      assert KeyOnly(Cedar.EVERYTHING);
      LocalIsTransparent(ttlMs, Cedar.Alone(p));
    } else {
      var i, j;
      if Cedar.When(p) != [] || p.unlessScopes.Some? || (p.whenContext.Some? && p.whenContext.value != map[]) {
        i, j := ContextTells(p);
      } else if (p.principal != "" && p.action == "") || (p.action != "" && p.resource == "") {
        i, j := ColonLeavesNamed(p);
      } else if p.principal == "" || p.action == "" {
        i, j := ColonJoinsNamed(p);
      } else {
        i, j := NamedColonMoves(p);
      }
      Cedar.AloneAllows(p, QueryOf(i));
      Cedar.AloneAllows(p, QueryOf(j));
      assert Local(Cedar.Alone(p))(i) != Local(Cedar.Alone(p))(j);
      TransparentExactly(ttlMs, Local(Cedar.Alone(p)));
    }
  }
}
