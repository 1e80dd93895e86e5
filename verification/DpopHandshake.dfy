/** The nonce handshake between a verifier and a client that retries once. */
module DpopHandshake {
  import opened Wrappers
  import opened Keyspace
  import opened Dpop
  import opened DpopProtocol
  import opened DpopAcceptance
  import R = Redis

  // ---------- The server side ----------

  // A call that recorded a jti is never answered with a nonce challenge.
  predicate Unchallenged(s: Sys) {
    forall c :: c in s.records ==>
      && c in s.calls
      && (s.calls[c].phase.Binding? || s.calls[c].phase.Accepted? || s.calls[c].phase.Rejected?)
      && !Challenged(s.calls[c].phase)
  }

  predicate Challenged(p: Phase) {
    p.Rejected? && p.failure.Auth? && p.failure.code == UseDpopNonce
  }

  // The acting call: only its record step can add a record, and it ends Binding.
  lemma OwnStepKeepsUnchallenged(cfg: Config, crypto: Crypto, s: Sys, e: Event)
    requires Unchallenged(s) && Enabled(cfg, None, s, e) && !e.Tick? && !e.Foreign?
    ensures var s' := Next(cfg, crypto, s, e);
            && e.call in s'.calls
            && (e.call in s'.records ==>
                  var p := s'.calls[e.call].phase; (p.Binding? || p.Accepted? || p.Rejected?) && !Challenged(p))
  {
  }

  lemma StepKeepsUnchallenged(cfg: Config, crypto: Crypto, s: Sys, e: Event)
    requires Unchallenged(s) && Enabled(cfg, None, s, e)
    ensures Unchallenged(Next(cfg, crypto, s, e))
  {
    if !e.Tick? && !e.Foreign? {
      OwnStepKeepsUnchallenged(cfg, crypto, s, e);
      OthersUntouched(cfg, crypto, s, e);
    }
  }

  lemma {:induction false} RunKeepsUnchallenged(cfg: Config, crypto: Crypto, delay: Option<nat>, s: Sys, es: seq<Event>)
    requires Unchallenged(s) && Admissible(cfg, crypto, delay, s, es)
    ensures Unchallenged(Run(cfg, crypto, delay, s, es))
    decreases es
  {
    if es != [] {
      StepKeepsUnchallenged(cfg, crypto, s, es[0]);
      RunKeepsUnchallenged(cfg, crypto, delay, Next(cfg, crypto, s, es[0]), es[1..]);
    }
  }

  /** On every run, a challenged attempt has left no jti record behind. */
  lemma ChallengeLeavesNoRecord(cfg: Config, crypto: Crypto, delay: Option<nat>, start: int, es: seq<Event>, c: nat)
    requires Admissible(cfg, crypto, delay, Init(start), es)
    requires var s := Run(cfg, crypto, delay, Init(start), es); c in s.calls && Challenged(s.calls[c].phase)
    ensures c !in Run(cfg, crypto, delay, Init(start), es).records
  {
    RunKeepsUnchallenged(cfg, crypto, delay, Init(start), es);
  }

  // ---------- The first request, in any company ----------

  // The call brings i, is checked in time, and is not cut off.
  predicate Proper(cfg: Config, s: Sys, e: Event, c: nat, i: Input) {
    match e
    case Begin(d, j) => d == c ==> j == i
    case Check(d) => d == c ==> Timely(ClaimsOf(i.proof).iat, cfg.tolerance, s.nowMs)
    case Abort(d) => d != c
    case _ => true
  }

  // A proper call whose nonce, if it presents one, is spent or expired at its nonce step.
  predicate ProperUnpaid(cfg: Config, s: Sys, e: Event, c: nat, i: Input) {
    && Proper(cfg, s, e, c, i)
    && (e == Consume(c) ==> !R.Alive(s.store, NonceKey(cfg, ClaimsOf(i.proof).nonce), s.nowMs))
  }

  predicate UnpaidRun(cfg: Config, crypto: Crypto, delay: Option<nat>, s: Sys, es: seq<Event>, c: nat, i: Input)
    requires Admissible(cfg, crypto, delay, s, es)
    decreases es
  {
    es == [] || (ProperUnpaid(cfg, s, es[0], c, i)
                 && UnpaidRun(cfg, crypto, delay, Next(cfg, crypto, s, es[0]), es[1..], c, i))
  }

  function Answer(n: string): Phase {
    Rejected(Auth(401, UseDpopNonce, Some(n)))
  }

  // Not begun, under way, or challenged; and nothing recorded.
  predicate OnlyChallenged(s: Sys, c: nat, i: Input) {
    && c !in s.records
    && (c in s.calls ==>
          && s.calls[c].input == i
          && var p := s.calls[c].phase;
          p.Presented? || p.Consuming? || p.Challenging?
          || (p.Rejected? && p.failure.Auth? && p.failure.challengeNonce.Some?
              && p == Answer(p.failure.challengeNonce.value)))
  }

  lemma StepOnlyChallenges(cfg: Config, crypto: Crypto, s: Sys, e: Event, c: nat, i: Input)
    requires cfg.requireNonce && cfg.hasNonceStore && InOrder(crypto, i)
    requires OnlyChallenged(s, c, i) && Enabled(cfg, None, s, e) && ProperUnpaid(cfg, s, e, c, i)
    ensures OnlyChallenged(Next(cfg, crypto, s, e), c, i)
  {
    match e
    case Check(d) =>
      if d == c {
        HonestPasses(cfg, crypto, i, s.nowMs);
      }
    case _ =>
  }

  lemma {:induction false} RunOnlyChallenges(cfg: Config, crypto: Crypto, delay: Option<nat>, s: Sys, es: seq<Event>,
                                             c: nat, i: Input)
    requires cfg.requireNonce && cfg.hasNonceStore && InOrder(crypto, i)
    requires OnlyChallenged(s, c, i) && Admissible(cfg, crypto, delay, s, es)
    requires UnpaidRun(cfg, crypto, delay, s, es, c, i)
    ensures OnlyChallenged(Run(cfg, crypto, delay, s, es), c, i)
    decreases es
  {
    if es != [] {
      StepOnlyChallenges(cfg, crypto, s, es[0], c, i);
      RunOnlyChallenges(cfg, crypto, delay, Next(cfg, crypto, s, es[0]), es[1..], c, i);
    }
  }

  predicate Got(s: Sys, c: nat, n: string) {
    c in s.calls && s.calls[c].phase == Answer(n)
  }

  lemma StepAnswers(cfg: Config, crypto: Crypto, s: Sys, e: Event, c: nat, n: string)
    requires Enabled(cfg, None, s, e) && (Got(s, c, n) || e == Challenge(c, n) || e == Unstored(c, n))
    ensures Got(Next(cfg, crypto, s, e), c, n)
  {
  }

  // A challenge step answers for good.
  lemma {:induction false} RunAnswers(cfg: Config, crypto: Crypto, delay: Option<nat>, s: Sys, es: seq<Event>, c: nat,
                                      n: string)
    requires Admissible(cfg, crypto, delay, s, es)
    requires Got(s, c, n) || Challenge(c, n) in es || Unstored(c, n) in es
    ensures Got(Run(cfg, crypto, delay, s, es), c, n)
    decreases es
  {
    if es != [] {
      if Got(s, c, n) || es[0] == Challenge(c, n) || es[0] == Unstored(c, n) {
        StepAnswers(cfg, crypto, s, es[0], c, n);
      }
      RunAnswers(cfg, crypto, delay, Next(cfg, crypto, s, es[0]), es[1..], c, n);
    }
  }

  /** The first request, on every run and with anything between its steps: a request in
      order whose nonce is missing, spent or expired can only be challenged, leaves no
      jti record, and gets the nonce that its challenge step hands out, stored or not. */
  lemma FirstIsChallenged(cfg: Config, crypto: Crypto, delay: Option<nat>, s: Sys, es: seq<Event>, c: nat, i: Input,
                          n: string)
    requires cfg.requireNonce && cfg.hasNonceStore && InOrder(crypto, i)
    requires c !in s.calls && c !in s.records && Admissible(cfg, crypto, delay, s, es)
    requires UnpaidRun(cfg, crypto, delay, s, es, c, i)
    ensures var s' := Run(cfg, crypto, delay, s, es);
            && c !in s'.records
            && (c in s'.calls && Done(s'.calls[c].phase) ==> Challenged(s'.calls[c].phase))
            && (Challenge(c, n) in es || Unstored(c, n) in es ==> c in s'.calls && s'.calls[c] == Call(i, Answer(n)))
  {
    RunOnlyChallenges(cfg, crypto, delay, s, es, c, i);
    if Challenge(c, n) in es || Unstored(c, n) in es {
      RunAnswers(cfg, crypto, delay, s, es, c, n);
    }
  }

  // ---------- The second request, in any company ----------

  predicate Done(p: Phase) {
    p.Accepted? || p.Rejected?
  }

  predicate Presents(i: Input, n: string) {
    ClaimsOf(i.proof).nonce == n
  }

  // The other request has neither the nonce nor the jti of this one.
  predicate Apart(j: Input, i: Input) {
    ClaimsOf(j.proof).nonce != ClaimsOf(i.proof).nonce && ClaimsOf(j.proof).jti != ClaimsOf(i.proof).jti
  }

  predicate Unrivalled(s: Sys, c: nat, i: Input) {
    forall d :: d in s.calls && d != c && !Done(s.calls[d].phase) ==> Apart(s.calls[d].input, i)
  }

  predicate JtiFree(cfg: Config, s: Sys, i: Input) {
    !R.Alive(s.store, JtiKey(cfg, ClaimsOf(i.proof).jti), s.nowMs)
  }

  /** Call c is proper, its jti has no live record when it arrives, its nonce step comes
      before the nonce expires, and no call that arrives has its nonce or its jti. */
  predicate Fair(cfg: Config, s: Sys, e: Event, c: nat, i: Input, expiresAtMs: int) {
    && Proper(cfg, s, e, c, i)
    && match e
       case Begin(d, j) => if d == c then JtiFree(cfg, s, i) else Apart(j, i)
       case Consume(d) => d == c ==> s.nowMs < expiresAtMs
       case _ => true
  }

  predicate FairRun(cfg: Config, crypto: Crypto, delay: Option<nat>, s: Sys, es: seq<Event>, c: nat, i: Input,
                    expiresAtMs: int)
    requires Admissible(cfg, crypto, delay, s, es)
    decreases es
  {
    es == [] || (Fair(cfg, s, es[0], c, i, expiresAtMs)
                 && FairRun(cfg, crypto, delay, Next(cfg, crypto, s, es[0]), es[1..], c, i, expiresAtMs))
  }

  predicate Holds(cfg: Config, s: Sys, n: string, expiresAtMs: int) {
    NonceKey(cfg, n) in s.store && s.store[NonceKey(cfg, n)].expiresAtMs == expiresAtMs
  }

  // Up to the nonce step the nonce is held while it lives; up to the record the jti is
  // free; and the call is nowhere it could fail.
  predicate OnCourse(cfg: Config, crypto: Crypto, s: Sys, c: nat, i: Input, expiresAtMs: int) {
    && Unrivalled(s, c, i)
    && (c !in s.calls || s.calls[c].phase.Presented? || s.calls[c].phase.Consuming? ==>
          s.nowMs < expiresAtMs ==> Holds(cfg, s, ClaimsOf(i.proof).nonce, expiresAtMs))
    && (c in s.calls ==>
          && s.calls[c].input == i
          && match s.calls[c].phase
             case Presented => JtiFree(cfg, s, i)
             case Consuming(_) => JtiFree(cfg, s, i)
             case Recording(_) => JtiFree(cfg, s, i)
             case Binding => true
             case Accepted(v) => BindStep(crypto, i) == Accepted(v)
             case _ => false)
  }

  lemma DistinctKeys(cfg: Config, j: Input, i: Input)
    requires Separate(cfg.jtiPrefix, cfg.noncePrefix)
    ensures NonceKey(cfg, ClaimsOf(j.proof).nonce) == NonceKey(cfg, ClaimsOf(i.proof).nonce)
            <==> ClaimsOf(j.proof).nonce == ClaimsOf(i.proof).nonce
    ensures JtiKey(cfg, ClaimsOf(j.proof).jti) == JtiKey(cfg, ClaimsOf(i.proof).jti)
            <==> ClaimsOf(j.proof).jti == ClaimsOf(i.proof).jti
    ensures JtiKey(cfg, ClaimsOf(j.proof).jti) != NonceKey(cfg, ClaimsOf(i.proof).nonce)
    ensures NonceKey(cfg, ClaimsOf(j.proof).nonce) != JtiKey(cfg, ClaimsOf(i.proof).jti)
  {
    var n, m := ClaimsOf(j.proof).nonce, ClaimsOf(i.proof).nonce;
    var a, b := ClaimsOf(j.proof).jti, ClaimsOf(i.proof).jti;
    assert NonceKey(cfg, n)[|cfg.noncePrefix|..] == n && NonceKey(cfg, m)[|cfg.noncePrefix|..] == m;
    assert JtiKey(cfg, a)[|cfg.jtiPrefix|..] == a && JtiKey(cfg, b)[|cfg.jtiPrefix|..] == b;
    KeysNeverMeet(cfg.jtiPrefix, a, cfg.noncePrefix, m);
    KeysNeverMeet(cfg.jtiPrefix, b, cfg.noncePrefix, n);
  }

  // The call's own steps.
  lemma OwnStepStaysOnCourse(cfg: Config, crypto: Crypto, s: Sys, e: Event, c: nat, i: Input, expiresAtMs: int)
    requires Separate(cfg.jtiPrefix, cfg.noncePrefix) && cfg.requireNonce && cfg.hasNonceStore
    requires Orderly(crypto, i) && i.proof.claims.nonce != ""
    requires OnCourse(cfg, crypto, s, c, i, expiresAtMs) && Enabled(cfg, None, s, e)
    requires Fair(cfg, s, e, c, i, expiresAtMs)
    requires e.Begin? || e.Check? || e.Consume? || e.Store? || e.Bind?
    requires e.call == c
    ensures OnCourse(cfg, crypto, Next(cfg, crypto, s, e), c, i, expiresAtMs)
  {
    OrderlyBinds(crypto, i);
    match e
    case Check(_) => HonestPasses(cfg, crypto, i, s.nowMs);
    case Consume(_) =>
      DistinctKeys(cfg, i, i);
      ConsumeSucceeds(cfg, s, c);
    case Store(_) => StoreSucceeds(cfg, s, c);
    case _ =>
  }

  // Another call's step: it reaches neither the nonce nor the jti record.
  lemma OtherStepStaysOnCourse(cfg: Config, crypto: Crypto, s: Sys, e: Event, c: nat, i: Input, expiresAtMs: int)
    requires Separate(cfg.jtiPrefix, cfg.noncePrefix) && OnCourse(cfg, crypto, s, c, i, expiresAtMs)
    requires Enabled(cfg, None, s, e) && Fair(cfg, s, e, c, i, expiresAtMs)
    requires (e.Consume? || e.Store? || e.Challenge?) && e.call != c
    ensures OnCourse(cfg, crypto, Next(cfg, crypto, s, e), c, i, expiresAtMs)
  {
    DistinctKeys(cfg, s.calls[e.call].input, i);
    if e.Challenge? {
      KeysNeverMeet(cfg.jtiPrefix, ClaimsOf(i.proof).jti, cfg.noncePrefix, e.nonce);
    }
  }

  // What changes no call but perhaps another's phase, and no key of the verifier.
  lemma QuietStepStaysOnCourse(cfg: Config, crypto: Crypto, s: Sys, e: Event, c: nat, i: Input, expiresAtMs: int)
    requires OnCourse(cfg, crypto, s, c, i, expiresAtMs) && Enabled(cfg, None, s, e)
    requires Fair(cfg, s, e, c, i, expiresAtMs)
    requires e.Tick? || e.Abort? || e.Unstored? || (e.Begin? && e.call != c) || (e.Check? && e.call != c)
             || (e.Bind? && e.call != c)
    ensures OnCourse(cfg, crypto, Next(cfg, crypto, s, e), c, i, expiresAtMs)
  {
  }

  lemma ForeignStaysOnCourse(cfg: Config, crypto: Crypto, s: Sys, e: Event, c: nat, i: Input, expiresAtMs: int)
    requires OnCourse(cfg, crypto, s, c, i, expiresAtMs) && Enabled(cfg, None, s, e) && e.Foreign?
    ensures OnCourse(cfg, crypto, Next(cfg, crypto, s, e), c, i, expiresAtMs)
  {
    assert cfg.noncePrefix <= NonceKey(cfg, ClaimsOf(i.proof).nonce);
    assert cfg.jtiPrefix <= JtiKey(cfg, ClaimsOf(i.proof).jti);
  }

  lemma StepStaysOnCourse(cfg: Config, crypto: Crypto, s: Sys, e: Event, c: nat, i: Input, expiresAtMs: int)
    requires Separate(cfg.jtiPrefix, cfg.noncePrefix) && cfg.requireNonce && cfg.hasNonceStore
    requires Orderly(crypto, i) && i.proof.claims.nonce != ""
    requires OnCourse(cfg, crypto, s, c, i, expiresAtMs) && Enabled(cfg, None, s, e)
    requires Fair(cfg, s, e, c, i, expiresAtMs)
    ensures OnCourse(cfg, crypto, Next(cfg, crypto, s, e), c, i, expiresAtMs)
  {
    if e.Foreign? {
      ForeignStaysOnCourse(cfg, crypto, s, e, c, i, expiresAtMs);
    } else if e.Tick? || e.Abort? || e.Unstored? {
      QuietStepStaysOnCourse(cfg, crypto, s, e, c, i, expiresAtMs);
    } else if e.call == c && !e.Challenge? {
      OwnStepStaysOnCourse(cfg, crypto, s, e, c, i, expiresAtMs);
    } else if e.Consume? || e.Store? || e.Challenge? {
      assert e.Challenge? ==> e.call != c;
      OtherStepStaysOnCourse(cfg, crypto, s, e, c, i, expiresAtMs);
    } else {
      QuietStepStaysOnCourse(cfg, crypto, s, e, c, i, expiresAtMs);
    }
  }

  lemma {:induction false} RunStaysOnCourse(cfg: Config, crypto: Crypto, delay: Option<nat>, s: Sys, es: seq<Event>,
                                            c: nat, i: Input, expiresAtMs: int)
    requires Separate(cfg.jtiPrefix, cfg.noncePrefix) && cfg.requireNonce && cfg.hasNonceStore
    requires Orderly(crypto, i) && i.proof.claims.nonce != "" && OnCourse(cfg, crypto, s, c, i, expiresAtMs)
    requires Admissible(cfg, crypto, delay, s, es) && FairRun(cfg, crypto, delay, s, es, c, i, expiresAtMs)
    ensures OnCourse(cfg, crypto, Run(cfg, crypto, delay, s, es), c, i, expiresAtMs)
    decreases es
  {
    if es != [] {
      StepStaysOnCourse(cfg, crypto, s, es[0], c, i, expiresAtMs);
      RunStaysOnCourse(cfg, crypto, delay, Next(cfg, crypto, s, es[0]), es[1..], c, i, expiresAtMs);
    }
  }

  predicate Ended(s: Sys, c: nat) {
    c in s.calls && Done(s.calls[c].phase)
  }

  lemma StepEnds(cfg: Config, crypto: Crypto, s: Sys, e: Event, c: nat)
    requires Enabled(cfg, None, s, e) && (Ended(s, c) || e == Bind(c))
    ensures Ended(Next(cfg, crypto, s, e), c)
  {
  }

  lemma {:induction false} RunEnds(cfg: Config, crypto: Crypto, delay: Option<nat>, s: Sys, es: seq<Event>, c: nat)
    requires Admissible(cfg, crypto, delay, s, es) && (Ended(s, c) || Bind(c) in es)
    ensures Ended(Run(cfg, crypto, delay, s, es), c)
    decreases es
  {
    if es != [] {
      if Ended(s, c) || es[0] == Bind(c) {
        StepEnds(cfg, crypto, s, es[0], c);
      }
      RunEnds(cfg, crypto, delay, Next(cfg, crypto, s, es[0]), es[1..], c);
    }
  }

  /** The handshake, on every run: once a challenge has issued n, an orderly second
      request presenting n is never refused, whatever happens between its steps, and
      its last step accepts it, provided the run is fair to it. */
  lemma HandshakeCompletes(cfg: Config, crypto: Crypto, delay: Option<nat>, s: Sys, c1: nat, n: string,
                           es: seq<Event>, c2: nat, i2: Input)
    requires Separate(cfg.jtiPrefix, cfg.noncePrefix) && cfg.requireNonce && cfg.hasNonceStore && n != ""
    requires Enabled(cfg, delay, s, Challenge(c1, n)) && !R.Alive(s.store, NonceKey(cfg, n), s.nowMs)
    requires c2 !in s.calls && Orderly(crypto, i2) && Presents(i2, n)
    requires Unrivalled(AfterChallenge(cfg, s, c1, n), c2, i2)
    requires Admissible(cfg, crypto, delay, AfterChallenge(cfg, s, c1, n), es)
    requires FairRun(cfg, crypto, delay, AfterChallenge(cfg, s, c1, n), es, c2, i2, s.nowMs + cfg.nonceTtl * 1000)
    ensures var s' := Run(cfg, crypto, delay, AfterChallenge(cfg, s, c1, n), es);
            && (Ended(s', c2) ==> s'.calls[c2] == Call(i2, Accepted(ResultOf(crypto, i2))))
            && (Bind(c2) in es ==> Ended(s', c2))
  {
    OrderlyBinds(crypto, i2);
    if Bind(c2) in es {
      RunEnds(cfg, crypto, delay, AfterChallenge(cfg, s, c1, n), es, c2);
    }
    RunStaysOnCourse(cfg, crypto, delay, AfterChallenge(cfg, s, c1, n), es, c2, i2, s.nowMs + cfg.nonceTtl * 1000);
  }

  ghost predicate CanBeAccepted(cfg: Config, crypto: Crypto, s: Sys, c: nat, i: Input)
    requires Orderly(crypto, i)
  {
    exists es :: && Admissible(cfg, crypto, None, s, es)
                 && c in Run(cfg, crypto, None, s, es).calls
                 && Run(cfg, crypto, None, s, es).calls[c] == Call(i, Accepted(ResultOf(crypto, i)))
  }

  function StepsLeft(p: Phase): nat {
    match p case Presented => 4 case Consuming(_) => 3 case Recording(_) => 2 case Binding => 1 case _ => 0
  }

  function OwnStep(p: Phase, c: nat): Event {
    match p
    case Presented => Check(c)
    case Consuming(_) => Consume(c)
    case Recording(_) => Event.Store(c)
    case _ => Bind(c)
  }

  /** Nor is it ever stuck: from wherever it stands its own steps lead to acceptance,
      while the proof is timely and the nonce lives. */
  lemma {:induction false} AlwaysCanFinish(cfg: Config, crypto: Crypto, s: Sys, c: nat, i: Input, expiresAtMs: int)
    requires Separate(cfg.jtiPrefix, cfg.noncePrefix) && cfg.requireNonce && cfg.hasNonceStore
    requires Orderly(crypto, i) && i.proof.claims.nonce != ""
    requires OnCourse(cfg, crypto, s, c, i, expiresAtMs) && c in s.calls
    requires s.calls[c].phase.Presented? ==> Timely(i.proof.claims.iat, cfg.tolerance, s.nowMs)
    requires s.calls[c].phase.Presented? || s.calls[c].phase.Consuming? ==> s.nowMs < expiresAtMs
    ensures CanBeAccepted(cfg, crypto, s, c, i)
    decreases StepsLeft(s.calls[c].phase)
  {
    OrderlyBinds(crypto, i);
    var es: seq<Event> := [];
    if s.calls[c].phase.Accepted? {
      assert Run(cfg, crypto, None, s, es) == s;
    } else {
      var e := OwnStep(s.calls[c].phase, c);
      StepAdvances(cfg, crypto, s, c, i, expiresAtMs);
      AlwaysCanFinish(cfg, crypto, Next(cfg, crypto, s, e), c, i, expiresAtMs);
      es :| && Admissible(cfg, crypto, None, Next(cfg, crypto, s, e), es)
            && c in Run(cfg, crypto, None, Next(cfg, crypto, s, e), es).calls
            && Run(cfg, crypto, None, Next(cfg, crypto, s, e), es).calls[c] == Call(i, Accepted(ResultOf(crypto, i)));
      Cons(cfg, crypto, None, s, e, es);
    }
  }

  lemma StepAdvances(cfg: Config, crypto: Crypto, s: Sys, c: nat, i: Input, expiresAtMs: int)
    requires Separate(cfg.jtiPrefix, cfg.noncePrefix) && cfg.requireNonce && cfg.hasNonceStore
    requires Orderly(crypto, i) && i.proof.claims.nonce != ""
    requires OnCourse(cfg, crypto, s, c, i, expiresAtMs) && c in s.calls && !Done(s.calls[c].phase)
    requires s.calls[c].phase.Presented? ==> Timely(i.proof.claims.iat, cfg.tolerance, s.nowMs)
    requires s.calls[c].phase.Presented? || s.calls[c].phase.Consuming? ==> s.nowMs < expiresAtMs
    ensures Enabled(cfg, None, s, OwnStep(s.calls[c].phase, c))
    ensures var s' := Next(cfg, crypto, s, OwnStep(s.calls[c].phase, c));
            && OnCourse(cfg, crypto, s', c, i, expiresAtMs) && s'.nowMs == s.nowMs && c in s'.calls
            && StepsLeft(s'.calls[c].phase) < StepsLeft(s.calls[c].phase) && !s'.calls[c].phase.Presented?
  {
    StepStaysOnCourse(cfg, crypto, s, OwnStep(s.calls[c].phase, c), c, i, expiresAtMs);
    HonestOrLater(cfg, crypto, s, c, i);
  }

  lemma HonestOrLater(cfg: Config, crypto: Crypto, s: Sys, c: nat, i: Input)
    requires c in s.calls && s.calls[c].input == i && cfg.requireNonce && cfg.hasNonceStore && Orderly(crypto, i)
    requires s.calls[c].phase.Presented? ==> Timely(i.proof.claims.iat, cfg.tolerance, s.nowMs)
    requires i.proof.claims.nonce != ""
    ensures s.calls[c].phase.Presented? ==> AfterCheck(cfg, crypto, s, c).calls[c].phase.Consuming?
    ensures s.calls[c].phase.Consuming? ==> !AfterConsume(cfg, s, c).calls[c].phase.Consuming?
    ensures s.calls[c].phase.Recording? ==> !AfterStore(cfg, s, c).calls[c].phase.Recording?
  {
  }

  // ---------- The client side ----------

  /** Send without a nonce; on a challenge, once more with the nonce it carries.
      The third component lists the nonces sent, one per request. */
  function WithNonceRetry<S, T>(fn: (Option<string>, S) -> (Result<T, Failure>, S), s: S)
      : (Result<T, Failure>, S, seq<Option<string>>)
  {
    var (r, s1) := fn(None, s);
    if r.Failure? && r.error.Auth? && r.error.code == UseDpopNonce
       && r.error.challengeNonce.Some? && r.error.challengeNonce.value != "" then
      var (r2, s2) := fn(r.error.challengeNonce, s1);
      (r2, s2, [None, r.error.challengeNonce])
    else (r, s1, [None])
  }

  /** The wrapper asks again exactly when the first answer is a challenge with a nonce, and
      then with that nonce; the last answer is the result, whatever it is. */
  lemma RetriesExactly<S, T>(fn: (Option<string>, S) -> (Result<T, Failure>, S), s: S)
    ensures var (r, s', sent) := WithNonceRetry(fn, s);
            var (first, s1) := fn(None, s);
            if exists status, n :: n != "" && first == Result.Failure(Auth(status, UseDpopNonce, Some(n)))
            then
              && |sent| == 2 && sent[0] == None && sent[1] == first.error.challengeNonce
              && (r, s') == fn(sent[1], s1)
            else sent == [None] && (r, s') == (first, s1)
  {
    var first := fn(None, s).0;
    if first.Failure? && first.error.Auth? && first.error.code == UseDpopNonce && first.error.challengeNonce.Some? {
      assert first == Result.Failure(Auth(first.error.status, UseDpopNonce, Some(first.error.challengeNonce.value)));
    }
  }

  // The server as the client meets it: two undisturbed calls at their own times.
  function Serve(cfg: Config, crypto: Crypto, sign: Option<string> -> Input, m0: Moments, m1: Moments)
      : (Option<string>, R.Store) -> (Result<Verified, Failure>, R.Store)
  {
    (nonce: Option<string>, store: R.Store) =>
      var (phase, store1) := Undisturbed(cfg, crypto, sign(nonce), store, if nonce.None? then m0 else m1);
      (match phase
       case Accepted(v) => Success(v)
       case Rejected(f) => Result.Failure(f)
       case _ => Result.Failure(Plain),
       store1)
  }

  lemma FirstCallChallenges(cfg: Config, crypto: Crypto, i: Input, store: R.Store, m: Moments)
    requires cfg.requireNonce && cfg.hasNonceStore && Honest(cfg, crypto, i, m.checkMs) && i.proof.claims.nonce == ""
    requires !R.Alive(store, NonceKey(cfg, m.challenge), m.issueMs)
    ensures Undisturbed(cfg, crypto, i, store, m)
            == (Answer(m.challenge),
                store[NonceKey(cfg, m.challenge) := R.Entry(R.Mark, m.issueMs + cfg.nonceTtl * 1000)])
  {
    HonestPasses(cfg, crypto, i, m.checkMs);
  }

  /** The whole exchange: exactly two requests, the second one accepted, and the
      first one leaves every jti record as it was. */
  lemma ClientSucceedsInTwo(cfg: Config, crypto: Crypto, sign: Option<string> -> Input, m0: Moments, m1: Moments,
                            store: R.Store)
    requires Separate(cfg.jtiPrefix, cfg.noncePrefix) && cfg.requireNonce && cfg.hasNonceStore
    requires m0.challenge != "" && !R.Alive(store, NonceKey(cfg, m0.challenge), m0.issueMs)
    requires Honest(cfg, crypto, sign(None), m0.checkMs) && sign(None).proof.claims.nonce == ""
    requires Honest(cfg, crypto, sign(Some(m0.challenge)), m1.checkMs)
    requires sign(Some(m0.challenge)).proof.claims.nonce == m0.challenge
    requires !R.Alive(store, JtiKey(cfg, sign(Some(m0.challenge)).proof.claims.jti), m1.recordMs)
    requires m1.consumeMs < m0.issueMs + cfg.nonceTtl * 1000
    ensures var (r, _, sent) := WithNonceRetry(Serve(cfg, crypto, sign, m0, m1), store);
            && r.Success? && sent == [None, Some(m0.challenge)]
            && r.value.jti == sign(Some(m0.challenge)).proof.claims.jti
    ensures forall jti :: JtiKey(cfg, jti) in store <==>
              JtiKey(cfg, jti) in Serve(cfg, crypto, sign, m0, m1)(None, store).1
  {
    forall jti
      ensures JtiKey(cfg, jti) != NonceKey(cfg, m0.challenge)
    {
      KeysNeverMeet(cfg.jtiPrefix, jti, cfg.noncePrefix, m0.challenge);
    }
    var i2 := sign(Some(m0.challenge));
    var store1 := store[NonceKey(cfg, m0.challenge) := R.Entry(R.Mark, m0.issueMs + cfg.nonceTtl * 1000)];
    FirstCallChallenges(cfg, crypto, sign(None), store, m0);
    AcceptedExactly(cfg, crypto, i2, store1, m1);
  }

  // An HTTP answer, as far as the ledger client looks at it.
  datatype Response = Response(status: nat, dpopNonce: Option<string>)

  /** The ledger client retries any 401 that carries a nonce, once, and reports
      the last answer. */
  method PostLedgerEntry(attempt: (nat, Option<string>) -> Response)
      returns (r: Result<Response, nat>, sent: seq<Option<string>>)
    ensures 1 <= |sent| <= 2 && sent[0] == None
    ensures |sent| == 2 <==>
              var first := attempt(0, None);
              first.status == 401 && first.dpopNonce.Some? && first.dpopNonce.value != ""
    ensures |sent| == 2 ==> sent[1] == attempt(0, None).dpopNonce
    ensures var last := attempt(|sent| - 1, sent[|sent| - 1]);
            r == if 200 <= last.status < 300 then Success(last) else Result.Failure(last.status)
  {
    sent := [None];
    var response := attempt(0, None);
    if response.status == 401 {
      var nonce := response.dpopNonce;
      if nonce.Some? && nonce.value != "" {
        response := attempt(1, nonce);
        sent := sent + [nonce];
      }
    }
    if response.status < 200 || response.status >= 300 {
      return Result.Failure(response.status), sent;
    }
    return Success(response), sent;
  }
}
