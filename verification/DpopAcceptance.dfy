/** What the verifier accepts: exactly, for an undisturbed call, and on every run. */
module DpopAcceptance {
  import opened Wrappers
  import opened Keyspace
  import opened Dpop
  import opened DpopProtocol
  import R = Redis

  // A readable ES256 proof that verifies under the key in its own header.
  predicate Verifiable(i: Input) {
    && i.proof.Proof? && i.proof.typ == "dpop+jwt" && i.proof.alg == "ES256" && i.proof.jwk.Some?
    && i.proof.importable && i.proof.verifies
  }

  // It names this method and address.
  predicate Addressed(i: Input)
    requires i.proof.Proof?
  {
    i.proof.claims.htm == Some(i.expectedHtm) && i.proof.claims.htu == Some(i.expectedHtu)
  }

  // It names this access token, where it must.
  predicate ForToken(crypto: Crypto, i: Input)
    requires i.proof.Proof?
  {
    i.expectAth ==> i.accessToken.Some? && i.proof.claims.ath == Some(crypto.sha256(i.accessToken.value))
  }

  // Nothing but the clock can keep this request from the nonce step.
  predicate InOrder(crypto: Crypto, i: Input) {
    Verifiable(i) && Addressed(i) && ForToken(crypto, i)
  }

  // Apart from the clock, only the nonce and the jti record can go wrong with this request.
  predicate Orderly(crypto: Crypto, i: Input) {
    && InOrder(crypto, i)
    && i.proof.claims.jti != ""
    && KeyFits(i, crypto.thumbprint(i.proof.jwk.value))
  }

  predicate Honest(cfg: Config, crypto: Crypto, i: Input, nowMs: int) {
    Orderly(crypto, i) && Timely(i.proof.claims.iat, cfg.tolerance, nowMs)
  }

  // The token names this key, or names none and need not.
  predicate KeyFits(i: Input, thumbprint: string) {
    if i.expectedJkt.None? || i.expectedJkt == Some("") then !i.requireCnf else i.expectedJkt == Some(thumbprint)
  }

  function ResultOf(crypto: Crypto, i: Input): Verified
    requires i.proof.Proof? && i.proof.jwk.Some?
  {
    Verified(i.proof.claims.jti, crypto.thumbprint(i.proof.jwk.value), i.proof.claims.iat)
  }

  lemma HonestPasses(cfg: Config, crypto: Crypto, i: Input, nowMs: int)
    requires InOrder(crypto, i) && Timely(i.proof.claims.iat, cfg.tolerance, nowMs)
    requires cfg.requireNonce && cfg.hasNonceStore
    ensures CheckStep(cfg, crypto, i, nowMs) == if i.proof.claims.nonce == "" then Challenging else Consuming(nowMs)
  {
  }

  lemma OrderlyBinds(crypto: Crypto, i: Input)
    requires Orderly(crypto, i)
    ensures BindStep(crypto, i) == Accepted(ResultOf(crypto, i))
  {
  }

  // ---------- One undisturbed call ----------

  // The store after a challenge: the nonce lives from now on, unless it already did.
  function WithNonce(cfg: Config, s: R.Store, n: string, atMs: int): R.Store {
    if R.Alive(s, NonceKey(cfg, n), atMs) then s
    else s[NonceKey(cfg, n) := R.Entry(R.Mark, atMs + cfg.nonceTtl * 1000)]
  }

  // What is wrong with the request itself, by the fields of its proof: the first fault counts.
  function RequestFault(cfg: Config, crypto: Crypto, i: Input, checkMs: int): Option<Failure> {
    if !Verifiable(i) then Some(Auth(401, InvalidDpopProof, None))
    else if !Addressed(i) then Some(Auth(401, DpopBindingMismatch, None))
    else if i.proof.claims.iat > (checkMs / 1000) as real + cfg.tolerance as real
            || i.proof.claims.iat < (checkMs / 1000) as real - cfg.tolerance as real then
      Some(Auth(401, DpopProofExpired, None))
    else if i.expectAth && i.accessToken.None? then Some(Plain)
    else if !ForToken(crypto, i) then Some(Auth(401, DpopTokenMismatch, None))
    else if cfg.requireNonce && !cfg.hasNonceStore then Some(Plain)
    else None
  }

  // A nonce is required, and the one presented is missing, spent or expired.
  predicate Unpaid(cfg: Config, i: Input, s: R.Store, consumeMs: int) {
    && cfg.requireNonce
    && (ClaimsOf(i.proof).nonce == "" || !R.Alive(s, NonceKey(cfg, ClaimsOf(i.proof).nonce), consumeMs))
  }

  // The nonce presented is gone.
  function Spent(cfg: Config, i: Input, s: R.Store): R.Store {
    if cfg.requireNonce && ClaimsOf(i.proof).nonce != "" then s - {NonceKey(cfg, ClaimsOf(i.proof).nonce)} else s
  }

  /** The whole verdict, refusals included: a faulty request gets its fault and leaves no
      trace; one without a live nonce is challenged with a new one, which then lives for
      its full lifetime; one without a jti or with a recorded one is refused after its
      nonce; and the key is compared last, after the record. */
  lemma VerdictExactly(cfg: Config, crypto: Crypto, i: Input, s: R.Store, m: Moments)
    requires Separate(cfg.jtiPrefix, cfg.noncePrefix)
    ensures var (phase, s') := Undisturbed(cfg, crypto, i, s, m);
            var fault, spent := RequestFault(cfg, crypto, i, m.checkMs), Spent(cfg, i, s);
            var jti := JtiKey(cfg, ClaimsOf(i.proof).jti);
            var recorded := spent[jti := R.Entry(R.Mark, m.recordMs + cfg.jtiTtl * 1000)];
            && (fault.Some? ==> phase == Rejected(fault.value) && s' == s)
            && (fault.None? && Unpaid(cfg, i, s, m.consumeMs) ==>
                  phase == Rejected(Auth(401, UseDpopNonce, Some(m.challenge)))
                  && s' == WithNonce(cfg, spent, m.challenge, m.issueMs))
            && (fault.None? && !Unpaid(cfg, i, s, m.consumeMs) ==>
                  if i.proof.claims.jti == "" then phase == Rejected(Auth(401, InvalidDpopProof, None)) && s' == spent
                  else if R.Alive(s, jti, m.recordMs) then
                    phase == Rejected(Auth(401, DpopNonceReuse, None)) && s' == spent
                  else if !KeyFits(i, crypto.thumbprint(i.proof.jwk.value)) then
                    phase == Rejected(Auth(401, DpopKeyMismatch, None)) && s' == recorded
                  else phase == Accepted(ResultOf(crypto, i)) && s' == recorded)
  {
    KeysNeverMeet(cfg.jtiPrefix, ClaimsOf(i.proof).jti, cfg.noncePrefix, ClaimsOf(i.proof).nonce);
    CheckFaults(cfg, crypto, i, m.checkMs);
    BindFits(crypto, i);
  }

  lemma CheckFaults(cfg: Config, crypto: Crypto, i: Input, checkMs: int)
    ensures var fault := RequestFault(cfg, crypto, i, checkMs);
            CheckStep(cfg, crypto, i, checkMs)
            == if fault.Some? then Rejected(fault.value)
               else if !cfg.requireNonce then Recording(checkMs)
               else if i.proof.claims.nonce == "" then Challenging else Consuming(checkMs)
  {
  }

  lemma BindFits(crypto: Crypto, i: Input)
    ensures Verifiable(i) ==>
              BindStep(crypto, i)
              == if KeyFits(i, crypto.thumbprint(i.proof.jwk.value)) then Accepted(ResultOf(crypto, i))
                 else Rejected(Auth(401, DpopKeyMismatch, None))
  {
  }

  /** In particular a nonce that has expired or been used gets a fresh one in its place,
      alive until its lifetime is over, and no jti record changes. */
  lemma DeadNonceIsChallenged(cfg: Config, crypto: Crypto, i: Input, s: R.Store, m: Moments, jti: string)
    requires Separate(cfg.jtiPrefix, cfg.noncePrefix) && cfg.requireNonce && cfg.hasNonceStore
    requires InOrder(crypto, i) && Timely(i.proof.claims.iat, cfg.tolerance, m.checkMs)
    requires !R.Alive(s, NonceKey(cfg, i.proof.claims.nonce), m.consumeMs) || i.proof.claims.nonce == ""
    requires !R.Alive(s, NonceKey(cfg, m.challenge), m.issueMs)
    ensures var (phase, s') := Undisturbed(cfg, crypto, i, s, m);
            && phase == Rejected(Auth(401, UseDpopNonce, Some(m.challenge)))
            && (forall t: int :: R.Alive(s', NonceKey(cfg, m.challenge), t) <==> t < m.issueMs + cfg.nonceTtl * 1000)
            && (JtiKey(cfg, jti) in s' <==> JtiKey(cfg, jti) in s)
            && (JtiKey(cfg, jti) in s ==> s'[JtiKey(cfg, jti)] == s[JtiKey(cfg, jti)])
  {
    VerdictExactly(cfg, crypto, i, s, m);
    KeysNeverMeet(cfg.jtiPrefix, jti, cfg.noncePrefix, i.proof.claims.nonce);
    KeysNeverMeet(cfg.jtiPrefix, jti, cfg.noncePrefix, m.challenge);
  }

  // A request in order and in time, with a live nonce where one is required, and a fresh jti.
  predicate Acceptable(cfg: Config, crypto: Crypto, i: Input, s: R.Store, m: Moments) {
    && Honest(cfg, crypto, i, m.checkMs)
    && (cfg.requireNonce ==>
          && cfg.hasNonceStore && i.proof.claims.nonce != ""
          && R.Alive(s, NonceKey(cfg, i.proof.claims.nonce), m.consumeMs))
    && !R.Alive(s, JtiKey(cfg, i.proof.claims.jti), m.recordMs)
  }

  /** An undisturbed call accepts exactly these requests. */
  lemma AcceptedExactly(cfg: Config, crypto: Crypto, i: Input, s: R.Store, m: Moments)
    requires Separate(cfg.jtiPrefix, cfg.noncePrefix)
    ensures var phase := Undisturbed(cfg, crypto, i, s, m).0;
            && (phase.Accepted? <==> Acceptable(cfg, crypto, i, s, m))
            && (phase.Accepted? ==> phase.result == ResultOf(crypto, i))
  {
    VerdictExactly(cfg, crypto, i, s, m);
  }

  // The checks passed at this reading.
  predicate Passed(cfg: Config, crypto: Crypto, i: Input, checkedAtMs: int) {
    CheckStep(cfg, crypto, i, checkedAtMs).Consuming? || CheckStep(cfg, crypto, i, checkedAtMs).Recording?
  }

  lemma PassedAndBound(cfg: Config, crypto: Crypto, i: Input, checkedAtMs: int)
    requires Passed(cfg, crypto, i, checkedAtMs) && ClaimsOf(i.proof).jti != "" && BindStep(crypto, i).Accepted?
    ensures Honest(cfg, crypto, i, checkedAtMs) && BindStep(crypto, i).result == ResultOf(crypto, i)
  {
  }

  // Whatever the configuration.
  lemma AcceptedMeans(cfg: Config, crypto: Crypto, i: Input, s: R.Store, m: Moments)
    requires Undisturbed(cfg, crypto, i, s, m).0.Accepted?
    ensures Honest(cfg, crypto, i, m.checkMs)
    ensures Undisturbed(cfg, crypto, i, s, m).0.result == ResultOf(crypto, i)
  {
  }

  // ---------- What acceptance means, in any company ----------

  // Call c has passed what its phase says it has, at the reading it remembers.
  predicate Earned(cfg: Config, crypto: Crypto, s: Sys, c: nat)
    requires c in s.calls
  {
    var i := s.calls[c].input;
    match s.calls[c].phase
    case Consuming(t) => t <= s.nowMs && Passed(cfg, crypto, i, t)
    case Recording(t) => t <= s.nowMs && Passed(cfg, crypto, i, t)
    case Binding => OnRecord(cfg, crypto, s, c)
    case Accepted(v) => OnRecord(cfg, crypto, s, c) && BindStep(crypto, i) == Accepted(v)
    case _ => true
  }

  predicate OnRecord(cfg: Config, crypto: Crypto, s: Sys, c: nat)
    requires c in s.calls
  {
    && ClaimsOf(s.calls[c].input.proof).jti != "" && c in s.records
    && s.records[c].checkedAtMs <= s.records[c].recordedAtMs <= s.nowMs
    && Passed(cfg, crypto, s.calls[c].input, s.records[c].checkedAtMs)
  }

  predicate AllEarned(cfg: Config, crypto: Crypto, s: Sys) {
    forall c :: c in s.calls ==> Earned(cfg, crypto, s, c)
  }

  // What another call does leaves this one's record and phase.
  lemma OthersStayEarned(cfg: Config, crypto: Crypto, s: Sys, s': Sys, c: nat)
    requires c in s.calls && Earned(cfg, crypto, s, c) && c in s'.calls && s'.calls[c] == s.calls[c]
    requires s.nowMs <= s'.nowMs && (c in s.records ==> c in s'.records && s'.records[c] == s.records[c])
    ensures Earned(cfg, crypto, s', c)
  {
  }

  lemma OwnStepIsEarned(cfg: Config, crypto: Crypto, s: Sys, e: Event)
    requires AllEarned(cfg, crypto, s) && Enabled(cfg, None, s, e) && !e.Tick? && !e.Foreign?
    ensures e.call in Next(cfg, crypto, s, e).calls && Earned(cfg, crypto, Next(cfg, crypto, s, e), e.call)
  {
    assert e.Begin? || Earned(cfg, crypto, s, e.call);
    if e.Check? {
      CheckRemembers(cfg, crypto, s.calls[e.call].input, s.nowMs);
    }
  }

  lemma CheckRemembers(cfg: Config, crypto: Crypto, i: Input, nowMs: int)
    ensures var p := CheckStep(cfg, crypto, i, nowMs);
            && (p.Consuming? || p.Recording? ==> p.checkedAtMs == nowMs)
            && (p.Consuming? || p.Recording? || p.Challenging? || p.Rejected?)
  {
  }

  lemma StepKeepsEarned(cfg: Config, crypto: Crypto, s: Sys, e: Event)
    requires AllEarned(cfg, crypto, s) && Enabled(cfg, None, s, e)
    ensures AllEarned(cfg, crypto, Next(cfg, crypto, s, e))
  {
    var s' := Next(cfg, crypto, s, e);
    forall c | c in s'.calls
      ensures Earned(cfg, crypto, s', c)
    {
      if !e.Tick? && !e.Foreign? && e.call == c {
        OwnStepIsEarned(cfg, crypto, s, e);
      } else {
        OthersStayEarned(cfg, crypto, s, s', c);
      }
    }
  }

  lemma {:induction false} RunKeepsEarned(cfg: Config, crypto: Crypto, delay: Option<nat>, s: Sys, es: seq<Event>)
    requires AllEarned(cfg, crypto, s) && Admissible(cfg, crypto, delay, s, es)
    ensures AllEarned(cfg, crypto, Run(cfg, crypto, delay, s, es))
    decreases es
  {
    if es != [] {
      StepKeepsEarned(cfg, crypto, s, es[0]);
      RunKeepsEarned(cfg, crypto, delay, Next(cfg, crypto, s, es[0]), es[1..]);
    }
  }

  /** On every run, whatever stands between its steps, an accepted call brought an orderly
      request that was timely when it was checked, and yields that request's result. */
  lemma AcceptedOnRun(cfg: Config, crypto: Crypto, delay: Option<nat>, s: Sys, es: seq<Event>, c: nat)
    requires s.calls == map[] && Admissible(cfg, crypto, delay, s, es)
    requires var s' := Run(cfg, crypto, delay, s, es); c in s'.calls && s'.calls[c].phase.Accepted?
    ensures var s' := Run(cfg, crypto, delay, s, es);
            && c in s'.records && s'.records[c].checkedAtMs <= s'.records[c].recordedAtMs <= s'.nowMs
            && Honest(cfg, crypto, s'.calls[c].input, s'.records[c].checkedAtMs)
            && s'.calls[c].phase.result == ResultOf(crypto, s'.calls[c].input)
  {
    RunKeepsEarned(cfg, crypto, delay, s, es);
    var s' := Run(cfg, crypto, delay, s, es);
    assert Earned(cfg, crypto, s', c);
    PassedAndBound(cfg, crypto, s'.calls[c].input, s'.records[c].checkedAtMs);
  }
}
