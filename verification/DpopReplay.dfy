/** A proof is accepted at most once, exactly when its replay record lives long
    enough. */
module DpopReplay {
  import opened Wrappers
  import opened Keyspace
  import opened Dpop
  import opened DpopProtocol
  import R = Redis

  // No two calls get past the record with the same jti and iat.
  predicate OneRecord(s: Sys) {
    forall c, d | c in s.records && d in s.records ::
      s.records[c].jti == s.records[d].jti && s.records[c].iat == s.records[d].iat ==> c == d
  }

  // A call beyond the record left one, for its own proof.
  predicate Traced(s: Sys) {
    forall c :: c in s.calls && (s.calls[c].phase.Binding? || s.calls[c].phase.Accepted?) ==>
      && c in s.records
      && s.records[c].jti == ClaimsOf(s.calls[c].input.proof).jti
      && s.records[c].iat == ClaimsOf(s.calls[c].input.proof).iat
      && (s.calls[c].phase.Accepted? ==>
            s.calls[c].phase.result.jti == s.records[c].jti && s.calls[c].phase.result.iat == s.records[c].iat)
  }

  // A waiting call passed the iat check at the time it remembers.
  predicate Vetted(cfg: Config, s: Sys) {
    forall c :: c in s.calls && (s.calls[c].phase.Consuming? || s.calls[c].phase.Recording?) ==>
      s.calls[c].phase.checkedAtMs <= s.nowMs &&
      Timely(ClaimsOf(s.calls[c].input.proof).iat, cfg.tolerance, s.calls[c].phase.checkedAtMs)
  }

  // Records outlive their own TTL in the store.
  predicate Covered(cfg: Config, s: Sys) {
    forall c :: c in s.records ==>
      var r := s.records[c];
      && r.checkedAtMs <= r.recordedAtMs <= s.nowMs
      && Timely(r.iat, cfg.tolerance, r.checkedAtMs)
      && JtiKey(cfg, r.jti) in s.store
      && r.recordedAtMs + cfg.jtiTtl * 1000 <= s.store[JtiKey(cfg, r.jti)].expiresAtMs
  }

  predicate ReplayInv(cfg: Config, s: Sys) {
    OneRecord(s) && Traced(s) && Vetted(cfg, s) && Covered(cfg, s)
  }

  // A record that covers the tolerance window on both sides plus the delay.
  predicate LongEnough(cfg: Config, d: nat) {
    cfg.jtiTtl * 1000 >= (2 * cfg.tolerance + 1) * 1000 + d
  }

  // Two timely checks of one iat are less than 2*tolerance+1 seconds apart.
  lemma WindowWidth(iat: real, tolerance: nat, t0: int, t1: int)
    requires Timely(iat, tolerance, t0) && Timely(iat, tolerance, t1)
    ensures t1 - t0 < (2 * tolerance + 1) * 1000
  {
    assert (Seconds(t1) - Seconds(t0)) as real <= 2.0 * tolerance as real;
    assert Seconds(t1) - Seconds(t0) <= 2 * tolerance;
  }

  // While the window is open the record is alive, so a second SET is refused.
  lemma RecordStillAlive(cfg: Config, d: nat, s: Sys, c: nat, e: nat)
    requires ReplayInv(cfg, s) && LongEnough(cfg, d)
    requires c in s.calls && s.calls[c].phase.Recording? && s.nowMs - s.calls[c].phase.checkedAtMs <= d
    requires e in s.records && s.records[e].jti == ClaimsOf(s.calls[c].input.proof).jti
    requires s.records[e].iat == ClaimsOf(s.calls[c].input.proof).iat
    ensures R.Alive(s.store, JtiKey(cfg, s.records[e].jti), s.nowMs)
  {
    WindowWidth(s.records[e].iat, cfg.tolerance, s.records[e].checkedAtMs, s.calls[c].phase.checkedAtMs);
  }

  lemma NonceKeysLeaveRecords(cfg: Config, nonce: string)
    requires Separate(cfg.jtiPrefix, cfg.noncePrefix)
    ensures forall jti :: JtiKey(cfg, jti) != NonceKey(cfg, nonce)
  {
    forall jti
      ensures JtiKey(cfg, jti) != NonceKey(cfg, nonce)
    {
      KeysNeverMeet(cfg.jtiPrefix, jti, cfg.noncePrefix, nonce);
    }
  }

  lemma JtiKeysDiffer(cfg: Config, a: string, b: string)
    ensures JtiKey(cfg, a) == JtiKey(cfg, b) <==> a == b
  {
    assert JtiKey(cfg, a)[|cfg.jtiPrefix|..] == a && JtiKey(cfg, b)[|cfg.jtiPrefix|..] == b;
  }

  lemma StoreKeepsReplayInv(cfg: Config, d: nat, s: Sys, c: nat)
    requires ReplayInv(cfg, s) && LongEnough(cfg, d) && Enabled(cfg, Some(d), s, Event.Store(c))
    ensures ReplayInv(cfg, AfterStore(cfg, s, c))
  {
    var jti := ClaimsOf(s.calls[c].input.proof).jti;
    if jti == "" || R.Alive(s.store, JtiKey(cfg, jti), s.nowMs) {
      StoreRefused(cfg, s, c);
      RephasingKeepsReplayInv(cfg, s, c, AfterStore(cfg, s, c).calls[c].phase);
    } else {
      StoreSucceeds(cfg, s, c);
      forall e | e in s.records && s.records[e].jti == jti && s.records[e].iat == ClaimsOf(s.calls[c].input.proof).iat
        ensures false
      {
        RecordStillAlive(cfg, d, s, c, e);
      }
      RecordingKeepsReplayInv(cfg, s, c);
    }
  }

  // A call that moves short of the record owes no more than its time of check.
  lemma RephasingKeepsReplayInv(cfg: Config, s: Sys, c: nat, phase: Phase)
    requires ReplayInv(cfg, s) && c in s.calls && !phase.Binding? && !phase.Accepted?
    requires phase.Consuming? || phase.Recording? ==>
               phase.checkedAtMs <= s.nowMs
               && Timely(ClaimsOf(s.calls[c].input.proof).iat, cfg.tolerance, phase.checkedAtMs)
    ensures ReplayInv(cfg, s.(calls := s.calls[c := Call(s.calls[c].input, phase)]))
  {
  }

  lemma RecordingKeepsReplayInv(cfg: Config, s: Sys, c: nat)
    requires ReplayInv(cfg, s) && c in s.calls && s.calls[c].phase.Recording?
    requires forall e :: e in s.records ==>
               !(s.records[e].jti == ClaimsOf(s.calls[c].input.proof).jti
                 && s.records[e].iat == ClaimsOf(s.calls[c].input.proof).iat)
    requires !R.Alive(s.store, JtiKey(cfg, ClaimsOf(s.calls[c].input.proof).jti), s.nowMs)
    ensures var i := s.calls[c].input;
            var r := Record(ClaimsOf(i.proof).jti, ClaimsOf(i.proof).iat, s.calls[c].phase.checkedAtMs, s.nowMs);
            ReplayInv(cfg, s.(calls := s.calls[c := Call(i, Binding)], records := s.records[c := r],
            store := s.store[JtiKey(cfg, r.jti) := R.Entry(R.Mark, s.nowMs + cfg.jtiTtl * 1000)]))
  {
    forall e | e in s.records
      ensures JtiKey(cfg, s.records[e].jti) == JtiKey(cfg, ClaimsOf(s.calls[c].input.proof).jti)
              <==> s.records[e].jti == ClaimsOf(s.calls[c].input.proof).jti
    {
      JtiKeysDiffer(cfg, s.records[e].jti, ClaimsOf(s.calls[c].input.proof).jti);
    }
  }

  lemma CheckVets(cfg: Config, crypto: Crypto, i: Input, nowMs: int)
    ensures var p := CheckStep(cfg, crypto, i, nowMs);
            && !p.Binding? && !p.Accepted?
            && (p.Consuming? || p.Recording? ==>
                  p.checkedAtMs == nowMs && Timely(ClaimsOf(i.proof).iat, cfg.tolerance, nowMs))
  {
  }

  lemma CheckKeepsReplayInv(cfg: Config, crypto: Crypto, s: Sys, c: nat)
    requires ReplayInv(cfg, s) && Enabled(cfg, None, s, Check(c))
    ensures ReplayInv(cfg, AfterCheck(cfg, crypto, s, c))
  {
    CheckVets(cfg, crypto, s.calls[c].input, s.nowMs);
    RephasingKeepsReplayInv(cfg, s, c, CheckStep(cfg, crypto, s.calls[c].input, s.nowMs));
  }

  lemma BindKeepsReplayInv(cfg: Config, crypto: Crypto, s: Sys, c: nat)
    requires ReplayInv(cfg, s) && Enabled(cfg, None, s, Bind(c))
    ensures ReplayInv(cfg, AfterBind(crypto, s, c))
  {
  }

  // Removing or adding nonce keys leaves the jti records as they are.
  lemma NonceStepKeepsReplayInv(cfg: Config, s: Sys, n: string, store: R.Store)
    requires Separate(cfg.jtiPrefix, cfg.noncePrefix) && ReplayInv(cfg, s)
    requires forall k :: k != NonceKey(cfg, n) && k in s.store ==> k in store && store[k] == s.store[k]
    ensures ReplayInv(cfg, s.(store := store))
  {
    NonceKeysLeaveRecords(cfg, n);
  }

  // The nonce ledgers carry no obligation here.
  lemma LedgersKeepReplayInv(cfg: Config, s: Sys, issues: map<nat, Stamp>, consumptions: map<nat, Stamp>)
    requires ReplayInv(cfg, s)
    ensures ReplayInv(cfg, s.(issues := issues, consumptions := consumptions))
  {
  }

  lemma ConsumeKeepsReplayInv(cfg: Config, s: Sys, c: nat)
    requires Separate(cfg.jtiPrefix, cfg.noncePrefix) && ReplayInv(cfg, s) && Enabled(cfg, None, s, Consume(c))
    ensures ReplayInv(cfg, AfterConsume(cfg, s, c))
  {
    var s' := AfterConsume(cfg, s, c);
    var spent := s.(store := s'.store);
    NonceStepKeepsReplayInv(cfg, s, ClaimsOf(s.calls[c].input.proof).nonce, s'.store);
    RephasingKeepsReplayInv(cfg, spent, c, s'.calls[c].phase);
    LedgersKeepReplayInv(cfg, spent.(calls := s'.calls), s'.issues, s'.consumptions);
  }

  lemma ChallengeKeepsReplayInv(cfg: Config, s: Sys, c: nat, n: string)
    requires Separate(cfg.jtiPrefix, cfg.noncePrefix) && ReplayInv(cfg, s) && Enabled(cfg, None, s, Challenge(c, n))
    ensures ReplayInv(cfg, AfterChallenge(cfg, s, c, n))
  {
    var s' := AfterChallenge(cfg, s, c, n);
    NonceStepKeepsReplayInv(cfg, s, n, s'.store);
    RephasingKeepsReplayInv(cfg, s.(store := s'.store), c, s'.calls[c].phase);
    LedgersKeepReplayInv(cfg, s.(store := s'.store, calls := s'.calls), s'.issues, s'.consumptions);
  }

  lemma ForeignKeepsReplayInv(cfg: Config, s: Sys, key: string, entry: Option<R.Entry>)
    requires ReplayInv(cfg, s) && !(cfg.jtiPrefix <= key)
    ensures ReplayInv(cfg, AfterForeign(s, key, entry))
  {
    assert forall jti :: cfg.jtiPrefix <= JtiKey(cfg, jti);
  }

  lemma StepKeepsReplayInv(cfg: Config, crypto: Crypto, d: nat, s: Sys, e: Event)
    requires Separate(cfg.jtiPrefix, cfg.noncePrefix)
    requires ReplayInv(cfg, s) && LongEnough(cfg, d) && Enabled(cfg, Some(d), s, e)
    ensures ReplayInv(cfg, Next(cfg, crypto, s, e))
  {
    match e
    case Tick(_) =>
    case Begin(_, _) =>
    case Check(c) => CheckKeepsReplayInv(cfg, crypto, s, c);
    case Consume(c) => ConsumeKeepsReplayInv(cfg, s, c);
    case Challenge(c, n) => ChallengeKeepsReplayInv(cfg, s, c, n);
    case Store(c) => StoreKeepsReplayInv(cfg, d, s, c);
    case Bind(c) => BindKeepsReplayInv(cfg, crypto, s, c);
    case Unstored(c, n) => RephasingKeepsReplayInv(cfg, s, c, Rejected(Auth(401, UseDpopNonce, Some(n))));
    case Abort(c) => RephasingKeepsReplayInv(cfg, s, c, Rejected(Plain));
    case Foreign(key, entry) => ForeignKeepsReplayInv(cfg, s, key, entry);
  }

  lemma {:induction false} RunKeepsReplayInv(cfg: Config, crypto: Crypto, d: nat, s: Sys, es: seq<Event>)
    requires Separate(cfg.jtiPrefix, cfg.noncePrefix)
    requires ReplayInv(cfg, s) && LongEnough(cfg, d) && Admissible(cfg, crypto, Some(d), s, es)
    ensures ReplayInv(cfg, Run(cfg, crypto, Some(d), s, es))
    decreases es
  {
    if es != [] {
      StepKeepsReplayInv(cfg, crypto, d, s, es[0]);
      RunKeepsReplayInv(cfg, crypto, d, Next(cfg, crypto, s, es[0]), es[1..]);
    }
  }

  // One proof, that is one jti with one iat, is accepted by at most one call.
  predicate AtMostOnce(s: Sys) {
    forall c, d | c in s.calls && d in s.calls && s.calls[c].phase.Accepted? && s.calls[d].phase.Accepted? ::
      SameProof(s.calls[c].phase.result, s.calls[d].phase.result) ==> c == d
  }

  predicate SameProof(a: Verified, b: Verified) {
    a.jti == b.jti && a.iat == b.iat
  }

  // ---------- The bound is exact ----------

  // A well-formed unbound proof whose iat lies `tolerance` seconds after the epoch.
  function EdgeInput(cfg: Config): Input {
    Input(Proof("dpop+jwt", "ES256", Some(Jwk("x", "y")), true, true,
                ProofClaims(Some("GET"), Some("u"), cfg.tolerance as real, "j", None, "")),
          None, "GET", "u", false, None, false)
  }

  function EdgeResult(cfg: Config, crypto: Crypto): Verified {
    Verified("j", crypto.thumbprint(Jwk("x", "y")), cfg.tolerance as real)
  }

  // One call: check, wait, record, bind.
  function Visit(c: nat, i: Input, wait: nat): seq<Event> {
    Opening(c, i) + ([Tick(wait)] + Closing(c))
  }

  lemma EdgePasses(cfg: Config, crypto: Crypto, nowMs: int)
    requires !cfg.requireNonce && Timely(cfg.tolerance as real, cfg.tolerance, nowMs)
    ensures CheckStep(cfg, crypto, EdgeInput(cfg), nowMs) == Recording(nowMs)
    ensures BindStep(crypto, EdgeInput(cfg)) == Accepted(EdgeResult(cfg, crypto))
  {
  }

  // From the record wait on.
  lemma WaitRuns(cfg: Config, crypto: Crypto, d: nat, s: Sys, c: nat, wait: nat)
    requires c in s.calls && s.calls[c].phase == Recording(s.nowMs) && wait <= d
    requires ClaimsOf(s.calls[c].input.proof).jti != ""
    requires !R.Alive(s.store, JtiKey(cfg, ClaimsOf(s.calls[c].input.proof).jti), s.nowMs + wait)
    ensures Admissible(cfg, crypto, Some(d), s, [Tick(wait)] + Closing(c))
    ensures var s' := Run(cfg, crypto, Some(d), s, [Tick(wait)] + Closing(c));
            var i := s.calls[c].input;
            && s'.nowMs == s.nowMs + wait
            && s'.store == s.store[JtiKey(cfg, ClaimsOf(i.proof).jti) := R.Entry(R.Mark, s'.nowMs + cfg.jtiTtl * 1000)]
            && s'.calls == s.calls[c := Call(i, BindStep(crypto, i))]
  {
    var s1 := s.(nowMs := s.nowMs + wait);
    assert s1 == Next(cfg, crypto, s, Tick(wait));
    ClosingRuns(cfg, crypto, Some(d), s1, c);
    Cons(cfg, crypto, Some(d), s, Tick(wait), Closing(c));
  }

  lemma Overwrites<K, V>(m: map<K, V>, k: K, a: V, b: V)
    ensures m[k := a][k := b] == m[k := b]
  {
  }

  // Once the opening has left the call waiting to record.
  lemma OpenedVisitRuns(cfg: Config, crypto: Crypto, d: nat, s: Sys, c: nat, i: Input, wait: nat)
    requires c !in s.calls && wait <= d && Admissible(cfg, crypto, Some(d), s, Opening(c, i))
    requires Run(cfg, crypto, Some(d), s, Opening(c, i)) == s.(calls := s.calls[c := Call(i, Recording(s.nowMs))])
    requires ClaimsOf(i.proof).jti != "" && !R.Alive(s.store, JtiKey(cfg, ClaimsOf(i.proof).jti), s.nowMs + wait)
    ensures Admissible(cfg, crypto, Some(d), s, Visit(c, i, wait))
    ensures var s' := Run(cfg, crypto, Some(d), s, Visit(c, i, wait));
            && s'.nowMs == s.nowMs + wait
            && s'.store == s.store[JtiKey(cfg, ClaimsOf(i.proof).jti) := R.Entry(R.Mark, s'.nowMs + cfg.jtiTtl * 1000)]
            && s'.calls == s.calls[c := Call(i, BindStep(crypto, i))]
  {
    var s1 := s.(calls := s.calls[c := Call(i, Recording(s.nowMs))]);
    WaitRuns(cfg, crypto, d, s1, c, wait);
    Append(cfg, crypto, Some(d), s, Opening(c, i), [Tick(wait)] + Closing(c));
    Overwrites(s.calls, c, Call(i, Recording(s.nowMs)), Call(i, BindStep(crypto, i)));
  }

  lemma VisitRuns(cfg: Config, crypto: Crypto, d: nat, s: Sys, c: nat, i: Input, wait: nat)
    requires c !in s.calls && wait <= d && CheckStep(cfg, crypto, i, s.nowMs) == Recording(s.nowMs)
    requires ClaimsOf(i.proof).jti != "" && !R.Alive(s.store, JtiKey(cfg, ClaimsOf(i.proof).jti), s.nowMs + wait)
    ensures Admissible(cfg, crypto, Some(d), s, Visit(c, i, wait))
    ensures var s' := Run(cfg, crypto, Some(d), s, Visit(c, i, wait));
            && s'.nowMs == s.nowMs + wait
            && s'.store == s.store[JtiKey(cfg, ClaimsOf(i.proof).jti) := R.Entry(R.Mark, s'.nowMs + cfg.jtiTtl * 1000)]
            && s'.calls == s.calls[c := Call(i, BindStep(crypto, i))]
  {
    OpeningRuns(cfg, crypto, Some(d), s, c, i);
    OpenedVisitRuns(cfg, crypto, d, s, c, i, wait);
  }

  lemma VisitAccepts(cfg: Config, crypto: Crypto, d: nat, s: Sys, c: nat, wait: nat)
    requires !cfg.requireNonce && c !in s.calls && wait <= d
    requires Timely(cfg.tolerance as real, cfg.tolerance, s.nowMs)
    requires !R.Alive(s.store, JtiKey(cfg, "j"), s.nowMs + wait)
    ensures Admissible(cfg, crypto, Some(d), s, Visit(c, EdgeInput(cfg), wait))
    ensures var s' := Run(cfg, crypto, Some(d), s, Visit(c, EdgeInput(cfg), wait));
            && s'.nowMs == s.nowMs + wait
            && s'.store == s.store[JtiKey(cfg, "j") := R.Entry(R.Mark, s'.nowMs + cfg.jtiTtl * 1000)]
            && s'.calls == s.calls[c := Call(EdgeInput(cfg), Accepted(EdgeResult(cfg, crypto)))]
  {
    EdgePasses(cfg, crypto, s.nowMs);
    VisitRuns(cfg, crypto, d, s, c, EdgeInput(cfg), wait);
  }

  // The latest moment, at or before the record's expiry, at which the proof is still timely.
  function EdgeMs(cfg: Config): nat {
    var last := (2 * cfg.tolerance + 1) * 1000 - 1;
    if cfg.jtiTtl * 1000 < last then cfg.jtiTtl * 1000 else last
  }

  function EdgeRun(cfg: Config): seq<Event> {
    Visit(0, EdgeInput(cfg), 0) + ([Tick(EdgeMs(cfg))] + Visit(1, EdgeInput(cfg), cfg.jtiTtl * 1000 - EdgeMs(cfg)))
  }

  lemma EdgeRunAcceptsTwice(cfg: Config, crypto: Crypto, d: nat)
    requires !cfg.requireNonce && !LongEnough(cfg, d)
    ensures Admissible(cfg, crypto, Some(d), Init(0), EdgeRun(cfg))
    ensures !AtMostOnce(Run(cfg, crypto, Some(d), Init(0), EdgeRun(cfg)))
  {
    var first := Visit(0, EdgeInput(cfg), 0);
    var wait := cfg.jtiTtl * 1000 - EdgeMs(cfg);
    var second := Visit(1, EdgeInput(cfg), wait);
    VisitAccepts(cfg, crypto, d, Init(0), 0, 0);
    var s1 := Run(cfg, crypto, Some(d), Init(0), first);
    var s2 := Next(cfg, crypto, s1, Tick(EdgeMs(cfg)));
    assert Seconds(s2.nowMs) <= 2 * cfg.tolerance;
    VisitAccepts(cfg, crypto, d, s2, 1, wait);
    Cons(cfg, crypto, Some(d), s1, Tick(EdgeMs(cfg)), second);
    Append(cfg, crypto, Some(d), Init(0), first, [Tick(EdgeMs(cfg))] + second);
    var s3 := Run(cfg, crypto, Some(d), s2, second);
    assert SameProof(s3.calls[0].phase.result, s3.calls[1].phase.result);
  }

  ghost predicate ReplayFree(cfg: Config, crypto: Crypto, d: nat) {
    forall start: int, es: seq<Event> | Admissible(cfg, crypto, Some(d), Init(start), es) ::
      AtMostOnce(Run(cfg, crypto, Some(d), Init(start), es))
  }

  /** Over every interleaving of any number of calls whose iat check and jti record
      lie at most d ms apart, a proof is accepted at most once when the record
      outlives the whole tolerance window plus that delay. */
  lemma RecordsPreventReplay(cfg: Config, crypto: Crypto, d: nat)
    requires Separate(cfg.jtiPrefix, cfg.noncePrefix) && LongEnough(cfg, d)
    ensures ReplayFree(cfg, crypto, d)
  {
    forall start: int, es: seq<Event> | Admissible(cfg, crypto, Some(d), Init(start), es)
      ensures AtMostOnce(Run(cfg, crypto, Some(d), Init(start), es))
    {
      RunKeepsReplayInv(cfg, crypto, d, Init(start), es);
    }
  }

  /** Without nonces the bound is exact: any shorter record lets some run accept
      one proof twice. */
  lemma ReplayFreeExactly(cfg: Config, crypto: Crypto, d: nat)
    requires Separate(cfg.jtiPrefix, cfg.noncePrefix) && !cfg.requireNonce
    ensures ReplayFree(cfg, crypto, d) <==> cfg.jtiTtl * 1000 >= (2 * cfg.tolerance + 1) * 1000 + d
  {
    if LongEnough(cfg, d) {
      RecordsPreventReplay(cfg, crypto, d);
    } else {
      EdgeRunAcceptsTwice(cfg, crypto, d);
    }
  }

  // The exchange verifier's defaults, a 120 s record for a tolerance of 60 s, fall one second short.
  lemma DefaultsAreOneSecondShort(crypto: Crypto)
    ensures !ReplayFree(Config(EXCHANGE, 120, 60, false, false, NONCE, 300), crypto, 0)
    ensures ReplayFree(Config(EXCHANGE, 121, 60, false, false, NONCE, 300), crypto, 0)
  {
    DeployedPrefixesSeparate(EXCHANGE, NONCE);
    ReplayFreeExactly(Config(EXCHANGE, 120, 60, false, false, NONCE, 300), crypto, 0);
    ReplayFreeExactly(Config(EXCHANGE, 121, 60, false, false, NONCE, 300), crypto, 0);
  }
}
