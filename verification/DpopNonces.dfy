/** Nonces are spent, never copied: on every interleaving the ledger of issues
    covers the ledger of consumptions. */
module DpopNonces {
  import opened Wrappers
  import opened Keyspace
  import opened Dpop
  import opened DpopProtocol
  import R = Redis

  function By(m: map<nat, Stamp>, n: string): set<nat> {
    set c | c in m && m[c].nonce == n
  }

  lemma ByGrows(m: map<nat, Stamp>, c: nat, st: Stamp, n: string)
    requires c !in m
    ensures |By(m[c := st], n)| == |By(m, n)| + if st.nonce == n then 1 else 0
  {
    assert By(m[c := st], n) == By(m, n) + if st.nonce == n then {c} else {};
  }

  // Spent or still in the store, each unit of n was issued.
  predicate Balanced(cfg: Config, s: Sys, n: string) {
    |By(s.consumptions, n)| + (if NonceKey(cfg, n) in s.store then 1 else 0) <= |By(s.issues, n)|
  }

  // The consumption fell inside the lifetime of some issue of the same nonce.
  ghost predicate Redeemed(cfg: Config, issues: map<nat, Stamp>, use: Stamp) {
    exists d :: d in issues && issues[d].nonce == use.nonce
                && issues[d].atMs <= use.atMs < issues[d].atMs + cfg.nonceTtl * 1000
  }

  // The record of n in the store, alive or dead, is the one some issue left.
  ghost predicate Sourced(cfg: Config, s: Sys, n: string) {
    NonceKey(cfg, n) in s.store ==>
      exists d :: d in s.issues && s.issues[d].nonce == n && s.issues[d].atMs <= s.nowMs
                  && s.store[NonceKey(cfg, n)].expiresAtMs == s.issues[d].atMs + cfg.nonceTtl * 1000
  }

  // Beyond the nonce step.
  predicate Past(p: Phase) {
    p.Recording? || p.Binding? || p.Accepted?
  }

  // Each call issues at most once and consumes at most once.
  predicate Booked(s: Sys) {
    && (forall c :: c in s.issues ==> c in s.calls && s.calls[c].phase.Rejected?)
    && (forall c :: c in s.consumptions ==>
          c in s.calls && (Past(s.calls[c].phase) || s.calls[c].phase.Rejected?))
  }

  // A call past the nonce step has spent the nonce its proof carries.
  predicate Paid(s: Sys) {
    forall c :: c in s.calls && Past(s.calls[c].phase) ==>
      && c in s.consumptions
      && s.consumptions[c].nonce == ClaimsOf(s.calls[c].input.proof).nonce
  }

  ghost predicate LedgerInv(cfg: Config, s: Sys) {
    && (forall n :: Balanced(cfg, s, n) && Sourced(cfg, s, n))
    && (forall c :: c in s.consumptions ==> Redeemed(cfg, s.issues, s.consumptions[c]))
    && Booked(s)
  }

  lemma DistinctNonceKeys(cfg: Config, m: string, n: string)
    requires NonceKey(cfg, m) == NonceKey(cfg, n)
    ensures m == n
  {
    assert NonceKey(cfg, m)[|cfg.noncePrefix|..] == m;
    assert NonceKey(cfg, n)[|cfg.noncePrefix|..] == n;
  }

  lemma ConsumeKeepsLedger(cfg: Config, s: Sys, c: nat)
    requires LedgerInv(cfg, s) && Enabled(cfg, None, s, Consume(c))
    ensures LedgerInv(cfg, AfterConsume(cfg, s, c))
  {
    var s' := AfterConsume(cfg, s, c);
    var m := ClaimsOf(s.calls[c].input.proof).nonce;
    assert Sourced(cfg, s, m);
    forall n
      ensures Balanced(cfg, s', n) && Sourced(cfg, s', n)
    {
      assert Balanced(cfg, s, n) && Sourced(cfg, s, n);
      ByGrows(s.consumptions, c, Stamp(m, s.nowMs), n);
      if n != m && NonceKey(cfg, m) == NonceKey(cfg, n) {
        DistinctNonceKeys(cfg, m, n);
      }
    }
    if s'.calls[c].phase.Recording? {
      assert Redeemed(cfg, s.issues, Stamp(m, s.nowMs));
    }
  }

  lemma ChallengeKeepsLedger(cfg: Config, s: Sys, c: nat, m: string)
    requires LedgerInv(cfg, s) && Enabled(cfg, None, s, Challenge(c, m))
    ensures LedgerInv(cfg, AfterChallenge(cfg, s, c, m))
  {
    var s' := AfterChallenge(cfg, s, c, m);
    assert c !in s.issues;
    forall n
      ensures Balanced(cfg, s', n) && Sourced(cfg, s', n)
    {
      assert Balanced(cfg, s, n) && Sourced(cfg, s, n);
      ByGrows(s.issues, c, Stamp(m, s.nowMs), n);
      if n != m && NonceKey(cfg, m) == NonceKey(cfg, n) {
        DistinctNonceKeys(cfg, m, n);
      }
      if s'.issues != s.issues && n == m {
        assert s'.issues[c] == Stamp(n, s.nowMs);
      } else {
        KeptIssues(cfg, s, s', n);
      }
    }
    forall d | d in s'.consumptions
      ensures Redeemed(cfg, s'.issues, s'.consumptions[d])
    {
      var e :| e in s.issues && s.issues[e].nonce == s.consumptions[d].nonce
        && s.issues[e].atMs <= s.consumptions[d].atMs < s.issues[e].atMs + cfg.nonceTtl * 1000;
      assert e in s'.issues && s'.issues[e] == s.issues[e];
    }
  }

  // An untouched record keeps its source while issues and clock only grow.
  lemma KeptIssues(cfg: Config, s: Sys, s': Sys, n: string)
    requires Sourced(cfg, s, n) && s.nowMs <= s'.nowMs
    requires forall d :: d in s.issues ==> d in s'.issues && s'.issues[d] == s.issues[d]
    requires NonceKey(cfg, n) in s'.store ==>
               NonceKey(cfg, n) in s.store && s'.store[NonceKey(cfg, n)] == s.store[NonceKey(cfg, n)]
    ensures Sourced(cfg, s', n)
  {
    if NonceKey(cfg, n) in s'.store {
      var d :| d in s.issues && s.issues[d].nonce == n && s.issues[d].atMs <= s.nowMs
        && s.store[NonceKey(cfg, n)].expiresAtMs == s.issues[d].atMs + cfg.nonceTtl * 1000;
      assert d in s'.issues && s'.issues[d] == s.issues[d];
    }
  }

  // The ledger stands while nonce records, issues and consumptions do.
  lemma UntouchedLedger(cfg: Config, s: Sys, s': Sys)
    requires LedgerInv(cfg, s) && s'.issues == s.issues && s'.consumptions == s.consumptions && s.nowMs <= s'.nowMs
    requires forall n :: NonceKey(cfg, n) in s'.store <==> NonceKey(cfg, n) in s.store
    requires forall n :: NonceKey(cfg, n) in s.store ==> s'.store[NonceKey(cfg, n)] == s.store[NonceKey(cfg, n)]
    requires Booked(s')
    ensures LedgerInv(cfg, s')
  {
    forall n
      ensures Balanced(cfg, s', n) && Sourced(cfg, s', n)
    {
      assert Balanced(cfg, s, n) && Sourced(cfg, s, n);
      KeptIssues(cfg, s, s', n);
    }
  }

  lemma StoreKeepsLedger(cfg: Config, s: Sys, c: nat)
    requires Separate(cfg.jtiPrefix, cfg.noncePrefix) && LedgerInv(cfg, s) && Enabled(cfg, None, s, Event.Store(c))
    ensures LedgerInv(cfg, AfterStore(cfg, s, c))
  {
    var jti := ClaimsOf(s.calls[c].input.proof).jti;
    forall n
      ensures JtiKey(cfg, jti) != NonceKey(cfg, n)
    {
      KeysNeverMeet(cfg.jtiPrefix, jti, cfg.noncePrefix, n);
    }
    UntouchedLedger(cfg, s, AfterStore(cfg, s, c));
  }

  lemma ForeignKeepsLedger(cfg: Config, s: Sys, key: string, entry: Option<R.Entry>)
    requires LedgerInv(cfg, s) && !(cfg.noncePrefix <= key)
    ensures LedgerInv(cfg, AfterForeign(s, key, entry))
  {
    assert forall n :: cfg.noncePrefix <= NonceKey(cfg, n);
    UntouchedLedger(cfg, s, AfterForeign(s, key, entry));
  }

  lemma CheckKeepsLedger(cfg: Config, crypto: Crypto, s: Sys, c: nat)
    requires LedgerInv(cfg, s) && Enabled(cfg, None, s, Check(c))
    ensures LedgerInv(cfg, AfterCheck(cfg, crypto, s, c))
  {
    UntouchedLedger(cfg, s, AfterCheck(cfg, crypto, s, c));
  }

  lemma BindKeepsLedger(cfg: Config, crypto: Crypto, s: Sys, c: nat)
    requires LedgerInv(cfg, s) && Enabled(cfg, None, s, Bind(c))
    ensures LedgerInv(cfg, AfterBind(crypto, s, c))
  {
    UntouchedLedger(cfg, s, AfterBind(crypto, s, c));
  }

  lemma QuietStepKeepsLedger(cfg: Config, crypto: Crypto, s: Sys, e: Event)
    requires LedgerInv(cfg, s) && Enabled(cfg, None, s, e) && (e.Tick? || e.Begin? || e.Abort? || e.Unstored?)
    ensures LedgerInv(cfg, Next(cfg, crypto, s, e))
  {
    UntouchedLedger(cfg, s, Next(cfg, crypto, s, e));
  }

  lemma StepKeepsLedger(cfg: Config, crypto: Crypto, s: Sys, e: Event)
    requires Separate(cfg.jtiPrefix, cfg.noncePrefix) && LedgerInv(cfg, s) && Enabled(cfg, None, s, e)
    ensures LedgerInv(cfg, Next(cfg, crypto, s, e))
  {
    match e
    case Check(c) => CheckKeepsLedger(cfg, crypto, s, c);
    case Consume(c) => ConsumeKeepsLedger(cfg, s, c);
    case Challenge(c, n) => ChallengeKeepsLedger(cfg, s, c, n);
    case Store(c) => StoreKeepsLedger(cfg, s, c);
    case Bind(c) => BindKeepsLedger(cfg, crypto, s, c);
    case Foreign(key, entry) => ForeignKeepsLedger(cfg, s, key, entry);
    case _ => QuietStepKeepsLedger(cfg, crypto, s, e);
  }

  lemma {:induction false} RunKeepsLedger(cfg: Config, crypto: Crypto, delay: Option<nat>, s: Sys, es: seq<Event>)
    requires Separate(cfg.jtiPrefix, cfg.noncePrefix)
    requires LedgerInv(cfg, s) && Admissible(cfg, crypto, delay, s, es)
    ensures LedgerInv(cfg, Run(cfg, crypto, delay, s, es))
    decreases es
  {
    if es != [] {
      StepKeepsLedger(cfg, crypto, s, es[0]);
      RunKeepsLedger(cfg, crypto, delay, Next(cfg, crypto, s, es[0]), es[1..]);
    }
  }

  lemma CheckKeepsPaid(cfg: Config, crypto: Crypto, s: Sys, c: nat)
    requires cfg.requireNonce && Paid(s) && Enabled(cfg, None, s, Check(c))
    ensures Paid(AfterCheck(cfg, crypto, s, c))
  {
    var p := CheckStep(cfg, crypto, s.calls[c].input, s.nowMs);
    assert p.Rejected? || p.Consuming? || p.Challenging?;
  }

  lemma StepKeepsPaid(cfg: Config, crypto: Crypto, s: Sys, e: Event)
    requires cfg.requireNonce && Paid(s) && Enabled(cfg, None, s, e)
    ensures Paid(Next(cfg, crypto, s, e))
  {
    match e
    case Check(c) => CheckKeepsPaid(cfg, crypto, s, c);
    case Consume(c) => assert Paid(AfterConsume(cfg, s, c));
    case Store(c) => assert Paid(AfterStore(cfg, s, c));
    case Bind(c) => assert Paid(AfterBind(crypto, s, c));
    case Challenge(c, n) => assert Paid(AfterChallenge(cfg, s, c, n));
    case _ =>
  }

  lemma {:induction false} RunKeepsPaid(cfg: Config, crypto: Crypto, delay: Option<nat>, s: Sys, es: seq<Event>)
    requires cfg.requireNonce && Paid(s) && Admissible(cfg, crypto, delay, s, es)
    ensures Paid(Run(cfg, crypto, delay, s, es))
    decreases es
  {
    if es != [] {
      StepKeepsPaid(cfg, crypto, s, es[0]);
      RunKeepsPaid(cfg, crypto, delay, Next(cfg, crypto, s, es[0]), es[1..]);
    }
  }

  /** Nonces are linear: on every run, with any delay between the steps, successful
      consumptions of n never outnumber successful issues of n, and each one falls
      within the lifetime of an issue. */
  lemma NonceLedger(cfg: Config, crypto: Crypto, delay: Option<nat>, start: int, es: seq<Event>, n: string)
    requires Separate(cfg.jtiPrefix, cfg.noncePrefix) && Admissible(cfg, crypto, delay, Init(start), es)
    ensures var s := Run(cfg, crypto, delay, Init(start), es);
            && |By(s.consumptions, n)| <= |By(s.issues, n)|
            && forall c :: c in s.consumptions ==> Redeemed(cfg, s.issues, s.consumptions[c])
  {
    RunKeepsLedger(cfg, crypto, delay, Init(start), es);
    assert Balanced(cfg, Run(cfg, crypto, delay, Init(start), es), n);
  }

  // The calls that accepted a proof carrying n.
  function AcceptedWith(s: Sys, n: string): set<nat> {
    set c | c in s.calls && s.calls[c].phase.Accepted? && ClaimsOf(s.calls[c].input.proof).nonce == n
  }

  lemma SubsetSize(a: set<nat>, b: set<nat>)
    requires a <= b
    ensures |a| <= |b|
  {
    if a != {} {
      var x :| x in a;
      SubsetSize(a - {x}, b - {x});
    }
  }

  /** Where nonces are required, no more proofs carrying n are accepted than n was
      issued times, whatever the record TTL and the delays. */
  lemma AcceptancesWithinIssues(cfg: Config, crypto: Crypto, delay: Option<nat>, start: int, es: seq<Event>, n: string)
    requires Separate(cfg.jtiPrefix, cfg.noncePrefix) && cfg.requireNonce
    requires Admissible(cfg, crypto, delay, Init(start), es)
    ensures var s := Run(cfg, crypto, delay, Init(start), es); |AcceptedWith(s, n)| <= |By(s.issues, n)|
  {
    var s := Run(cfg, crypto, delay, Init(start), es);
    NonceLedger(cfg, crypto, delay, start, es, n);
    RunKeepsPaid(cfg, crypto, delay, Init(start), es);
    SubsetSize(AcceptedWith(s, n), By(s.consumptions, n));
  }

  // No value is issued twice: 32 random bytes each.
  predicate FreshNonces(s: Sys) {
    forall c, d | c in s.issues && d in s.issues :: s.issues[c].nonce == s.issues[d].nonce ==> c == d
  }

  lemma AtMostOneIssue(m: map<nat, Stamp>, n: string)
    requires forall c, d | c in m && d in m :: m[c].nonce == m[d].nonce ==> c == d
    ensures |By(m, n)| <= 1
  {
    if By(m, n) != {} {
      var c :| c in By(m, n);
      assert By(m, n) == {c};
    }
  }

  /** So with fresh nonces one proof, here any two carrying the same nonce, is
      accepted by at most one call. */
  lemma NoncesPreventReplay(cfg: Config, crypto: Crypto, delay: Option<nat>, start: int, es: seq<Event>, c: nat, d: nat)
    requires Separate(cfg.jtiPrefix, cfg.noncePrefix) && cfg.requireNonce
    requires Admissible(cfg, crypto, delay, Init(start), es)
    requires var s := Run(cfg, crypto, delay, Init(start), es);
             && FreshNonces(s)
             && c in s.calls && s.calls[c].phase.Accepted?
             && d in s.calls && s.calls[d].phase.Accepted?
             && ClaimsOf(s.calls[c].input.proof).nonce == ClaimsOf(s.calls[d].input.proof).nonce
    ensures c == d
  {
    var s := Run(cfg, crypto, delay, Init(start), es);
    RunKeepsPaid(cfg, crypto, delay, Init(start), es);
    var n := ClaimsOf(s.calls[c].input.proof).nonce;
    AcceptancesWithinIssues(cfg, crypto, delay, start, es, n);
    AtMostOneIssue(s.issues, n);
    assert |{c, d}| == if c == d then 1 else 2;
    SubsetSize({c, d}, AcceptedWith(s, n));
  }

  // The receiving service, as deployed on the shared Redis, whatever its record TTL.
  lemma DeployedReceiverAcceptsOnce(crypto: Crypto, jtiTtl: nat, start: int, es: seq<Event>, c: nat, d: nat)
    requires var cfg := Config(JTI, jtiTtl, 60, true, true, RECEIVER_NONCE, 300);
             && Admissible(cfg, crypto, None, Init(start), es)
             && var s := Run(cfg, crypto, None, Init(start), es);
             && FreshNonces(s)
             && c in s.calls && s.calls[c].phase.Accepted? && d in s.calls && s.calls[d].phase.Accepted?
             && s.calls[c].input.proof == s.calls[d].input.proof
    ensures c == d
  {
    DeployedPrefixesSeparate(JTI, RECEIVER_NONCE);
    NoncesPreventReplay(Config(JTI, jtiTtl, 60, true, true, RECEIVER_NONCE, 300), crypto, None, start, es, c, d);
  }
}
