/** What the token endpoint answers: exactly, for every request, by its fields and what
    it meets outside the handler. */
module BrokerAnswers {
  import opened Wrappers
  import opened Text
  import opened Json
  import opened Dpop
  import opened Tokens
  import opened Broker
  import opened DpopAcceptance
  import K = Keyspace
  import R = Redis

  // The prefixes the broker's Redis keys begin with.
  predicate Apart(cfg: Broker.Config) {
    && K.Separate(cfg.dpop.jtiPrefix, cfg.dpop.noncePrefix)
    && K.Separate(cfg.replayPrefix, cfg.dpop.jtiPrefix) && K.Separate(cfg.replayPrefix, cfg.dpop.noncePrefix)
  }

  // What is wrong with the body: the first fault counts.
  function BodyFault(req: Request): Option<Response> {
    if TextField(req.body, "grant_type") != Some("urn:ietf:params:oauth:grant-type:token-exchange") then
      Some(Refused(400, UnsupportedGrantType))
    else if TextField(req.body, "subject_token").None? || TextField(req.body, "subject_token_type").None?
            || TextField(req.body, "audience").None? || TextField(req.body, "scope").None? then
      Some(Refused(400, InvalidRequest))
    else if TextField(req.body, "subject_token_type").value
            !in ["urn:ietf:params:oauth:token-type:access_token", "urn:ietf:params:oauth:token-type:jwt"] then
      Some(Refused(400, InvalidRequest))
    else if Words(TextField(req.body, "scope").value) == [] then Some(Refused(400, InvalidScope))
    else None
  }

  // The caller shows the id and the secret of a catalog entry.
  predicate Known(env: Env, cfg: Broker.Config, req: Request) {
    var basic := ParseBasicAuth(env, req.authorization);
    && basic.Some? && basic.value.0 in cfg.catalog
    && env.secretHash(basic.value.1) == cfg.catalog[basic.value.0].secretHash
  }

  function Caller(env: Env, cfg: Broker.Config, req: Request): Actor
    requires Known(env, cfg, req)
  {
    cfg.catalog[ParseBasicAuth(env, req.authorization).value.0]
  }

  // The proof is for a POST to this address; it names no access token and is bound to no key.
  predicate Proved(crypto: Crypto, cfg: Broker.Config, req: Request, store: R.Store, w: World) {
    && req.proof.Some?
    && Acceptable(cfg.dpop, crypto, Input(req.proof.value, None, "POST", req.htu, false, None, false), store, w.moments)
  }

  predicate GoodSubject(env: Env, cfg: Broker.Config, req: Request, nowSec: int)
    requires BodyFault(req).None?
  {
    var token := TextField(req.body, "subject_token").value;
    || LiveBrokerToken(env, cfg, token, TextField(req.body, "audience").value, nowSec)
    || (cfg.userIssuer != cfg.issuer && LiveUserToken(env, cfg, token, nowSec))
  }

  // The first thing that keeps a token from being minted for the request, if any.
  function Refusal(env: Env, crypto: Crypto, cfg: Broker.Config, store: R.Store, req: Request, w: World)
      : Option<Response>
  {
    if BodyFault(req).Some? then BodyFault(req)
    else if !Known(env, cfg, req) then Some(Refused(401, InvalidClient))
    else if req.proof.None? then Some(Refused(400, BadProof))
    else if !Proved(crypto, cfg, req, store, w) then Some(Refused(401, BadProof))
    else if !GoodSubject(env, cfg, req, w.validateSec) then Some(Refused(401, BadToken))
    else if TextField(req.body, "audience").value !in Caller(env, cfg, req).audiences then
      Some(Refused(403, InvalidTarget))
    else if exists s | s in Words(TextField(req.body, "scope").value) :: s !in Caller(env, cfg, req).scopes then
      Some(Refused(400, InvalidScope))
    else None
  }

  lemma PrecheckExactly(env: Env, cfg: Broker.Config, req: Request)
    ensures Precheck(env, cfg, req)
            == if BodyFault(req).Some? then BodyFault(req)
               else if !Known(env, cfg, req) then Some(Refused(401, InvalidClient))
               else if req.proof.None? then Some(Refused(400, BadProof))
               else None
  {
  }

  lemma AfterProofExactly(env: Env, cfg: Broker.Config, req: Request, w: World, proved: Verified)
    requires Precheck(env, cfg, req).None? && BodyFault(req).None? && Known(env, cfg, req)
    ensures var r := AfterProof(env, cfg, req, w, proved);
            if !GoodSubject(env, cfg, req, w.validateSec) then r == Result.Failure(Refused(401, BadToken))
            else if TextField(req.body, "audience").value !in Caller(env, cfg, req).audiences then
              r == Result.Failure(Refused(403, InvalidTarget))
            else if exists s | s in Words(TextField(req.body, "scope").value) :: s !in Caller(env, cfg, req).scopes then
              r == Result.Failure(Refused(400, InvalidScope))
            else r.Success? && r.value.scopes == Words(TextField(req.body, "scope").value)
  {
    SubjectExactly(env, cfg, TextField(req.body, "subject_token").value, TextField(req.body, "audience").value,
                   w.validateSec);
  }

  // What the proof verifier leaves under the broker's own keys: all of them.
  lemma ProofLeavesReplays(cfg: Broker.Config, crypto: Crypto, i: Input, store: R.Store, m: Moments, suffix: string)
    requires Apart(cfg)
    ensures var k, s' := cfg.replayPrefix + suffix, Undisturbed(cfg.dpop, crypto, i, store, m).1;
            (k in s' <==> k in store) && (k in store ==> s'[k] == store[k])
  {
    VerdictExactly(cfg.dpop, crypto, i, store, m);
    K.KeysNeverMeet(cfg.replayPrefix, suffix, cfg.dpop.jtiPrefix, ClaimsOf(i.proof).jti);
    K.KeysNeverMeet(cfg.replayPrefix, suffix, cfg.dpop.noncePrefix, ClaimsOf(i.proof).nonce);
    K.KeysNeverMeet(cfg.replayPrefix, suffix, cfg.dpop.noncePrefix, m.challenge);
  }

  lemma ApproveExactly(env: Env, crypto: Crypto, cfg: Broker.Config, store: R.Store, req: Request, w: World)
    requires Apart(cfg)
    ensures var r, refusal := Approve(env, crypto, cfg, store, req, w).0, Refusal(env, crypto, cfg, store, req, w);
            && (refusal.Some? ==> r == Result.Failure(refusal.value))
            && (refusal.None? ==> r.Success? && r.value.scopes == Words(TextField(req.body, "scope").value))
  {
    PrecheckExactly(env, cfg, req);
    if Precheck(env, cfg, req).None? {
      AcceptedExactly(cfg.dpop, crypto, ExchangeInput(req), store, w.moments);
      var verdict := Undisturbed(cfg.dpop, crypto, ExchangeInput(req), store, w.moments).0;
      if verdict.Accepted? {
        AfterProofExactly(env, cfg, req, w, verdict.result);
      }
    }
  }

  // The claim of the fresh jti is on record for its full lifetime.
  predicate Claimed(cfg: Broker.Config, s: R.Store, w: World) {
    && cfg.replayPrefix + w.jti in s
    && s[cfg.replayPrefix + w.jti] == R.Entry(R.Mark, w.claimMs + cfg.replayTtl * 1000)
  }

  // No record of the broker's own changed.
  predicate NothingClaimed(cfg: Broker.Config, s: R.Store, s': R.Store, suffix: string) {
    var k := cfg.replayPrefix + suffix;
    (k in s' <==> k in s) && (k in s ==> s'[k] == s[k])
  }

  lemma ApproveLeavesReplays(env: Env, crypto: Crypto, cfg: Broker.Config, store: R.Store, req: Request, w: World,
                             suffix: string)
    requires Apart(cfg)
    ensures NothingClaimed(cfg, store, Approve(env, crypto, cfg, store, req, w).1, suffix)
  {
    if req.proof.Some? {
      ProofLeavesReplays(cfg, crypto, ExchangeInput(req), store, w.moments, suffix);
    }
  }

  lemma RefusedAnswer(env: Env, crypto: Crypto, cfg: Broker.Config, store: R.Store, req: Request, w: World,
                      suffix: string)
    requires Apart(cfg) && Refusal(env, crypto, cfg, store, req, w).Some?
    ensures var (r, s') := Exchange(env, crypto, cfg, store, req, w);
            r == Refusal(env, crypto, cfg, store, req, w).value && NothingClaimed(cfg, store, s', suffix)
  {
    ApproveExactly(env, crypto, cfg, store, req, w);
    ApproveLeavesReplays(env, crypto, cfg, store, req, w, suffix);
  }

  lemma MintExactly(cfg: Broker.Config, store: R.Store, store1: R.Store, scopes: seq<string>, w: World, suffix: string)
    requires NothingClaimed(cfg, store, store1, suffix) && NothingClaimed(cfg, store, store1, w.jti) && AllWords(scopes)
    ensures var (r, s') := Mint(cfg, store1, scopes, w);
            if !w.keyLoads then r == Refused(500, ServerError) && NothingClaimed(cfg, store, s', suffix)
            else if R.Alive(store, cfg.replayPrefix + w.jti, w.claimMs) then
              r == Refused(401, BadToken) && NothingClaimed(cfg, store, s', suffix)
            else r.Granted? && r.token == w.raw && Claimed(cfg, s', w) && Words(r.scope) == scopes
  {
    WordsJoin(scopes);
  }

  lemma MintedAnswer(env: Env, crypto: Crypto, cfg: Broker.Config, store: R.Store, req: Request, w: World,
                     suffix: string)
    requires Apart(cfg) && Refusal(env, crypto, cfg, store, req, w).None?
    ensures var (r, s') := Exchange(env, crypto, cfg, store, req, w);
            if !w.keyLoads then r == Refused(500, ServerError) && NothingClaimed(cfg, store, s', suffix)
            else if R.Alive(store, cfg.replayPrefix + w.jti, w.claimMs) then
              r == Refused(401, BadToken) && NothingClaimed(cfg, store, s', suffix)
            else
              && r.Granted? && r.token == w.raw && Claimed(cfg, s', w)
              && Words(r.scope) == Words(TextField(req.body, "scope").value)
  {
    ApproveExactly(env, crypto, cfg, store, req, w);
    ApproveLeavesReplays(env, crypto, cfg, store, req, w, suffix);
    ApproveLeavesReplays(env, crypto, cfg, store, req, w, w.jti);
    var scopes := Words(TextField(req.body, "scope").value);
    WordsAreWords(TextField(req.body, "scope").value);
    MintExactly(cfg, store, Approve(env, crypto, cfg, store, req, w).1, scopes, w, suffix);
  }

  /** The answer to every request. Whatever keeps it from being minted for decides the
      refusal, in order; without a signing key it is a server error; with a jti already
      claimed it is refused; and otherwise the token is handed out, with exactly the
      requested scopes. Only then is the jti claimed. */
  lemma AnswerExactly(env: Env, crypto: Crypto, cfg: Broker.Config, store: R.Store, req: Request, w: World,
                      suffix: string)
    requires Apart(cfg)
    ensures var (r, s') := Exchange(env, crypto, cfg, store, req, w);
            var refusal := Refusal(env, crypto, cfg, store, req, w);
            if refusal.Some? then r == refusal.value && NothingClaimed(cfg, store, s', suffix)
            else if !w.keyLoads then r == Refused(500, ServerError) && NothingClaimed(cfg, store, s', suffix)
            else if R.Alive(store, cfg.replayPrefix + w.jti, w.claimMs) then
              r == Refused(401, BadToken) && NothingClaimed(cfg, store, s', suffix)
            else
              && r.Granted? && r.token == w.raw && Claimed(cfg, s', w)
              && Words(r.scope) == Words(TextField(req.body, "scope").value)
  {
    if Refusal(env, crypto, cfg, store, req, w).Some? {
      RefusedAnswer(env, crypto, cfg, store, req, w, suffix);
    } else {
      MintedAnswer(env, crypto, cfg, store, req, w, suffix);
    }
  }

  // Everything a request needs for a token to be minted.
  predicate Mintable(env: Env, crypto: Crypto, cfg: Broker.Config, store: R.Store, req: Request, w: World) {
    && BodyFault(req).None? && Known(env, cfg, req) && Proved(crypto, cfg, req, store, w)
    && GoodSubject(env, cfg, req, w.validateSec)
    && TextField(req.body, "audience").value in Caller(env, cfg, req).audiences
    && (forall s :: s in Words(TextField(req.body, "scope").value) ==> s in Caller(env, cfg, req).scopes)
  }

  lemma RefusalExactly(env: Env, crypto: Crypto, cfg: Broker.Config, store: R.Store, req: Request, w: World)
    ensures Refusal(env, crypto, cfg, store, req, w).None? <==> Mintable(env, crypto, cfg, store, req, w)
  {
  }

  /** When a token is handed out. */
  lemma GrantedExactly(env: Env, crypto: Crypto, cfg: Broker.Config, store: R.Store, req: Request, w: World)
    requires Apart(cfg)
    ensures Exchange(env, crypto, cfg, store, req, w).0.Granted? <==>
              && Mintable(env, crypto, cfg, store, req, w) && w.keyLoads
              && !R.Alive(store, cfg.replayPrefix + w.jti, w.claimMs)
  {
    RefusalExactly(env, crypto, cfg, store, req, w);
    if Refusal(env, crypto, cfg, store, req, w).Some? {
      RefusedAnswer(env, crypto, cfg, store, req, w, "");
      RefusalRefuses(env, crypto, cfg, store, req, w);
    } else {
      MintedAnswer(env, crypto, cfg, store, req, w, "");
    }
  }

  lemma RefusalRefuses(env: Env, crypto: Crypto, cfg: Broker.Config, store: R.Store, req: Request, w: World)
    ensures var refusal := Refusal(env, crypto, cfg, store, req, w); refusal.Some? ==> refusal.value.Refused?
  {
  }
}
