/** The receiving service's admission check, and what it implies together with the
    broker's runs. */
module Receiver {
  import opened Wrappers
  import opened Json
  import opened Text
  import opened ActorChain
  import opened Dpop
  import opened Tokens
  import Broker
  import opened BrokerRuns
  import opened DpopAcceptance
  import opened Keyspace
  import P = DpopProtocol
  import Authorize
  import R = Redis

  const MAX_ACTOR_CHAIN_DEPTH := 5

  datatype Config = Config(issuer: string, audience: string, dpop: Dpop.Config)

  // The bearer token is what the Authorization header yields, if it is well-formed.
  datatype Request = Request(bearer: Option<string>, proof: Option<Proof>, htm: string, htu: string,
                             action: string, resource: string)

  datatype Query = Query(principal: string, action: string, resource: string, token: string, scopes: seq<string>,
                         roles: seq<string>, groups: seq<string>, actorChain: seq<string>)

  datatype Decision = Allow | Deny | Throws

  datatype Auth = Auth(sub: string, scopes: seq<string>, roles: seq<string>, groups: seq<string>, chain: Chain,
                       token: string)

  datatype Admission = Next(auth: Auth) | Sent(status: nat, code: Code, nonce: Option<string>)

  function ProofInput(req: Request, jkt: Option<string>): Input
    requires req.bearer.Some? && req.proof.Some?
  {
    Input(req.proof.value, req.bearer, req.htm, req.htu, true, jkt, true)
  }

  function SentFor(f: Failure): Admission {
    match f
    case Auth(status, code, nonce) => Sent(status, code, nonce)
    case Plain => Sent(401, InvalidToken, None)
  }

  function QueryFor(req: Request, v: ValidatedToken, chain: Chain): Query
    requires req.bearer.Some?
  {
    Query("ServicePrincipal::" + v.sub, req.action, req.resource, req.bearer.value, v.scope,
          OnlyStrings(Field(v.raw, "roles")), OnlyStrings(Field(v.raw, "groups")), Reverse(Subs(Some(chain))))
  }

  // The checks after a successful proof.
  function Decide(req: Request, v: ValidatedToken, decide: Query -> Decision): Admission
    requires req.bearer.Some?
  {
    var chain := ExtractActorChain(v.raw);
    if chain.None? then Sent(401, InvalidToken, None)
    else if |Subs(chain)| > MAX_ACTOR_CHAIN_DEPTH then Sent(401, InvalidToken, None)
    else
      match decide(QueryFor(req, v, chain.value))
      case Throws => Sent(401, InvalidToken, None)
      case Deny => Sent(403, AuthorizationDenied, None)
      case Allow => Next(Auth.Auth(v.sub, v.scope, OnlyStrings(Field(v.raw, "roles")),
                                   OnlyStrings(Field(v.raw, "groups")), chain.value, req.bearer.value))
  }

  // What the verifier's verdict comes to.
  function Conclude(req: Request, v: ValidatedToken, verdict: Phase, decide: Query -> Decision): Admission
    requires req.bearer.Some?
  {
    match verdict
    case Accepted(_) => Decide(req, v, decide)
    case Rejected(f) => SentFor(f)
    case _ => SentFor(Plain)
  }

  function Admit(env: Env, crypto: Crypto, cfg: Config, store: R.Store, req: Request, nowSec: int, m: Moments,
                 decide: Query -> Decision): (Admission, R.Store)
  {
    if req.bearer.None? then (Sent(401, InvalidToken, None), store)
    else
      match ValidateToken(env, Signer.Broker, cfg.issuer, cfg.audience, req.bearer.value, nowSec)
      case Failure(code) => (Sent(401, code, None), store)
      case Success(v) =>
        if req.proof.None? then (Sent(401, InvalidDpopProof, None), store)
        else
          var (verdict, store1) := Undisturbed(cfg.dpop, crypto, ProofInput(req, v.jkt), store, m);
          (Conclude(req, v, verdict, decide), store1)
  }

  // The same beside other calls: the verdict is the one call c of the protocol has reached.
  function AdmitBeside(env: Env, cfg: Config, u: P.Sys, c: nat, req: Request, nowSec: int, decide: Query -> Decision)
      : Admission
    requires c in u.calls
  {
    if req.bearer.None? then Sent(401, InvalidToken, None)
    else
      match ValidateToken(env, Signer.Broker, cfg.issuer, cfg.audience, req.bearer.value, nowSec)
      case Failure(code) => Sent(401, code, None)
      case Success(v) =>
        if req.proof.None? then Sent(401, InvalidDpopProof, None)
        else Conclude(req, v, u.calls[c].phase, decide)
  }

  class Middleware {
    const env: Env
    const cfg: Config
    const proofs: Verifier

    ghost predicate Valid() {
      proofs.Valid() && proofs.cfg == cfg.dpop
    }

    constructor (env: Env, cfg: Config, crypto: Crypto, redis: R.Server)
      ensures Valid() && this.env == env && this.cfg == cfg
      ensures proofs.crypto == crypto && proofs.redis == redis
    {
      this.env, this.cfg := env, cfg;
      proofs := new Verifier(cfg.dpop, crypto, redis);
    }

    method BrokerAuth(req: Request, nowSec: int, m: Moments, decide: Query -> Decision) returns (r: Admission)
      requires Valid()
      modifies proofs.redis
      ensures (r, proofs.redis.data) == Admit(env, proofs.crypto, cfg, old(proofs.redis.data), req, nowSec, m, decide)
    {
      if req.bearer.None? {
        return Sent(401, InvalidToken, None);
      }
      var validated := ValidateToken(env, Signer.Broker, cfg.issuer, cfg.audience, req.bearer.value, nowSec);
      if validated.Failure? {
        return Sent(401, validated.error, None);
      }
      var v := validated.value;
      if req.proof.None? {
        return Sent(401, InvalidDpopProof, None);
      }
      var proved := proofs.Verify(ProofInput(req, v.jkt), m);
      if proved.Failure? {
        return SentFor(proved.error);
      }
      var actorChain := ExtractActorChain(v.raw);
      if actorChain.None? {
        return Sent(401, InvalidToken, None);
      }
      var depth := ChainDepth(actorChain);
      if depth > MAX_ACTOR_CHAIN_DEPTH {
        return Sent(401, InvalidToken, None);
      }
      var names := ActorChainAsString(actorChain);
      var roles, groups := OnlyStrings(Field(v.raw, "roles")), OnlyStrings(Field(v.raw, "groups"));
      var decision := decide(Query("ServicePrincipal::" + v.sub, req.action, req.resource, req.bearer.value, v.scope,
                                   roles, groups, names));
      if decision.Throws? {
        return Sent(401, InvalidToken, None);
      }
      if !decision.Allow? {
        return Sent(403, AuthorizationDenied, None);
      }
      return Next(Auth.Auth(v.sub, v.scope, roles, groups, actorChain.value, req.bearer.value));
    }
  }

  // ---------- Who is admitted ----------

  // What the token is refused for, if anything.
  function TokenFault(env: Env, cfg: Config, token: string, nowSec: int): Option<Code> {
    var fault := Fault(env, Signer.Broker, token, nowSec);
    if fault.Some? then fault
    else
      var c := env.decode(token).value.claims;
      if TextOf(env, Field(c, "aud")) != cfg.audience then Some(InvalidAudience)
      else if TextOf(env, Field(c, "iss")) != cfg.issuer then Some(InvalidToken)
      else None
  }

  // The key the claims name.
  function KeyNamed(c: Claims): Option<string> {
    match Field(c, "cnf")
    case Some(Obj(m)) => (match Field(m, "jkt") case Some(Str(k)) => Some(k) case _ => None)
    case _ => None
  }

  // What the engine is asked about a request with these claims.
  function QueryOf(env: Env, req: Request, c: Claims, chain: Chain): Query
    requires req.bearer.Some?
  {
    var scope := TextOf(env, Field(c, "scope"));
    Query("ServicePrincipal::" + TextOf(env, Field(c, "sub")), req.action, req.resource, req.bearer.value,
          if scope == "" then [] else Split(scope, ' '),
          if "roles" in c && c["roles"].Arr? then Strings(c["roles"].a) else [],
          if "groups" in c && c["groups"].Arr? then Strings(c["groups"].a) else [], Reverse(Subs(Some(chain))))
  }

  // The answer once the proof is accepted: one to five actors, and an ALLOW.
  predicate DecidedAs(env: Env, req: Request, c: Claims, decide: Query -> Decision, r: Admission)
    requires req.bearer.Some?
  {
    var chain := PreviousChain(c);
    if chain.None? || |Subs(chain)| > 5 then r == Sent(401, InvalidToken, None)
    else
      var q := QueryOf(env, req, c, chain.value);
      match decide(q)
      case Throws => r == Sent(401, InvalidToken, None)
      case Deny => r == Sent(403, AuthorizationDenied, None)
      case Allow =>
        r == Next(Auth.Auth(TextOf(env, Field(c, "sub")), q.scopes, q.roles, q.groups, chain.value, q.token))
  }

  lemma DecideExactly(env: Env, req: Request, v: ValidatedToken, decide: Query -> Decision)
    requires req.bearer.Some? && v.sub == TextOf(env, Field(v.raw, "sub"))
    requires v.scope == var s := TextOf(env, Field(v.raw, "scope")); if s == "" then [] else Split(s, ' ')
    ensures DecidedAs(env, req, v.raw, decide, Decide(req, v, decide))
  {
    ReadersAgree(v.raw);
  }

  // The answer to a proof that is not acceptable: the request's own fault, or a fresh
  // nonce for a missing or dead one, or the jti, or the key.
  function RefusedAs(crypto: Crypto, cfg: Config, i: Input, store: R.Store, m: Moments): Admission {
    var fault := RequestFault(cfg.dpop, crypto, i, m.checkMs);
    if fault.Some? then Sent(401, if fault.value.Auth? then fault.value.code else InvalidToken, None)
    else if Unpaid(cfg.dpop, i, store, m.consumeMs) then Sent(401, UseDpopNonce, Some(m.challenge))
    else if i.proof.claims.jti == "" then Sent(401, InvalidDpopProof, None)
    else if R.Alive(store, JtiKey(cfg.dpop, i.proof.claims.jti), m.recordMs) then Sent(401, DpopNonceReuse, None)
    else Sent(401, DpopKeyMismatch, None)
  }

  // What the verdict on the proof comes to, against the key that the token names.
  predicate AdmittedAs(env: Env, crypto: Crypto, cfg: Config, store: R.Store, req: Request, c: Claims, m: Moments,
                       decide: Query -> Decision, r: Admission)
    requires req.bearer.Some? && req.proof.Some?
  {
    var i := Input(req.proof.value, req.bearer, req.htm, req.htu, true, KeyNamed(c), true);
    if Acceptable(cfg.dpop, crypto, i, store, m) then DecidedAs(env, req, c, decide, r)
    else r == RefusedAs(crypto, cfg, i, store, m)
  }

  // A refusal passes its code and its nonce on.
  lemma RefusalExactly(crypto: Crypto, cfg: Config, i: Input, store: R.Store, m: Moments)
    requires Separate(cfg.dpop.jtiPrefix, cfg.dpop.noncePrefix)
    ensures var verdict := Undisturbed(cfg.dpop, crypto, i, store, m).0;
            && (verdict.Accepted? <==> Acceptable(cfg.dpop, crypto, i, store, m))
            && (!verdict.Accepted? ==>
                  verdict.Rejected? && SentFor(verdict.failure) == RefusedAs(crypto, cfg, i, store, m))
  {
    VerdictExactly(cfg.dpop, crypto, i, store, m);
    AcceptedExactly(cfg.dpop, crypto, i, store, m);
  }

  lemma ConcludeExactly(env: Env, crypto: Crypto, cfg: Config, store: R.Store, req: Request, v: ValidatedToken,
                        m: Moments, decide: Query -> Decision)
    requires Separate(cfg.dpop.jtiPrefix, cfg.dpop.noncePrefix) && req.bearer.Some? && req.proof.Some?
    requires v.jkt == KeyNamed(v.raw) && v.sub == TextOf(env, Field(v.raw, "sub"))
    requires v.scope == var s := TextOf(env, Field(v.raw, "scope")); if s == "" then [] else Split(s, ' ')
    ensures var verdict := Undisturbed(cfg.dpop, crypto, ProofInput(req, v.jkt), store, m).0;
            AdmittedAs(env, crypto, cfg, store, req, v.raw, m, decide, Conclude(req, v, verdict, decide))
  {
    DecideExactly(env, req, v, decide);
    RefusalExactly(crypto, cfg, ProofInput(req, v.jkt), store, m);
  }

  lemma TokenExactly(env: Env, cfg: Config, token: string, nowSec: int)
    ensures var r := ValidateToken(env, Signer.Broker, cfg.issuer, cfg.audience, token, nowSec);
            if TokenFault(env, cfg, token, nowSec).Some? then
              r == Result.Failure(TokenFault(env, cfg, token, nowSec).value)
            else
              && r.Success? && r.value.raw == env.decode(token).value.claims
              && r.value.jkt == KeyNamed(r.value.raw) && r.value.sub == TextOf(env, Field(r.value.raw, "sub"))
              && r.value.scope
                 == var s := TextOf(env, Field(r.value.raw, "scope")); if s == "" then [] else Split(s, ' ')
  {
    ValidateTokenExactly(env, Signer.Broker, cfg.issuer, cfg.audience, token, nowSec);
  }

  /** The verdict on every request: no token, a token at fault, or no proof is a 401 with
      its code; a proof that is refused passes its code and its nonce on; and then chain
      and decision count. */
  lemma AdmissionExactly(env: Env, crypto: Crypto, cfg: Config, store: R.Store, req: Request, nowSec: int, m: Moments,
                         decide: Query -> Decision)
    requires Separate(cfg.dpop.jtiPrefix, cfg.dpop.noncePrefix)
    ensures var r := Admit(env, crypto, cfg, store, req, nowSec, m, decide).0;
            if req.bearer.None? then r == Sent(401, InvalidToken, None)
            else if TokenFault(env, cfg, req.bearer.value, nowSec).Some? then
              r == Sent(401, TokenFault(env, cfg, req.bearer.value, nowSec).value, None)
            else if req.proof.None? then r == Sent(401, InvalidDpopProof, None)
            else AdmittedAs(env, crypto, cfg, store, req, env.decode(req.bearer.value).value.claims, m, decide, r)
  {
    if req.bearer.Some? {
      TokenExactly(env, cfg, req.bearer.value, nowSec);
      var v := ValidateToken(env, Signer.Broker, cfg.issuer, cfg.audience, req.bearer.value, nowSec);
      if v.Success? && req.proof.Some? {
        ConcludeExactly(env, crypto, cfg, store, req, v.value, m, decide);
      }
    }
  }

  /** Who gets through. */
  lemma AdmittedExactly(env: Env, crypto: Crypto, cfg: Config, store: R.Store, req: Request, nowSec: int, m: Moments,
                        decide: Query -> Decision)
    requires Separate(cfg.dpop.jtiPrefix, cfg.dpop.noncePrefix)
    ensures Admit(env, crypto, cfg, store, req, nowSec, m, decide).0.Next? <==>
              && req.bearer.Some? && req.proof.Some? && TokenFault(env, cfg, req.bearer.value, nowSec).None?
              && var c := env.decode(req.bearer.value).value.claims;
              && Acceptable(cfg.dpop, crypto, ProofInput(req, KeyNamed(c)), store, m)
              && PreviousChain(c).Some? && |Subs(PreviousChain(c))| <= 5
              && decide(QueryOf(env, req, c, PreviousChain(c).value)) == Allow
  {
    AdmissionExactly(env, crypto, cfg, store, req, nowSec, m, decide);
  }

  // ---------- End to end ----------

  /** The proof is signed under its own key, for this token, method and address, and was
      made within the tolerance of the check. */
  predicate Proven(crypto: Crypto, cfg: Config, req: Request, checkMs: int) {
    && req.bearer.Some? && req.proof.Some? && req.proof.value.Proof? && req.proof.value.jwk.Some?
    && req.proof.value.verifies
    && var claims := req.proof.value.claims;
    && claims.ath == Some(crypto.sha256(req.bearer.value))
    && claims.htm == Some(req.htm) && claims.htu == Some(req.htu)
    && Timely(claims.iat, cfg.dpop.tolerance, checkMs)
  }

  // The token is valid here, the proof is by the key it names, and the decision is to go on.
  predicate LetThrough(env: Env, crypto: Crypto, cfg: Config, req: Request, nowSec: int, checkMs: int,
                       decide: Query -> Decision, auth: Auth)
  {
    && Proven(crypto, cfg, req, checkMs)
    && var v := ValidateToken(env, Signer.Broker, cfg.issuer, cfg.audience, req.bearer.value, nowSec);
    && v.Success?
    && v.value.jkt == Some(crypto.thumbprint(req.proof.value.jwk.value))
    && Decide(req, v.value, decide) == Next(auth)
  }

  lemma AdmittedMeans(env: Env, crypto: Crypto, cfg: Config, store: R.Store, req: Request, nowSec: int, m: Moments,
                      decide: Query -> Decision)
    requires Admit(env, crypto, cfg, store, req, nowSec, m, decide).0.Next?
    ensures LetThrough(env, crypto, cfg, req, nowSec, m.checkMs, decide,
                       Admit(env, crypto, cfg, store, req, nowSec, m, decide).0.auth)
  {
    var v := ValidateToken(env, Signer.Broker, cfg.issuer, cfg.audience, req.bearer.value, nowSec).value;
    KeyBound(crypto, cfg, req, v.jkt, store, m);
  }

  lemma KeyBound(crypto: Crypto, cfg: Config, req: Request, jkt: Option<string>, store: R.Store, m: Moments)
    requires req.bearer.Some? && req.proof.Some?
    requires Undisturbed(cfg.dpop, crypto, ProofInput(req, jkt), store, m).0.Accepted?
    ensures Proven(crypto, cfg, req, m.checkMs) && jkt == Some(crypto.thumbprint(req.proof.value.jwk.value))
  {
    AcceptedMeans(cfg.dpop, crypto, ProofInput(req, jkt), store, m);
  }

  // The verifier call was made for this request and this token.
  predicate CalledFor(env: Env, cfg: Config, u: P.Sys, c: nat, req: Request, nowSec: int) {
    && c in u.calls && req.bearer.Some? && req.proof.Some?
    && var v := ValidateToken(env, Signer.Broker, cfg.issuer, cfg.audience, req.bearer.value, nowSec);
    v.Success? ==> u.calls[c].input == ProofInput(req, v.value.jkt)
  }

  lemma AdmittedBesideMeans(env: Env, crypto: Crypto, cfg: Config, delay: Option<nat>, s: P.Sys, ps: seq<P.Event>,
                            c: nat, req: Request, nowSec: int, decide: Query -> Decision)
    requires s.calls == map[] && P.Admissible(cfg.dpop, crypto, delay, s, ps)
    requires CalledFor(env, cfg, P.Run(cfg.dpop, crypto, delay, s, ps), c, req, nowSec)
    requires AdmitBeside(env, cfg, P.Run(cfg.dpop, crypto, delay, s, ps), c, req, nowSec, decide).Next?
    ensures var u := P.Run(cfg.dpop, crypto, delay, s, ps);
            && c in u.records
            && LetThrough(env, crypto, cfg, req, nowSec, u.records[c].checkedAtMs, decide,
                          AdmitBeside(env, cfg, u, c, req, nowSec, decide).auth)
  {
    AcceptedOnRun(cfg.dpop, crypto, delay, s, ps, c);
  }

  // Reading a vouched token gives back its lineage.
  lemma ValidatedMeans(env: Env, crypto: Crypto, broker: Broker.Config, cfg: Config, raw: string,
                       l: Lineage, nowSec: int)
    requires broker.issuer == cfg.issuer && Vouched(env, crypto, broker, raw, l)
    requires ValidateToken(env, Signer.Broker, cfg.issuer, cfg.audience, raw, nowSec).Success?
    ensures var v := ValidateToken(env, Signer.Broker, cfg.issuer, cfg.audience, raw, nowSec).value;
            var root := Principal(l);
            && l.audience == cfg.audience && nowSec < l.world.mintSec + broker.ttlSeconds
            && v.jkt == Some(crypto.thumbprint(l.request.proof.value.jwk.value))
            && v.sub == root.sub && v.scope == l.scopes && Tells(env, l, v.raw)
  {
    VouchedTells(env, crypto, broker, raw, l);
  }

  // What the engine is asked about a token with this lineage.
  function LineageQuery(req: Request, l: Lineage): Query
    requires req.bearer.Some? && l.Hop?
  {
    var root := Principal(l);
    Query("ServicePrincipal::" + root.sub, req.action, req.resource, req.bearer.value, l.scopes, root.roles,
          root.groups, Actors(l))
  }

  // The request goes through with the identity, chain and scopes of the lineage.
  predicate Admitted(env: Env, broker: Broker.Config, req: Request, l: Lineage, auth: Auth, decide: Query -> Decision)
    requires req.bearer.Some? && l.Hop?
  {
    var root := Principal(l);
    && 1 <= |Actors(l)| <= 5
    && decide(LineageQuery(req, l)) == Allow
    && auth == Auth.Auth(root.sub, l.scopes, root.roles, root.groups, auth.chain, req.bearer.value)
    && Reverse(Subs(Some(auth.chain))) == Actors(l)
  }

  lemma DecisionMeans(env: Env, broker: Broker.Config, req: Request, l: Lineage, v: ValidatedToken,
                      decide: Query -> Decision)
    requires l.Hop? && req.bearer.Some? && Tells(env, l, v.raw)
    requires v.sub == Principal(l).sub && v.scope == l.scopes
    requires Decide(req, v, decide).Next?
    ensures Admitted(env, broker, req, l, Decide(req, v, decide).auth, decide)
  {
    assert Actors(l) == Actors(l.previous) + [l.actor];
  }

  // The token's lineage answers for the request, and the request proves its last hop's key.
  predicate Answers(env: Env, crypto: Crypto, broker: Broker.Config, cfg: Config, req: Request, nowSec: int,
                    checkMs: int, decide: Query -> Decision, auth: Auth, l: Lineage)
  {
    && l.Hop? && WellGrown(env, crypto, broker, l)
    && Proven(crypto, cfg, req, checkMs)
    && crypto.thumbprint(req.proof.value.jwk.value) == crypto.thumbprint(l.request.proof.value.jwk.value)
    && l.audience == cfg.audience && nowSec < l.world.mintSec + broker.ttlSeconds
    && Admitted(env, broker, req, l, auth, decide)
  }

  lemma LineageAnswers(env: Env, crypto: Crypto, broker: Broker.Config, l: Lineage, cfg: Config, req: Request,
                       nowSec: int, checkMs: int, decide: Query -> Decision, auth: Auth)
    requires LetThrough(env, crypto, cfg, req, nowSec, checkMs, decide, auth)
    requires broker.issuer == cfg.issuer && Vouched(env, crypto, broker, req.bearer.value, l)
    ensures Answers(env, crypto, broker, cfg, req, nowSec, checkMs, decide, auth, l)
  {
    ValidatedMeans(env, crypto, broker, cfg, req.bearer.value, l, nowSec);
    DecisionMeans(env, broker, req, l,
                  ValidateToken(env, Signer.Broker, cfg.issuer, cfg.audience, req.bearer.value, nowSec).value, decide);
  }

  lemma DatedHasNoFault(env: Env, cfg: Config, raw: string, c: Claims, mintSec: int, expSec: int, nowSec: int)
    requires env.decode(raw) == Some(Jwt(Signer.Broker, c)) && Dated(c, mintSec, expSec) && nowSec < expSec
    requires Field(c, "aud") == Some(Str(cfg.audience)) && Field(c, "iss") == Some(Str(cfg.issuer))
    ensures TokenFault(env, cfg, raw, nowSec).None?
  {
  }

  lemma KeyNamedExactly(c: Claims)
    ensures KeyNamed(c) == ConfirmedKey(c)
  {
  }

  lemma ReflectedKey(env: Env, crypto: Crypto, broker: Broker.Config, l: Lineage, c: Claims)
    requires l.Hop? && Reflects(env, crypto, broker, l, c)
    ensures KeyNamed(c) == Some(crypto.thumbprint(l.request.proof.value.jwk.value))
    ensures Dated(c, l.world.mintSec, l.world.mintSec + broker.ttlSeconds)
    ensures Field(c, "aud") == Some(Str(l.audience)) && Field(c, "iss") == Some(Str(broker.issuer))
  {
    KeyNamedExactly(c);
  }

  lemma ReflectedInTime(env: Env, crypto: Crypto, broker: Broker.Config, l: Lineage, cfg: Config, raw: string,
                        c: Claims, nowSec: int)
    requires env.decode(raw) == Some(Jwt(Signer.Broker, c)) && l.Hop? && Reflects(env, crypto, broker, l, c)
    requires broker.issuer == cfg.issuer && l.audience == cfg.audience && nowSec < l.world.mintSec + broker.ttlSeconds
    ensures TokenFault(env, cfg, raw, nowSec).None?
    ensures KeyNamed(c) == Some(crypto.thumbprint(l.request.proof.value.jwk.value))
  {
    ReflectedKey(env, crypto, broker, l, c);
    DatedHasNoFault(env, cfg, raw, c, l.world.mintSec, l.world.mintSec + broker.ttlSeconds, nowSec);
  }

  // A token without a fault, under an acceptable proof by its key, is up to the decision.
  lemma ProvenIsDecided(env: Env, crypto: Crypto, cfg: Config, store: R.Store, req: Request, nowSec: int, m: Moments,
                        decide: Query -> Decision)
    requires Separate(cfg.dpop.jtiPrefix, cfg.dpop.noncePrefix) && req.bearer.Some? && req.proof.Some?
    requires TokenFault(env, cfg, req.bearer.value, nowSec).None?
    requires var key := KeyNamed(env.decode(req.bearer.value).value.claims);
             Acceptable(cfg.dpop, crypto, ProofInput(req, key), store, m)
    ensures DecidedAs(env, req, env.decode(req.bearer.value).value.claims, decide,
                      Admit(env, crypto, cfg, store, req, nowSec, m, decide).0)
  {
    AdmissionExactly(env, crypto, cfg, store, req, nowSec, m, decide);
  }

  lemma VouchedAsks(env: Env, crypto: Crypto, broker: Broker.Config, l: Lineage, req: Request)
    requires req.bearer.Some? && Vouched(env, crypto, broker, req.bearer.value, l)
    ensures var c := env.decode(req.bearer.value).value.claims;
            && PreviousChain(c).Some? && |Subs(PreviousChain(c))| == |Actors(l)|
            && Reverse(Subs(PreviousChain(c))) == Actors(l)
            && QueryOf(env, req, c, PreviousChain(c).value) == LineageQuery(req, l)
            && TextOf(env, Field(c, "sub")) == Principal(l).sub
  {
    ChainListsActors(l);
  }

  // The decision for a token with this lineage.
  lemma AllowedLineageIsAdmitted(env: Env, broker: Broker.Config, l: Lineage, req: Request, c: Claims,
                                 decide: Query -> Decision, r: Admission)
    requires req.bearer.Some? && l.Hop? && DecidedAs(env, req, c, decide, r)
    requires PreviousChain(c).Some? && |Subs(PreviousChain(c))| == |Actors(l)| <= 5
    requires Reverse(Subs(PreviousChain(c))) == Actors(l)
    requires QueryOf(env, req, c, PreviousChain(c).value) == LineageQuery(req, l)
    requires TextOf(env, Field(c, "sub")) == Principal(l).sub && decide(LineageQuery(req, l)) == Allow
    ensures r.Next? && Admitted(env, broker, req, l, r.auth, decide)
  {
  }

  /** End to end, the other way round: a token with a lineage of up to five actors, before
      its expiry and at its audience, gets through under an acceptable proof by its last
      hop's key if the engine allows it, with the identity, chain and scopes of that lineage. */
  lemma VouchedIsAdmitted(env: Env, crypto: Crypto, broker: Broker.Config, l: Lineage, cfg: Config, store: R.Store,
                          req: Request, nowSec: int, m: Moments, decide: Query -> Decision)
    requires Separate(cfg.dpop.jtiPrefix, cfg.dpop.noncePrefix) && broker.issuer == cfg.issuer
    requires req.bearer.Some? && req.proof.Some? && Vouched(env, crypto, broker, req.bearer.value, l)
    requires l.audience == cfg.audience && nowSec < l.world.mintSec + broker.ttlSeconds && |Actors(l)| <= 5
    requires var key := crypto.thumbprint(l.request.proof.value.jwk.value);
             Acceptable(cfg.dpop, crypto, ProofInput(req, Some(key)), store, m)
    requires decide(LineageQuery(req, l)) == Allow
    ensures var r := Admit(env, crypto, cfg, store, req, nowSec, m, decide).0;
            r.Next? && Admitted(env, broker, req, l, r.auth, decide)
  {
    var c := env.decode(req.bearer.value).value.claims;
    ReflectedInTime(env, crypto, broker, l, cfg, req.bearer.value, c, nowSec);
    VouchedAsks(env, crypto, broker, l, req);
    ProvenIsDecided(env, crypto, cfg, store, req, nowSec, m, decide);
    var r := Admit(env, crypto, cfg, store, req, nowSec, m, decide).0;
    AllowedLineageIsAdmitted(env, broker, l, req, c, decide, r);
  }

  /** If the receiver lets a request through, on any run of the broker, its token is one
      the broker minted, to an actor who proved the very key this request proves; it
      names this audience and issuer, has not expired, carries between one and five
      actors, and was allowed with the identity, chain and scopes of its lineage. */
  lemma AdmissionIsSound(env: Env, crypto: Crypto, broker: Broker.Config, es: seq<Event>, cfg: Config, req: Request,
                         nowSec: int, checkMs: int, decide: Query -> Decision, auth: Auth)
    requires broker.issuer == cfg.issuer
    requires GenuineRun(env, crypto, broker, map[], es)
    requires req.bearer.Some? && Unforged(env, Run(map[], es), req.bearer.value)
    requires LetThrough(env, crypto, cfg, req, nowSec, checkMs, decide, auth)
    ensures req.bearer.value in Run(map[], es)
    ensures Answers(env, crypto, broker, cfg, req, nowSec, checkMs, decide, auth, Run(map[], es)[req.bearer.value])
  {
    var raw := req.bearer.value;
    EveryTokenDescendsFromAUser(env, crypto, broker, es, raw);
    LineageAnswers(env, crypto, broker, Run(map[], es)[raw], cfg, req, nowSec, checkMs, decide, auth);
  }

  /** The same from end to end: of the middleware's own verdict, on any store, after any
      history of requests to the broker's endpoint, with only the facts about
      signatures assumed. */
  lemma MiddlewareIsSound(env: Env, crypto: Crypto, broker: Broker.Config, start: R.Store,
                          calls: seq<(Broker.Request, Broker.World)>, cfg: Config, req: Request, nowSec: int,
                          decide: Query -> Decision, store: R.Store, m: Moments)
    requires broker.issuer == cfg.issuer && broker.issuer != broker.userIssuer
    requires SignedRun(env, broker, map[], Grants(env, crypto, broker, start, calls))
    requires req.bearer.Some?
             && Unforged(env, Run(map[], Grants(env, crypto, broker, start, calls)), req.bearer.value)
    ensures var admission := Admit(env, crypto, cfg, store, req, nowSec, m, decide).0;
            var ledger := Run(map[], Grants(env, crypto, broker, start, calls));
            admission.Next? ==>
              && req.bearer.value in ledger
              && Answers(env, crypto, broker, cfg, req, nowSec, m.checkMs, decide, admission.auth,
                         ledger[req.bearer.value])
  {
    var admission := Admit(env, crypto, cfg, store, req, nowSec, m, decide).0;
    if admission.Next? {
      AdmittedMeans(env, crypto, cfg, store, req, nowSec, m, decide);
      EndpointHistoryIsARun(env, crypto, broker, start, calls);
      AdmissionIsSound(env, crypto, broker, Grants(env, crypto, broker, start, calls), cfg, req, nowSec, m.checkMs,
                       decide, admission.auth);
    }
  }

  /** And in any company: overlapping handlers at the broker, and other verifier calls
      between the awaits of this one at the receiver. */
  lemma MiddlewareIsSoundBeside(env: Env, crypto: Crypto, broker: Broker.Config, brokerDelay: Option<nat>,
                                brokerStart: P.Sys, brokerSteps: seq<P.Event>, es: seq<Event>,
                                cfg: Config, delay: Option<nat>, start: P.Sys, steps: seq<P.Event>, c: nat,
                                req: Request, nowSec: int, decide: Query -> Decision)
    requires broker.issuer == cfg.issuer && broker.issuer != broker.userIssuer
    requires brokerStart.calls == map[] && P.Admissible(broker.dpop, crypto, brokerDelay, brokerStart, brokerSteps)
    requires forall e :: e in es ==>
               CompletedIn(env, broker, P.Run(broker.dpop, crypto, brokerDelay, brokerStart, brokerSteps), e)
    requires SignedRun(env, broker, map[], es)
    requires start.calls == map[] && P.Admissible(cfg.dpop, crypto, delay, start, steps)
    requires CalledFor(env, cfg, P.Run(cfg.dpop, crypto, delay, start, steps), c, req, nowSec)
    requires Unforged(env, Run(map[], es), req.bearer.value)
    ensures var u := P.Run(cfg.dpop, crypto, delay, start, steps);
            var admission := AdmitBeside(env, cfg, u, c, req, nowSec, decide);
            admission.Next? ==>
              && req.bearer.value in Run(map[], es) && c in u.records
              && Answers(env, crypto, broker, cfg, req, nowSec, u.records[c].checkedAtMs, decide, admission.auth,
                         Run(map[], es)[req.bearer.value])
  {
    var u := P.Run(cfg.dpop, crypto, delay, start, steps);
    var admission := AdmitBeside(env, cfg, u, c, req, nowSec, decide);
    if admission.Next? {
      AdmittedBesideMeans(env, crypto, cfg, delay, start, steps, c, req, nowSec, decide);
      OverlappingHistoryIsARun(env, crypto, broker, brokerDelay, brokerStart, brokerSteps, es);
      AdmissionIsSound(env, crypto, broker, es, cfg, req, nowSec, u.records[c].checkedAtMs, decide, admission.auth);
    }
  }

  // ---------- The decision cache behind the middleware ----------

  // What the authorizer is asked; `rest` is the context that does not come from the token.
  function Asked(q: Query, sub: string, rest: map<string, Json>): Authorize.Input {
    Authorize.Input(q.principal, q.action, q.resource, q.token, q.scopes,
                    rest["user" := Obj(map["sub" := Str(sub), "roles" := FromStrings(q.roles),
                                           "groups" := FromStrings(q.groups)])]
                        ["actor_chain" := FromStrings(q.actorChain)])
  }

  // The decision came through the authorizer, as its answer to this call.
  predicate DecidedBy(s: Authorize.Sys, call: nat, q: Query, sub: string, rest: map<string, Json>,
                      decide: Query -> Decision)
  {
    && call in s.answers && s.answers[call].input == Asked(q, sub, rest)
    && decide(q) == if s.answers[call].allowed then Allow else Deny
  }

  /** An admission rests on an ALLOW of the engine that is less than the TTL old, for
      some question with the same cache key; and for its own question if the engine is
      steady and decides by the key alone. */
  lemma AdmittedWasAllowed(ttlMs: nat, engine: Authorize.Input -> bool, es: seq<Authorize.Event>, call: nat,
                           req: Request, v: ValidatedToken, rest: map<string, Json>, decide: Query -> Decision)
    requires ttlMs > 0 && Authorize.Admissible(ttlMs, Authorize.EMPTY, es)
    requires req.bearer.Some? && Decide(req, v, decide).Next?
    requires DecidedBy(Authorize.Run(ttlMs, Authorize.EMPTY, es), call,
                       QueryFor(req, v, ExtractActorChain(v.raw).value), v.sub, rest, decide)
    ensures var s := Authorize.Run(ttlMs, Authorize.EMPTY, es);
            var own := Asked(QueryFor(req, v, ExtractActorChain(v.raw).value), v.sub, rest);
            && (exists d :: && d in s.decided && d.allowed && Authorize.Key(d.input) == Authorize.Key(own)
                            && d.atMs <= s.answers[call].atMs < d.atMs + ttlMs)
            && (Authorize.Steady(ttlMs, engine, Authorize.EMPTY, es) && Authorize.KeyDecides(engine) ==> engine(own))
  {
    Authorize.AnswersAreRecent(ttlMs, es, call);
    Authorize.TransparentExactly(ttlMs, engine);
  }

  // Principals and actions as the middleware writes them, around texts without a colon.
  predicate WellFormed(i: Authorize.Input, sub: string, name: string) {
    i.principal == "ServicePrincipal::" + sub && i.action == "Action::" + name && ':' !in sub && ':' !in name
  }

  lemma SameHead(head: string, a: string, x: string, b: string, y: string)
    requires ':' !in a && ':' !in b && head + a + ":" + x == head + b + ":" + y
    ensures a == b && x == y
  {
    assert (head + a + ":" + x)[|head|..] == a + [':'] + x && (head + b + ":" + y)[|head|..] == b + [':'] + y;
    IndexOfPiece(a, ':', x);
    IndexOfPiece(b, ':', y);
    assert (a + [':'] + x)[..|a|] == a && (b + [':'] + y)[..|b|] == b;
    assert (a + [':'] + x)[|a| + 1..] == x && (b + [':'] + y)[|b| + 1..] == y;
  }

  /** The middleware's own questions share a key only for the same principal, action and
      resource, as long as no subject has a colon. */
  lemma OwnKeysTell(i: Authorize.Input, j: Authorize.Input, sub: string, name: string, sub': string, name': string)
    requires WellFormed(i, sub, name) && WellFormed(j, sub', name') && Authorize.Key(i) == Authorize.Key(j)
    ensures i.principal == j.principal && i.action == j.action && i.resource == j.resource
  {
    var x, y := i.action + ":" + i.resource, j.action + ":" + j.resource;
    assert Authorize.Key(i) == "ServicePrincipal::" + sub + ":" + x;
    assert Authorize.Key(j) == "ServicePrincipal::" + sub' + ":" + y;
    SameHead("ServicePrincipal::", sub, x, sub', y);
    SameHead("Action::", name, i.resource, name', j.resource);
  }
}
