/** The broker's token endpoint: authenticate the actor, verify its proof, validate
    the subject token, authorize, mint. */
module Broker {
  import opened Wrappers
  import opened Text
  import opened Json
  import opened ActorChain
  import opened Dpop
  import opened Tokens
  import R = Redis

  datatype Actor = Actor(secretHash: string, audiences: seq<string>, scopes: seq<string>)

  datatype Config = Config(issuer: string, userIssuer: string, userAudience: string, ttlSeconds: nat,
                           replayPrefix: string, replayTtl: nat, catalog: map<string, Actor>, dpop: Dpop.Config)

  // ---------- Subject tokens ----------

  datatype Subject = Subject(user: UserContext, previous: Option<Chain>, reentry: bool)

  function ReadIssuer(env: Env, token: string): Option<string> {
    var jwt := env.decode(token);
    if jwt.Some? && "iss" in jwt.value.claims && jwt.value.claims["iss"].Str? && jwt.value.claims["iss"].s != ""
    then Some(jwt.value.claims["iss"].s) else None
  }

  // The audience a broker token names itself, used when it is not the requested one.
  function OwnAudience(c: Claims): string {
    match Field(c, "aud")
    case Some(Str(s)) => s
    case Some(Arr(a)) => if a != [] && a[0].Str? then a[0].s else ""
    case _ => ""
  }

  function ReentryUser(env: Env, cfg: Config, c: Claims): UserContext {
    var custom := CustomClaims(c);
    UserContext(TextOf(env, Field(c, "sub")), OnlyStrings(Field(c, "roles")), OnlyStrings(Field(c, "groups")), custom,
                if "user_issuer" in custom && custom["user_issuer"].Str?
                then custom["user_issuer"].s else cfg.userIssuer)
  }

  function ValidateReentry(env: Env, cfg: Config, token: string, audience: string, nowSec: int): Result<Claims, Code> {
    var c :- JwtVerify(env, Broker, token, nowSec);
    var first := ValidateUserToken(env, Broker, cfg.issuer, audience, token, nowSec);
    if first.Success? then Success(c)
    else if first.error != InvalidAudience || OwnAudience(c) == "" then Result.Failure(first.error)
    else
      var second := ValidateUserToken(env, Broker, cfg.issuer, OwnAudience(c), token, nowSec);
      if second.Success? then Success(c) else Result.Failure(second.error)
  }

  function ValidateSubject(env: Env, cfg: Config, token: string, audience: string, nowSec: int): Result<Subject, Code> {
    var iss := ReadIssuer(env, token);
    if iss.None? then Result.Failure(InvalidToken)
    else if iss.value == cfg.issuer then
      var c :- ValidateReentry(env, cfg, token, audience, nowSec);
      Success(Subject(ReentryUser(env, cfg, c), PreviousChain(c), true))
    else if iss.value != cfg.userIssuer then Result.Failure(InvalidToken)
    else
      var user :- ValidateUserToken(env, UserIssuer, cfg.userIssuer, cfg.userAudience, token, nowSec);
      Success(Subject(user, None, false))
  }

  // A token of the broker or of the user issuer, by its signature, dates and issuer text.
  predicate Live(env: Env, signer: Signer, issuer: string, token: string, nowSec: int) {
    && issuer != "" && Fault(env, signer, token, nowSec).None?
    && Field(env.decode(token).value.claims, "iss") == Some(Str(issuer))
  }

  // The token names some audience: a text, or a list that starts with one; not the empty one.
  predicate NamesSomeAudience(c: Claims) {
    && "aud" in c
    && ((c["aud"].Str? && c["aud"].s != "")
        || (c["aud"].Arr? && c["aud"].a != [] && c["aud"].a[0].Str? && c["aud"].a[0].s != ""))
  }

  predicate LiveUserToken(env: Env, cfg: Config, token: string, nowSec: int) {
    && Live(env, UserIssuer, cfg.userIssuer, token, nowSec)
    && NamesAudience(env.decode(token).value.claims, cfg.userAudience)
  }

  predicate LiveBrokerToken(env: Env, cfg: Config, token: string, audience: string, nowSec: int) {
    && Live(env, Broker, cfg.issuer, token, nowSec)
    && (NamesAudience(env.decode(token).value.claims, audience)
        || NamesSomeAudience(env.decode(token).value.claims))
  }

  /** The re-entry audience test only ever rejects a token that names no audience:
      any signed, live broker token with a non-empty first audience passes. */
  lemma ReentryAudienceIsOpen(env: Env, cfg: Config, token: string, audience: string, nowSec: int)
    ensures ValidateReentry(env, cfg, token, audience, nowSec).Success? <==>
              && Fault(env, Broker, token, nowSec).None?
              && var c := env.decode(token).value.claims;
              && TextOf(env, Field(c, "iss")) == cfg.issuer
              && (NamesAudience(c, audience) || NamesSomeAudience(c))
    ensures ValidateReentry(env, cfg, token, audience, nowSec).Success? ==>
              ValidateReentry(env, cfg, token, audience, nowSec).value == env.decode(token).value.claims
  {
    ValidateUserTokenExactly(env, Broker, cfg.issuer, audience, token, nowSec);
    if env.decode(token).Some? {
      var c := env.decode(token).value.claims;
      ValidateUserTokenExactly(env, Broker, cfg.issuer, OwnAudience(c), token, nowSec);
      OwnAudienceExactly(c);
    }
  }

  lemma OwnAudienceExactly(c: Claims)
    ensures OwnAudience(c) != "" <==> NamesSomeAudience(c)
    ensures NamesSomeAudience(c) ==> NamesAudience(c, OwnAudience(c))
  {
  }

  /** A subject token is good exactly if it is a live token of the broker that names this
      or some audience, or a live one of the user issuer that names the configured
      audience; and what it says of the subject. */
  lemma SubjectExactly(env: Env, cfg: Config, token: string, audience: string, nowSec: int)
    ensures var r := ValidateSubject(env, cfg, token, audience, nowSec);
            var asBroker := LiveBrokerToken(env, cfg, token, audience, nowSec);
            var asUser := cfg.userIssuer != cfg.issuer && LiveUserToken(env, cfg, token, nowSec);
            && (r.Success? <==> asBroker || asUser)
            && (asUser ==>
                  var c := env.decode(token).value.claims;
                  && r.value.previous.None? && !r.value.reentry && r.value.user.issuer == cfg.userIssuer
                  && r.value.user.sub == TextOf(env, Field(c, "sub"))
                  && Success(r.value.user)
                     == ValidateUserToken(env, UserIssuer, cfg.userIssuer, cfg.userAudience, token, nowSec))
            && (asBroker ==>
                  var c := env.decode(token).value.claims;
                  && r.value.previous == PreviousChain(c) && r.value.reentry
                  && r.value.user.sub == TextOf(env, Field(c, "sub"))
                  && r.value.user.roles == (if "roles" in c && c["roles"].Arr? then Strings(c["roles"].a) else [])
                  && r.value.user.groups == (if "groups" in c && c["groups"].Arr? then Strings(c["groups"].a) else [])
                  && r.value.user.issuer == (if "user_issuer" in c && c["user_issuer"].Str? then c["user_issuer"].s
                                             else cfg.userIssuer))
  {
    ReentryAudienceIsOpen(env, cfg, token, audience, nowSec);
    ValidateUserTokenExactly(env, UserIssuer, cfg.userIssuer, cfg.userAudience, token, nowSec);
    if env.decode(token).Some? {
      ReadIssuerExactly(env, token);
      IssuerReads(env, cfg, env.decode(token).value.claims);
    }
  }

  lemma ReadIssuerExactly(env: Env, token: string)
    requires env.decode(token).Some?
    ensures forall iss :: ReadIssuer(env, token) == Some(iss) <==>
                            iss != "" && Field(env.decode(token).value.claims, "iss") == Some(Str(iss))
  {
  }

  lemma IssuerReads(env: Env, cfg: Config, c: Claims)
    ensures ReentryUser(env, cfg, c).issuer
            == if "user_issuer" in c && c["user_issuer"].Str? then c["user_issuer"].s else cfg.userIssuer
  {
  }

  // ---------- Minting ----------

  function MintedClaims(cfg: Config, user: UserContext, audience: string, scopes: seq<string>, actor: string,
                        previous: Option<Chain>, jkt: string, nowSec: int, jti: string): Claims
  {
    map["act" := ToJson(Compose(actor, previous)),
        "scope" := Str(Join(scopes, ' ')),
        "user_issuer" := Str(user.issuer),
        "cnf" := Obj(map["jkt" := Str(jkt)]),
        "roles" := FromStrings(user.roles),
        "groups" := FromStrings(user.groups),
        "iss" := Str(cfg.issuer),
        "sub" := Str(user.sub),
        "aud" := Str(audience),
        "iat" := Num(nowSec as real),
        "exp" := Num((nowSec + cfg.ttlSeconds) as real),
        "jti" := Str(jti)]
  }

  // ---------- The endpoint ----------

  const GRANT_TYPE := "urn:ietf:params:oauth:grant-type:token-exchange"

  const SUBJECT_TOKEN_TYPES := {"urn:ietf:params:oauth:token-type:access_token", "urn:ietf:params:oauth:token-type:jwt"}

  datatype Request = Request(body: Json, authorization: Option<string>, proof: Option<Proof>, htu: string)

  // What the request meets outside the handler: the clock, the signing key, a fresh
  // jti, and the compact form of the token it signs.
  datatype World = World(moments: Moments, validateSec: int, mintSec: int, claimMs: int, keyLoads: bool,
                         jti: string, raw: string)

  datatype Refusal =
    | UnsupportedGrantType | InvalidRequest | InvalidScope | InvalidClient | BadProof | BadToken | InvalidTarget
    | ServerError

  datatype Response = Granted(token: string, scope: string) | Refused(status: nat, error: Refusal)

  // A non-empty text field of the form body.
  function TextField(body: Json, k: string): Option<string> {
    if body.Obj? && k in body.m && body.m[k].Str? && body.m[k].s != "" then Some(body.m[k].s) else None
  }

  lemma TextFieldExactly(body: Json, k: string, v: string)
    ensures TextField(body, k) == Some(v) <==> v != "" && body.Obj? && Field(body.m, k) == Some(Str(v))
  {
  }

  function LeadingSpaces(s: string): (n: nat)
    ensures n <= |s|
  {
    if s == "" || !IsSpace(s[0]) then 0 else 1 + LeadingSpaces(s[1..])
  }

  function TrimEnd(s: string): string {
    if s != "" && IsSpace(s[|s| - 1]) then TrimEnd(s[..|s| - 1]) else s
  }

  function Trim(s: string): string {
    TrimEnd(s[LeadingSpaces(s)..])
  }

  lemma {:induction false} TrimEndExactly(s: string) returns (after: string)
    ensures Blank(after) && s == TrimEnd(s) + after
    ensures TrimEnd(s) == "" || !IsSpace(TrimEnd(s)[|TrimEnd(s)| - 1])
    decreases |s|
  {
    if s != "" && IsSpace(s[|s| - 1]) {
      var shorter := TrimEndExactly(s[..|s| - 1]);
      after := shorter + [s[|s| - 1]];
      InitAndLast(s);
      Associative(TrimEnd(s), shorter, [s[|s| - 1]]);
    } else {
      after := "";
    }
  }

  lemma {:induction false} LeadingSpacesExactly(s: string)
    ensures Blank(s[..LeadingSpaces(s)])
    ensures LeadingSpaces(s) < |s| ==> !IsSpace(s[LeadingSpaces(s)])
  {
    if s != "" && IsSpace(s[0]) {
      LeadingSpacesExactly(s[1..]);
      var n := LeadingSpaces(s[1..]);
      assert s[..n + 1] == [s[0]] + s[1..][..n];
    }
  }

  /** Trimming takes the whitespace off both ends, and nothing else. */
  lemma TrimExactly(s: string) returns (before: string, after: string)
    ensures s == before + Trim(s) + after && Blank(before) && Blank(after)
    ensures Trim(s) != "" ==> !IsSpace(Trim(s)[0]) && !IsSpace(Trim(s)[|Trim(s)| - 1])
  {
    var n := LeadingSpaces(s);
    LeadingSpacesExactly(s);
    before := s[..n];
    after := TrimEndExactly(s[n..]);
    assert s == before + s[n..];
    Associative(before, Trim(s), after);
    if Trim(s) != "" {
      assert Trim(s)[0] == s[n..][0];
    }
  }

  // (client id, secret)
  function ParseBasicAuth(env: Env, header: Option<string>): (r: Option<(string, string)>)
    ensures r.Some? ==> r.value.0 != "" && ':' !in r.value.0 && r.value.1 != ""
  {
    if header.None? || !("Basic " <= header.value) then None
    else
      var decoded := env.base64(Trim(header.value[6..]));
      var idx := IndexOf(decoded, ':');
      if idx == |decoded| || idx == 0 || idx + 1 == |decoded| then None
      else Some((decoded[..idx], decoded[idx + 1..]))
  }

  /** The credentials are the decoded text cut at its first colon, both parts non-empty,
      and nothing else is taken for credentials. */
  lemma BasicAuthExactly(env: Env, header: Option<string>, client: string, secret: string)
    ensures ParseBasicAuth(env, header) == Some((client, secret)) <==>
              && header.Some? && "Basic " <= header.value
              && env.base64(Trim(header.value[6..])) == client + ":" + secret
              && ':' !in client && client != "" && secret != ""
  {
    if header.Some? && "Basic " <= header.value {
      var decoded := env.base64(Trim(header.value[6..]));
      var idx := IndexOf(decoded, ':');
      if idx < |decoded| {
        assert decoded == decoded[..idx] + ":" + decoded[idx + 1..];
      }
      if decoded == client + ":" + secret && ':' !in client {
        IndexOfPiece(client, ':', secret);
        assert client + ":" + secret == client + [':'] + secret;
        assert decoded[..|client|] == client && decoded[|client| + 1..] == secret;
      }
    }
  }

  predicate Authenticates(env: Env, cfg: Config, client: string, secret: string) {
    client in cfg.catalog && env.secretHash(secret) == cfg.catalog[client].secretHash
  }

  function ExchangeInput(req: Request): Input
    requires req.proof.Some?
  {
    Input(req.proof.value, None, "POST", req.htu, false, None, false)
  }

  // Everything the handler has established when it reaches the minter.
  datatype Approval = Approval(actor: string, subject: Subject, audience: string, scopes: seq<string>, jkt: string)

  // Steps 1 and 2, up to the proof: the refusal, if any.
  function Precheck(env: Env, cfg: Config, req: Request): (r: Option<Response>)
    ensures r.Some? ==> r.value.Refused?
  {
    var audience, scope := TextField(req.body, "audience"), TextField(req.body, "scope");
    var tokenType := TextField(req.body, "subject_token_type");
    var basic := ParseBasicAuth(env, req.authorization);
    if TextField(req.body, "grant_type") != Some(GRANT_TYPE) then Some(Refused(400, UnsupportedGrantType))
    else if TextField(req.body, "subject_token").None? || tokenType.None? || audience.None? || scope.None? then
      Some(Refused(400, InvalidRequest))
    else if tokenType.value !in SUBJECT_TOKEN_TYPES then Some(Refused(400, InvalidRequest))
    else if Words(scope.value) == [] then Some(Refused(400, InvalidScope))
    else if basic.None? || !Authenticates(env, cfg, basic.value.0, basic.value.1) then Some(Refused(401, InvalidClient))
    else if req.proof.None? then Some(Refused(400, BadProof))
    else None
  }

  // Steps 4 and 5, after a verified proof.
  function AfterProof(env: Env, cfg: Config, req: Request, w: World, proved: Verified): (r: Result<Approval, Response>)
    requires Precheck(env, cfg, req).None?
    ensures r.Failure? ==> r.error.Refused?
  {
    var audience, requested := TextField(req.body, "audience").value, Words(TextField(req.body, "scope").value);
    var client := ParseBasicAuth(env, req.authorization).value.0;
    var subject := ValidateSubject(env, cfg, TextField(req.body, "subject_token").value, audience, w.validateSec);
    var actor := cfg.catalog[client];
    if subject.Failure? then Result.Failure(Refused(401, BadToken))
    else if audience !in actor.audiences then Result.Failure(Refused(403, InvalidTarget))
    else if exists s | s in requested :: s !in actor.scopes then Result.Failure(Refused(400, InvalidScope))
    else Success(Approval(client, subject.value, audience, requested, proved.thumbprint))
  }

  // Steps 1 to 5, with the store the proof verifier leaves.
  function Approve(env: Env, crypto: Crypto, cfg: Config, store: R.Store, req: Request, w: World)
      : (r: (Result<Approval, Response>, R.Store))
    ensures r.0.Failure? ==> r.0.error.Refused?
  {
    if Precheck(env, cfg, req).Some? then (Result.Failure(Precheck(env, cfg, req).value), store)
    else
      var (verdict, store1) := Undisturbed(cfg.dpop, crypto, ExchangeInput(req), store, w.moments);
      if !verdict.Accepted? then (Result.Failure(Refused(401, BadProof)), store1)
      else (AfterProof(env, cfg, req, w, verdict.result), store1)
  }

  function ClaimsFor(cfg: Config, a: Approval, w: World): Claims {
    MintedClaims(cfg, a.subject.user, a.audience, a.scopes, a.actor, a.subject.previous, a.jkt, w.mintSec, w.jti)
  }

  // Steps 6 and 7: mint, then claim the fresh jti.
  function Mint(cfg: Config, store: R.Store, scopes: seq<string>, w: World): (Response, R.Store) {
    if !w.keyLoads then (Refused(500, ServerError), store)
    else
      var (store1, reply) := R.Apply(store, cfg.replayPrefix + w.jti, R.SetNx(R.Mark, cfg.replayTtl), w.claimMs);
      if reply == R.Ok then (Granted(w.raw, Join(scopes, ' ')), store1) else (Refused(401, BadToken), store1)
  }

  function Exchange(env: Env, crypto: Crypto, cfg: Config, store: R.Store, req: Request, w: World)
      : (r: (Response, R.Store))
    ensures r.0.Granted? ==> Approve(env, crypto, cfg, store, req, w).0.Success? && r.0.token == w.raw
  {
    var (approval, store1) := Approve(env, crypto, cfg, store, req, w);
    if approval.Failure? then (approval.error, store1) else Mint(cfg, store1, approval.value.scopes, w)
  }

  class TokenEndpoint {
    const env: Env
    const cfg: Config
    const proofs: Verifier

    ghost predicate Valid() {
      proofs.Valid() && proofs.cfg == cfg.dpop
    }

    constructor (env: Env, cfg: Config, crypto: Crypto, redis: R.Server)
      ensures Valid() && this.env == env && this.cfg == cfg
      ensures proofs.crypto == crypto && proofs.redis == redis
    {
      this.env, this.cfg := env, cfg;
      proofs := new Verifier(cfg.dpop, crypto, redis);
    }

    method FirstDenied(requested: seq<string>, allowed: seq<string>) returns (denied: seq<string>)
      ensures denied == [] <==> forall s :: s in requested ==> s in allowed
      ensures forall s :: s in denied <==> s in requested && s !in allowed
    {
      denied := [];
      for k := 0 to |requested|
        invariant forall s :: s in denied <==> s in requested[..k] && s !in allowed
      {
        if requested[k] !in allowed {
          denied := denied + [requested[k]];
        }
      }
      assert requested[..|requested|] == requested;
      if denied == [] {
        forall s | s in requested
          ensures s in allowed
        {
          assert s !in denied;
        }
      } else {
        assert denied[0] in denied;
      }
    }

    // The checks before the proof.
    method CheckRequest(req: Request) returns (r: Option<Response>)
      ensures r == Precheck(env, cfg, req)
    {
      if TextField(req.body, "grant_type") != Some(GRANT_TYPE) {
        return Some(Refused(400, UnsupportedGrantType));
      }
      var tokenType := TextField(req.body, "subject_token_type");
      var scopeRaw := TextField(req.body, "scope");
      if TextField(req.body, "subject_token").None? || tokenType.None? || TextField(req.body, "audience").None?
         || scopeRaw.None? {
        return Some(Refused(400, InvalidRequest));
      }
      if tokenType.value !in SUBJECT_TOKEN_TYPES {
        return Some(Refused(400, InvalidRequest));
      }
      if |Words(scopeRaw.value)| == 0 {
        return Some(Refused(400, InvalidScope));
      }
      var basic := ParseBasicAuth(env, req.authorization);
      if basic.None? {
        return Some(Refused(401, InvalidClient));
      }
      var (client, secret) := basic.value;
      if client !in cfg.catalog || !Authenticates(env, cfg, client, secret) {
        return Some(Refused(401, InvalidClient));
      }
      if req.proof.None? {
        return Some(Refused(400, BadProof));
      }
      return None;
    }

    method Post(req: Request, w: World) returns (r: Response)
      requires Valid()
      modifies proofs.redis
      ensures r == Exchange(env, proofs.crypto, cfg, old(proofs.redis.data), req, w).0
      ensures proofs.redis.data == Exchange(env, proofs.crypto, cfg, old(proofs.redis.data), req, w).1
    {
      var refusal := CheckRequest(req);
      if refusal.Some? {
        return refusal.value;
      }
      var subjectToken, audience := TextField(req.body, "subject_token").value, TextField(req.body, "audience").value;
      var requested := Words(TextField(req.body, "scope").value);
      var (client, _) := ParseBasicAuth(env, req.authorization).value;
      var proved := proofs.Verify(ExchangeInput(req), w.moments);
      if proved.Failure? {
        return Refused(401, BadProof);
      }
      var validated := ValidateSubject(env, cfg, subjectToken, audience, w.validateSec);
      if validated.Failure? {
        return Refused(401, BadToken);
      }
      var entry := cfg.catalog[client];
      if audience !in entry.audiences {
        return Refused(403, InvalidTarget);
      }
      var denied := FirstDenied(requested, entry.scopes);
      if denied != [] {
        return Refused(400, InvalidScope);
      }
      if !w.keyLoads {
        return Refused(500, ServerError);
      }
      var claimed := proofs.redis.SetNx(cfg.replayPrefix + w.jti, R.Mark, cfg.replayTtl, w.claimMs);
      if !claimed {
        return Refused(401, BadToken);
      }
      return Granted(w.raw, Join(requested, ' '));
    }
  }
}
