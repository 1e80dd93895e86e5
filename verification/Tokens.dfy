/** Signed tokens and the two claim checkers built on them. */
module Tokens {
  import opened Wrappers
  import opened Text
  import opened Json
  import opened Dpop

  // Whose published keys verify the signature.
  datatype Signer = UserIssuer | Broker | Stranger

  datatype Jwt = Jwt(signer: Signer, claims: Claims)

  /** Library code kept abstract: reading a compact token, String(v) of a JSON value
      that is not a string, base64 text, and the hash of client secrets. */
  datatype Env = Env(decode: string -> Option<Jwt>, stringOf: Json -> string, base64: string -> string,
                     secretHash: string -> string)

  // String(v ?? '')
  function TextOf(env: Env, v: Option<Json>): string {
    match v
    case None => ""
    case Some(Null) => ""
    case Some(Str(s)) => s
    case Some(j) => env.stringOf(j)
  }

  function NumberOr0(v: Option<Json>): real {
    if v.Some? && v.value.Num? then v.value.n else 0.0
  }

  predicate NumericIfPresent(c: Claims, k: string) {
    k in c ==> c[k].Num?
  }

  // jwtVerify with the clock given: signature, then iat, nbf and exp.
  function JwtVerify(env: Env, signer: Signer, token: string, nowSec: int): Result<Claims, Code> {
    var jwt := env.decode(token);
    if jwt.None? || jwt.value.signer != signer then Result.Failure(InvalidToken)
    else
      var c := jwt.value.claims;
      if !NumericIfPresent(c, "iat") || !NumericIfPresent(c, "nbf") || !NumericIfPresent(c, "exp") then
        Result.Failure(InvalidToken)
      else if "nbf" in c && c["nbf"].n > nowSec as real then Result.Failure(InvalidToken)
      else if "exp" in c && c["exp"].n <= nowSec as real then Result.Failure(TokenExpired)
      else Success(c)
  }

  datatype UserContext = UserContext(sub: string, roles: seq<string>, groups: seq<string>, claims: Claims,
                                     issuer: string)

  // A list claim may be an array or a blank-separated text.
  function NormaliseStringList(v: Option<Json>): seq<string> {
    match v
    case Some(Arr(a)) => Strings(a)
    case Some(Str(s)) => Words(s)
    case _ => []
  }

  function OnlyStrings(v: Option<Json>): seq<string> {
    if v.Some? && v.value.Arr? then Strings(v.value.a) else []
  }

  predicate AudienceMatches(aud: Option<Json>, expected: string) {
    match aud
    case Some(Str(s)) => s == expected
    case Some(Arr(a)) => Str(expected) in a
    case _ => false
  }

  const RESERVED := {"iss", "sub", "aud", "exp", "iat", "nbf", "jti", "roles", "groups"}

  function CustomClaims(c: Claims): Claims {
    map k | k in c && k !in RESERVED :: c[k]
  }

  // The code's loop over the entries, in whatever order they come.
  method ExtractCustomClaims(payload: Claims) returns (out: Claims)
    ensures out == CustomClaims(payload)
    ensures forall k :: k in out <==>
                          k in payload
                          && k !in ["iss", "sub", "aud", "exp", "iat", "nbf", "jti", "roles", "groups"]
    ensures forall k :: k in out ==> out[k] == payload[k]
  {
    out := map[];
    var rest := payload.Keys;
    while rest != {}
      invariant rest <= payload.Keys
      invariant out == map k | k in payload && k !in rest && k !in RESERVED :: payload[k]
      decreases rest
    {
      var k :| k in rest;
      if k !in RESERVED {
        out := out[k := payload[k]];
      }
      rest := rest - {k};
    }
  }

  function ValidateUserToken(env: Env, signer: Signer, issuer: string, audience: string, token: string, nowSec: int)
      : Result<UserContext, Code>
  {
    var c :- JwtVerify(env, signer, token, nowSec);
    if NumberOr0(Field(c, "exp")) <= nowSec as real then Result.Failure(TokenExpired)
    else if TextOf(env, Field(c, "iss")) != issuer then Result.Failure(InvalidToken)
    else if !AudienceMatches(Field(c, "aud"), audience) then Result.Failure(InvalidAudience)
    else Success(UserContext(TextOf(env, Field(c, "sub")), NormaliseStringList(Field(c, "roles")),
                             NormaliseStringList(Field(c, "groups")), CustomClaims(c), issuer))
  }

  datatype ValidatedToken = ValidatedToken(sub: string, scope: seq<string>, iss: string, aud: string, exp: real,
                                           jkt: Option<string>, raw: Claims)

  function ConfirmedKey(c: Claims): Option<string> {
    if "cnf" in c && c["cnf"].Obj? && "jkt" in c["cnf"].m && c["cnf"].m["jkt"].Str?
    then Some(c["cnf"].m["jkt"].s) else None
  }

  function ScopeList(scope: string): seq<string> {
    if scope == "" then [] else Split(scope, ' ')
  }

  function ValidateToken(env: Env, signer: Signer, issuer: string, audience: string, token: string, nowSec: int)
      : Result<ValidatedToken, Code>
  {
    var c :- JwtVerify(env, signer, token, nowSec);
    var exp := NumberOr0(Field(c, "exp"));
    if exp <= nowSec as real then Result.Failure(TokenExpired)
    else if TextOf(env, Field(c, "aud")) != audience then Result.Failure(InvalidAudience)
    else if TextOf(env, Field(c, "iss")) != issuer then Result.Failure(InvalidToken)
    else Success(ValidatedToken(TextOf(env, Field(c, "sub")), ScopeList(TextOf(env, Field(c, "scope"))),
                                issuer, audience, exp, ConfirmedKey(c), c))
  }

  /** A requested scope list survives the claim: the receiver reads the same list. */
  lemma ScopesSurvive(scopes: seq<string>)
    requires AllWords(scopes)
    ensures ScopeList(Join(scopes, ' ')) == scopes
  {
    if scopes != [] {
      JoinedWordsAreText(scopes);
      assert forall i :: 0 <= i < |scopes| ==> IsWord(scopes[i]);
      forall i | 0 <= i < |scopes|
        ensures ' ' !in scopes[i]
      {
        assert IsWord(scopes[i]) && IsSpace(' ');
      }
      SplitJoin(scopes, ' ');
    }
  }

  // ---------- What the two checkers accept ----------

  // The token names the audience, by itself or somewhere in a list.
  predicate NamesAudience(c: Claims, audience: string) {
    && "aud" in c
    && (c["aud"] == Str(audience)
        || (c["aud"].Arr? && exists k :: 0 <= k < |c["aud"].a| && c["aud"].a[k] == Str(audience)))
  }

  // What signature and dates have against a token.
  function Fault(env: Env, signer: Signer, token: string, nowSec: int): Option<Code> {
    if env.decode(token).None? || env.decode(token).value.signer != signer then Some(InvalidToken)
    else
      var c := env.decode(token).value.claims;
      if ("iat" in c && !c["iat"].Num?) || ("nbf" in c && !c["nbf"].Num?) || ("exp" in c && !c["exp"].Num?) then
        Some(InvalidToken)
      else if "nbf" in c && c["nbf"].n > nowSec as real then Some(InvalidToken)
      else if (if "exp" in c then c["exp"].n else 0.0) <= nowSec as real then Some(TokenExpired)
      else None
  }

  lemma AudienceExactly(c: Claims, audience: string)
    ensures AudienceMatches(Field(c, "aud"), audience) <==> NamesAudience(c, audience)
  {
  }

  /** A user token is accepted exactly if it is signed by the right keys, in its time,
      and names the issuer and the audience; the first fault decides the error. Roles
      and groups are the texts of a list claim, the words of a text, or nothing. */
  lemma ValidateUserTokenExactly(env: Env, signer: Signer, issuer: string, audience: string, token: string, nowSec: int)
    ensures var r, fault := ValidateUserToken(env, signer, issuer, audience, token, nowSec),
                            Fault(env, signer, token, nowSec);
            if fault.Some? then r == Result.Failure(fault.value)
            else
              var c := env.decode(token).value.claims;
              if TextOf(env, Field(c, "iss")) != issuer then r == Result.Failure(InvalidToken)
              else if !NamesAudience(c, audience) then r == Result.Failure(InvalidAudience)
              else
                && r.Success? && r.value.sub == TextOf(env, Field(c, "sub")) && r.value.issuer == issuer
                && r.value.roles == (match Field(c, "roles")
                                     case Some(Arr(a)) => Strings(a)
                                     case Some(Str(s)) => Words(s)
                                     case _ => [])
                && r.value.groups == (match Field(c, "groups")
                                      case Some(Arr(a)) => Strings(a)
                                      case Some(Str(s)) => Words(s)
                                      case _ => [])
                && r.value.claims == CustomClaims(c)
  {
    if env.decode(token).Some? {
      AudienceExactly(env.decode(token).value.claims, audience);
    }
  }

  /** The receiver's check: signature and dates, then one exact audience, then the
      issuer; the key is the text member `jkt` of an object `cnf`, and the scopes are
      the pieces of the scope claim between blanks. */
  lemma ValidateTokenExactly(env: Env, signer: Signer, issuer: string, audience: string, token: string, nowSec: int)
    ensures var r, fault := ValidateToken(env, signer, issuer, audience, token, nowSec),
                            Fault(env, signer, token, nowSec);
            if fault.Some? then r == Result.Failure(fault.value)
            else
              var c := env.decode(token).value.claims;
              if TextOf(env, Field(c, "aud")) != audience then r == Result.Failure(InvalidAudience)
              else if TextOf(env, Field(c, "iss")) != issuer then r == Result.Failure(InvalidToken)
              else
                && r.Success? && r.value.sub == TextOf(env, Field(c, "sub")) && r.value.raw == c
                && (forall k :: r.value.jkt == Some(k) <==>
                                  "cnf" in c && c["cnf"].Obj? && "jkt" in c["cnf"].m && c["cnf"].m["jkt"] == Str(k))
                && r.value.scope == (if TextOf(env, Field(c, "scope")) == "" then []
                                     else Split(TextOf(env, Field(c, "scope")), ' '))
  {
  }
}
