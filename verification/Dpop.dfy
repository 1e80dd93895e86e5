/** The DPoP proof verifier: what one call does between two awaits, and the whole
    call when nothing else runs in between. */
module Dpop {
  import opened Wrappers
  import R = Redis

  datatype Code =
    | InvalidToken | TokenExpired | InvalidAudience | InvalidDpopProof | DpopBindingMismatch
    | DpopTokenMismatch | DpopProofExpired | DpopNonceReuse | DpopKeyMismatch | UseDpopNonce
    | AuthorizationDenied

  // An AuthError, or the plain Error raised for a mis-wired verifier or a lost server.
  datatype Failure = Auth(status: nat, code: Code, challengeNonce: Option<string>) | Plain

  function Unauthorized(code: Code): Failure {
    Auth(401, code, None)
  }

  datatype Jwk = Jwk(x: string, y: string)

  // Hashing is left uninterpreted.
  datatype Crypto = Crypto(thumbprint: Jwk -> string, sha256: string -> string)

  // `iat` is a NumericDate, so it may be fractional; an absent one counts as 0.
  // An absent `jti` or `nonce` is the empty string: both are tested for truth only.
  datatype ProofClaims = ProofClaims(htm: Option<string>, htu: Option<string>, iat: real, jti: string,
                           ath: Option<string>, nonce: string)

  datatype Proof = Garbled | Proof(typ: string, alg: string, jwk: Option<Jwk>, importable: bool,
                                   verifies: bool, claims: ProofClaims)

  // An undecodable proof claims nothing.
  function ClaimsOf(p: Proof): ProofClaims {
    if p.Garbled? then ProofClaims(None, None, 0.0, "", None, "") else p.claims
  }

  datatype Input = Input(proof: Proof, accessToken: Option<string>, expectedHtm: string, expectedHtu: string,
                         expectAth: bool, expectedJkt: Option<string>, requireCnf: bool)

  datatype Config = Config(jtiPrefix: string, jtiTtl: nat, tolerance: nat,
                           requireNonce: bool, hasNonceStore: bool, noncePrefix: string, nonceTtl: nat)

  datatype Verified = Verified(jti: string, thumbprint: string, iat: real)

  // Where a call is parked, with the clock readings the argument needs.
  datatype Phase =
    | Presented
    | Consuming(checkedAtMs: int)
    | Challenging
    | Recording(checkedAtMs: int)
    | Binding
    | Accepted(result: Verified)
    | Rejected(failure: Failure)

  function JtiKey(cfg: Config, jti: string): string {
    cfg.jtiPrefix + jti
  }

  function NonceKey(cfg: Config, nonce: string): string {
    cfg.noncePrefix + nonce
  }

  // floor to seconds; Dafny's division rounds down for a positive divisor
  function Seconds(ms: int): int {
    ms / 1000
  }

  predicate Timely(iat: real, tolerance: nat, nowMs: int) {
    -(tolerance as real) <= Seconds(nowMs) as real - iat <= tolerance as real
  }

  function CheckStep(cfg: Config, crypto: Crypto, i: Input, nowMs: int): Phase {
    var p := i.proof;
    if p.Garbled? || p.typ != "dpop+jwt" || p.alg != "ES256" || p.jwk.None? || !p.importable || !p.verifies then
      Rejected(Unauthorized(InvalidDpopProof))
    else if p.claims.htm != Some(i.expectedHtm) || p.claims.htu != Some(i.expectedHtu) then
      Rejected(Unauthorized(DpopBindingMismatch))
    else if !Timely(p.claims.iat, cfg.tolerance, nowMs) then
      Rejected(Unauthorized(DpopProofExpired))
    else if i.expectAth && i.accessToken.None? then
      Rejected(Plain)
    else if i.expectAth && p.claims.ath != Some(crypto.sha256(i.accessToken.value)) then
      Rejected(Unauthorized(DpopTokenMismatch))
    else if !cfg.requireNonce then
      Recording(nowMs)
    else if !cfg.hasNonceStore then
      Rejected(Plain)
    else if p.claims.nonce == "" then
      Challenging
    else
      Consuming(nowMs)
  }

  function ConsumeStep(cfg: Config, i: Input, checkedAtMs: int, s: R.Store, nowMs: int): (Phase, R.Store) {
    var (s1, reply) := R.Apply(s, NonceKey(cfg, ClaimsOf(i.proof).nonce), R.Del, nowMs);
    (if reply == R.Deleted(1) then Recording(checkedAtMs) else Challenging, s1)
  }

  function ChallengeStep(cfg: Config, challenge: string, s: R.Store, nowMs: int): (Phase, R.Store) {
    (Rejected(Auth(401, UseDpopNonce, Some(challenge))),
     R.Apply(s, NonceKey(cfg, challenge), R.SetNx(R.Mark, cfg.nonceTtl), nowMs).0)
  }

  function RecordStep(cfg: Config, i: Input, s: R.Store, nowMs: int): (Phase, R.Store) {
    if ClaimsOf(i.proof).jti == "" then (Rejected(Unauthorized(InvalidDpopProof)), s)
    else
      var (s1, reply) := R.Apply(s, JtiKey(cfg, ClaimsOf(i.proof).jti), R.SetNx(R.Mark, cfg.jtiTtl), nowMs);
      (if reply == R.Ok then Binding else Rejected(Unauthorized(DpopNonceReuse)), s1)
  }

  function BindStep(crypto: Crypto, i: Input): Phase {
    if i.proof.Garbled? || i.proof.jwk.None? then Rejected(Unauthorized(InvalidDpopProof))
    else
      var thumbprint := crypto.thumbprint(i.proof.jwk.value);
      var expected := match i.expectedJkt case Some(j) => j case None => "";
      if i.requireCnf && expected == "" then Rejected(Unauthorized(DpopKeyMismatch))
      else if expected != "" && expected != thumbprint then Rejected(Unauthorized(DpopKeyMismatch))
      else Accepted(Verified(ClaimsOf(i.proof).jti, thumbprint, ClaimsOf(i.proof).iat))
  }

  // The clock readings of one call, and the nonce it would hand out.
  datatype Moments = Moments(checkMs: int, consumeMs: int, issueMs: int, recordMs: int, challenge: string)

  function Finish(cfg: Config, crypto: Crypto, i: Input, s: R.Store, m: Moments, phase: Phase): (Phase, R.Store) {
    match phase
    case Challenging => ChallengeStep(cfg, m.challenge, s, m.issueMs)
    case Recording(_) =>
      var (p, s1) := RecordStep(cfg, i, s, m.recordMs);
      (if p.Binding? then BindStep(crypto, i) else p, s1)
    case _ => (phase, s)
  }

  // The whole call with no other client in between.
  function Undisturbed(cfg: Config, crypto: Crypto, i: Input, s: R.Store, m: Moments): (Phase, R.Store) {
    var p := CheckStep(cfg, crypto, i, m.checkMs);
    if p.Rejected? then (p, s)
    else if p.Consuming? then
      var (p1, s1) := ConsumeStep(cfg, i, m.checkMs, s, m.consumeMs);
      Finish(cfg, crypto, i, s1, m, p1)
    else Finish(cfg, crypto, i, s, m, p)
  }

  // An accepted call leaves its record, for its full lifetime.
  lemma AcceptedLeavesRecord(cfg: Config, crypto: Crypto, i: Input, s: R.Store, m: Moments)
    ensures var (phase, s') := Undisturbed(cfg, crypto, i, s, m);
            phase.Accepted? ==>
              && i.proof.Proof? && i.proof.jwk.Some? && i.proof.verifies
              && phase.result
                 == Verified(i.proof.claims.jti, crypto.thumbprint(i.proof.jwk.value), i.proof.claims.iat)
              && JtiKey(cfg, i.proof.claims.jti) in s'
              && s'[JtiKey(cfg, i.proof.claims.jti)] == R.Entry(R.Mark, m.recordMs + cfg.jtiTtl * 1000)
  {
  }

  class NonceStore {
    const redis: R.Server
    const ttl: nat
    const prefix: string

    constructor (redis: R.Server, ttl: nat, prefix: string)
      ensures this.redis == redis && this.ttl == ttl && this.prefix == prefix
    {
      this.redis, this.ttl, this.prefix := redis, ttl, prefix;
    }

    // A collision raises, and leaves the earlier record as it was.
    method Issue(nonce: string, nowMs: int) returns (issued: bool)
      modifies redis
      ensures redis.data == R.Apply(old(redis.data), prefix + nonce, R.SetNx(R.Mark, ttl), nowMs).0
      ensures issued <==> !R.Alive(old(redis.data), prefix + nonce, nowMs)
      ensures issued ==> R.Alive(redis.data, prefix + nonce, nowMs) || ttl == 0
    {
      issued := redis.SetNx(prefix + nonce, R.Mark, ttl, nowMs);
    }

    method Consume(nonce: string, nowMs: int) returns (consumed: bool)
      modifies redis
      ensures redis.data == old(redis.data) - {prefix + nonce}
      ensures consumed <==> R.Alive(old(redis.data), prefix + nonce, nowMs)
    {
      var removed := redis.Del(prefix + nonce, nowMs);
      consumed := removed == 1;
    }
  }

  class Verifier {
    const cfg: Config
    const crypto: Crypto
    const redis: R.Server
    const nonces: NonceStore

    ghost predicate Valid() {
      nonces.redis == redis && nonces.ttl == cfg.nonceTtl && nonces.prefix == cfg.noncePrefix
    }

    constructor (cfg: Config, crypto: Crypto, redis: R.Server)
      ensures Valid() && this.cfg == cfg && this.crypto == crypto && this.redis == redis
    {
      this.cfg, this.crypto, this.redis := cfg, crypto, redis;
      nonces := new NonceStore(redis, cfg.nonceTtl, cfg.noncePrefix);
    }

    method IssueChallenge(m: Moments) returns (failure: Failure)
      requires Valid()
      modifies redis
      ensures failure == Auth(401, UseDpopNonce, Some(m.challenge))
      ensures redis.data == ChallengeStep(cfg, m.challenge, old(redis.data), m.issueMs).1
    {
      var _ := nonces.Issue(m.challenge, m.issueMs);
      failure := Auth(401, UseDpopNonce, Some(m.challenge));
    }

    method Verify(i: Input, m: Moments) returns (r: Result<Verified, Failure>)
      requires Valid()
      modifies redis
      ensures redis.data == Undisturbed(cfg, crypto, i, old(redis.data), m).1
      ensures r == match Undisturbed(cfg, crypto, i, old(redis.data), m).0
                   case Accepted(v) => Success(v)
                   case Rejected(f) => Result.Failure(f)
                   case _ => Result.Failure(Plain)
      ensures r.Success? ==>
                && i.proof.Proof? && i.proof.jwk.Some? && i.proof.verifies
                && r.value == Verified(i.proof.claims.jti, crypto.thumbprint(i.proof.jwk.value), i.proof.claims.iat)
                && JtiKey(cfg, r.value.jti) in redis.data
                && redis.data[JtiKey(cfg, r.value.jti)] == R.Entry(R.Mark, m.recordMs + cfg.jtiTtl * 1000)
    {
      AcceptedLeavesRecord(cfg, crypto, i, redis.data, m);
      if i.proof.Garbled? {
        return Result.Failure(Unauthorized(InvalidDpopProof));
      }
      if i.proof.typ != "dpop+jwt" || i.proof.alg != "ES256" || i.proof.jwk.None? {
        return Result.Failure(Unauthorized(InvalidDpopProof));
      }
      if !i.proof.importable {
        return Result.Failure(Unauthorized(InvalidDpopProof));
      }
      if !i.proof.verifies {
        return Result.Failure(Unauthorized(InvalidDpopProof));
      }
      var payload := i.proof.claims;
      if payload.htm != Some(i.expectedHtm) || payload.htu != Some(i.expectedHtu) {
        return Result.Failure(Unauthorized(DpopBindingMismatch));
      }
      var skew := (m.checkMs / 1000) as real - payload.iat;
      if (if skew < 0.0 then -skew else skew) > cfg.tolerance as real {
        return Result.Failure(Unauthorized(DpopProofExpired));
      }
      if i.expectAth {
        if i.accessToken.None? {
          return Result.Failure(Plain);
        }
        if payload.ath != Some(crypto.sha256(i.accessToken.value)) {
          return Result.Failure(Unauthorized(DpopTokenMismatch));
        }
      }
      if cfg.requireNonce {
        if !cfg.hasNonceStore {
          return Result.Failure(Plain);
        }
        if payload.nonce == "" {
          var failure := IssueChallenge(m);
          return Result.Failure(failure);
        }
        var consumed := nonces.Consume(payload.nonce, m.consumeMs);
        if !consumed {
          var failure := IssueChallenge(m);
          return Result.Failure(failure);
        }
      }
      if payload.jti == "" {
        return Result.Failure(Unauthorized(InvalidDpopProof));
      }
      var stored := redis.SetNx(cfg.jtiPrefix + payload.jti, R.Mark, cfg.jtiTtl, m.recordMs);
      if !stored {
        return Result.Failure(Unauthorized(DpopNonceReuse));
      }
      var thumbprint := crypto.thumbprint(i.proof.jwk.value);
      if i.requireCnf && (i.expectedJkt.None? || i.expectedJkt.value == "") {
        return Result.Failure(Unauthorized(DpopKeyMismatch));
      }
      if i.expectedJkt.Some? && i.expectedJkt.value != "" && i.expectedJkt.value != thumbprint {
        return Result.Failure(Unauthorized(DpopKeyMismatch));
      }
      return Success(Verified(payload.jti, thumbprint, payload.iat));
    }
  }
}
