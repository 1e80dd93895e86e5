/** Signature keys fetched from an issuer and cached, and the checker that refreshes
    them once when a signature does not verify. */
module Jwks {
  import opened Wrappers
  import opened Dpop

  datatype Key = Key(kid: string, material: nat)

  // What verifying the token under a key reports; expiry is only seen under the right key.
  datatype Verdict = Good | Expired | BadSignature | OtherFault

  // An empty key id counts as none.
  predicate Names(kid: Option<string>) {
    kid.Some? && kid.value != ""
  }

  // keys.find(k => k.kid === kid), or the first key when the token names none
  function Pick(keys: seq<Key>, kid: Option<string>): Option<Key> {
    if keys == [] then None
    else if !Names(kid) || keys[0].kid == kid.value then Some(keys[0])
    else Pick(keys[1..], kid)
  }

  // The first key that fits, if any does.
  predicate Fits(k: Key, kid: Option<string>) {
    Names(kid) ==> k.kid == kid.value
  }

  lemma {:induction false} PickIsFirst(keys: seq<Key>, kid: Option<string>)
    ensures Pick(keys, kid).Some? ==>
              exists n :: && 0 <= n < |keys| && Pick(keys, kid) == Some(keys[n]) && Fits(keys[n], kid)
                          && forall m :: 0 <= m < n ==> !Fits(keys[m], kid)
    ensures Pick(keys, kid).None? <==> forall k :: k in keys ==> !Fits(k, kid)
  {
    if keys != [] {
      if Fits(keys[0], kid) {
        assert Pick(keys, kid) == Some(keys[0]);
      } else {
        PickIsFirst(keys[1..], kid);
        if Pick(keys[1..], kid).Some? {
          var n :| && 0 <= n < |keys[1..]| && Pick(keys[1..], kid) == Some(keys[1..][n]) && Fits(keys[1..][n], kid)
                   && forall m :: 0 <= m < n ==> !Fits(keys[1..][m], kid);
          assert keys[n + 1] == keys[1..][n];
          assert forall m :: 0 < m < n + 1 ==> keys[m] == keys[1..][m - 1];
        }
      }
    }
  }

  class Manager {
    const ttlMs: nat
    var cached: Option<seq<Key>>
    var cachedAtMs: int

    constructor (ttlMs: nat)
      ensures this.ttlMs == ttlMs && cached.None?
    {
      this.ttlMs, cached, cachedAtMs := ttlMs, None, 0;
    }

    // `published` is what the issuer serves during the call, or nothing if the fetch fails.
    method GetKeys(force: bool, nowMs: int, published: Option<seq<Key>>) returns (keys: Option<seq<Key>>, fetched: bool)
      modifies this
      ensures fetched <==> force || old(cached.None? || nowMs - cachedAtMs > ttlMs)
      ensures fetched ==> keys == published
      ensures !fetched ==> keys == old(cached)
      ensures cached == (if fetched && published.Some? then published else old(cached))
      ensures cachedAtMs == if fetched && published.Some? then nowMs else old(cachedAtMs)
    {
      if cached.None? || force || nowMs - cachedAtMs > ttlMs {
        if published.None? {
          return None, true;
        }
        cached, cachedAtMs := published, nowMs;
        return published, true;
      }
      return cached, false;
    }
  }

  /** The signature part of a token check: find the key, verify, and on a bad signature
      refresh the keys and verify once more. Succeeding keys come from the cache or from
      the issuer; a key the issuer publishes is found whatever the cache holds, unless
      the cached key of that id reports another fault first. */
  method VerifySignature(manager: Manager, kid: Option<string>, verify: Key -> Verdict, nowMs: int,
                         published: Option<seq<Key>>) returns (r: Result<Key, Code>, fetches: nat)
    modifies manager
    ensures fetches <= 3
    ensures r.Success? ==>
              verify(r.value) == Good && (Names(kid) ==> r.value.kid == kid.value) &&
              exists keys :: (Some(keys) == old(manager.cached) || Some(keys) == published)
                             && Pick(keys, kid) == Some(r.value)
    ensures r.Failure? ==> r.error == InvalidToken || r.error == TokenExpired
    ensures published.Some? && Pick(published.value, kid).Some? && verify(Pick(published.value, kid).value) == Good
            && (old(manager.cached.Some?) && Pick(old(manager.cached).value, kid).Some? ==>
                  verify(Pick(old(manager.cached).value, kid).value) in {Good, BadSignature})
            ==> r.Success?
    // With keys in the cache, a good or expired token is settled without the issuer.
    ensures old(manager.cached.Some? && nowMs - manager.cachedAtMs <= manager.ttlMs)
            && Pick(old(manager.cached).value, kid).Some? ==>
              var key := Pick(old(manager.cached).value, kid).value;
              && (verify(key) == Good ==> r == Success(key) && fetches == 0)
              && (verify(key) == Expired ==> r == Result.Failure(TokenExpired) && fetches == 0)
              && (verify(key) == OtherFault ==> r == Result.Failure(InvalidToken) && fetches == 0)
              && (verify(key) == BadSignature ==>
                    && fetches == 1
                    && (r.Success? <==> published.Some? && Pick(published.value, kid).Some?
                                        && verify(Pick(published.value, kid).value) == Good))
    // With none of that id anywhere, or no keys to be had, it is refused.
    ensures (published.None? || Pick(published.value, kid).None?)
            && (old(manager.cached).Some? ==> Pick(old(manager.cached).value, kid).None?)
            ==> r == Result.Failure(InvalidToken)
    ensures r.Failure? && r.error == TokenExpired ==>
              exists keys :: (Some(keys) == old(manager.cached) || Some(keys) == published)
                             && Pick(keys, kid).Some? && verify(Pick(keys, kid).value) == Expired
  {
    fetches := 0;
    var keys, fetched := manager.GetKeys(false, nowMs, published);
    fetches := fetches + if fetched then 1 else 0;
    if keys.None? {
      return Result.Failure(InvalidToken), fetches;
    }
    var key := Pick(keys.value, kid);
    if key.None? {
      keys, fetched := manager.GetKeys(true, nowMs, published);
      fetches := fetches + 1;
      if keys.None? {
        return Result.Failure(InvalidToken), fetches;
      }
      key := Pick(keys.value, kid);
      if key.None? {
        return Result.Failure(InvalidToken), fetches;
      }
    }
    PickIsFirst(keys.value, kid);
    var verdict := verify(key.value);
    if verdict == Good {
      return Success(key.value), fetches;
    }
    if verdict == Expired {
      return Result.Failure(TokenExpired), fetches;
    }
    if verdict == BadSignature {
      keys, fetched := manager.GetKeys(true, nowMs, published);
      fetches := fetches + 1;
      if keys.None? {
        return Result.Failure(InvalidToken), fetches;
      }
      var refreshed := Pick(keys.value, kid);
      if refreshed.Some? {
        PickIsFirst(keys.value, kid);
        verdict := verify(refreshed.value);
        if verdict == Good {
          return Success(refreshed.value), fetches;
        }
        return Result.Failure(if verdict == Expired then TokenExpired else InvalidToken), fetches;
      }
    }
    return Result.Failure(InvalidToken), fetches;
  }
}
