# Verified model of the DPoP and token-exchange stack

This project models, in Dafny, the stateful core of a service-to-service identity stack: the DPoP proof
verifier (RFC 9449) with its nonce store, the token broker (RFC 8693 token exchange), the receiving
service's admission check, the two-level token cache with its provider fallback, the signed-envelope
queue consumer, local Cedar evaluation behind a decision cache, and the key and secret caches. It
proves what they guarantee over all inputs, all runs and all interleavings.

Run `dafny verify dfyconfig.toml` in this directory.

## How the model is built

- Code that changes things step by step is imperative here too: `Redis.Server`, `Dpop.Verifier`,
  `Dpop.NonceStore`, `Broker.TokenEndpoint`, `Receiver.Middleware`, `TokenCache.Cache`,
  `Acquire.Acquirer`, `Authorize.Authorizer`, `KeyManager.Manager`, `SigningKey.SecretCache`,
  `SigningKey.Loader` and `Jwks.Manager` are classes; the batch loop, the retry loop, the policy loop
  and the chain walks are methods with loops. Each is proved against a function of the old state, and
  the properties are proved about those functions. What each main operation answers, refusals included, is
  also stated without its steps, by the fields of the request and what it meets
  (`DpopAcceptance.VerdictExactly`, `BrokerAnswers.AnswerExactly`, `Broker.SubjectExactly`,
  `Receiver.AdmissionExactly`, `Acquire.AcquireExactly`, `Envelope.VerifiedExactly`).
- Where calls can interleave at an await there is a transition system beside the class (`DpopProtocol`,
  `EnvelopeRuns`, `SharedCache`, `Authorize`, `SigningKey`): any number of calls, each parked at an await, a
  clock that only moves forward, and other clients writing to the same Redis. A lemma
  shows that what the code of one call does with nothing in between is one of the runs, with the same answer
  and state (`DpopProtocol.UndisturbedIsARun`, `EnvelopeRuns.HandleIsARun`, `SharedCache.SetIsARun`,
  `SharedCache.GetIsARun`, `SharedCache.GetStaleIsARun`, `Authorize.CallIsARun`, `SigningKey.GetIsARun`,
  `SigningKey.InvalidateIsARun`).
- Redis is a map from keys to values with an expiry; a record is alive while the clock is below its
  expiry, and an expired record answers every command as if absent (real Redis answers DEL of an expired
  key with 0).
- Signatures, hashes, thumbprints, base64 and `String(v)` of non-text JSON are function parameters. A
  token that verifies under the broker's keys is one the broker minted, and a minted token reads back as
  the claims signed; these two facts are hypotheses of the broker's runs (`BrokerRuns.Signed`), together
  with the broker and the user issuer having different URLs (`BrokerRuns.EndpointHistoryIsARun`).
  `CacheKey.KeyExact` assumes that the hash does not collide on the two scope lists compared.
- `iat` and the other numeric dates may be fractional; clock readings are milliseconds, floored to
  seconds as in the code.

## Results that correct an expectation

- **Replay window.** A proof stays timely for up to 2*tolerance+1 whole seconds, so its record must live
  that long plus the delay between check and record. The bound is exact
  (`DpopReplay.ReplayFreeExactly`); the defaults of 120 s and 60 s fall one second short of it
  (`DpopReplay.DefaultsAreOneSecondShort`). With required, fresh nonces the record's lifetime does not
  matter (`DpopNonces.NoncesPreventReplay`).
- **Envelope dedup.** Staleness has no lower bound, so what a record must outlive grows with how far ahead
  an envelope is dated, and no record outlives every date (`EnvelopeRuns.FutureDatesOutliveDedup`). For each
  lead the exact bound is `EnvelopeRuns.ProcessedOnceExactly`; for envelopes not dated ahead, with the default
  24 h record, only the dead-letter threshold of 24 h misses it.
- **Decision cache.** It agrees with the engine exactly when the decision depends on the cache key alone
  (`Authorize.TransparentExactly`). With the local engine, a policy that reads scopes or context shows through
  it, and so does one that names a principal but no action: ("u", "a:b", "r") and ("u:a", "b", "r") share a
  key (`Authorize.LocalIsTransparentExactly`).
- **Cache key.** Scopes are joined with commas before hashing, so a scope that contains a comma, which the code
  accepts, shares its key with the scopes it looks like (`CacheKey.CommasCollide`); `CacheKey.KeyExact` says
  which lists meet.
- **Next acquire.** A granted token is found again under the requested scopes exactly when the key does not
  tell the two lists apart, which for scopes without commas means permutations (`Acquire.NextAcquireHits`).
- **Invalidation.** Invalidating the signing key takes effect at once exactly when no load in flight both rests
  on an earlier fetch and can still finish in time or leave a secret that is still good
  (`SigningKey.InvalidateExactly`).
- **Documentation.** `docs/architecture.md` gives the chain seen at D as [C, A]; the code yields the oldest
  actor first, [A, C], and the model follows the code. A test title in
  `packages/auth-library/test/token/tokenCache.test.ts` speaks of a record lifetime of expiry minus 30 s;
  the code writes the whole remaining lifetime, as modelled.

## Model

| member | source | states |
|---|---|---|
| `Redis.Server.SetNx` | packages/auth-library/test/helpers/redisMock.ts:25-37 | SET EX NX succeeds exactly when no live record exists, and then replaces any dead one with the full lifetime |
| `Redis.Server.Get` | packages/auth-library/test/helpers/redisMock.ts:21-23 | GET answers the value of a live record and nothing for a dead or absent one |
| `Redis.Server.Del` | packages/auth-library/test/helpers/redisMock.ts:39-41 | DEL reports 1 only for a live record (as real Redis does) and removes it |
| `Keyspace.DeployedPrefixesSeparate` | packages/token-broker/src/lib/exchangeProofVerifier.ts:37-43 | none of the seven key prefixes of the deployment begins another |
| `Keyspace.SharedRefinesPrivate` | packages/auth-library/src/dpop/verifyDPoP.ts:67 | over every request history, each client of a shared Redis gets the replies and leaves the records of a Redis of its own |
| `Keyspace.DeploymentRefinesPrivate` | packages/token-broker/src/lib/replayStore.ts:16-32 | the same for the deployed prefixes and every suffix |
| `Dpop.NonceStore.Issue` | packages/auth-library/src/dpop/dpopNonce.ts:19-22 | issuing fails, leaving the earlier record, exactly on a live collision |
| `Dpop.NonceStore.Consume` | packages/auth-library/src/dpop/dpopNonce.ts:23-26 | a nonce is consumed once, while alive, and is gone afterwards |
| `Dpop.Verifier.IssueChallenge` | packages/auth-library/src/dpop/verifyDPoP.ts:69-75 | a challenge carries the new nonce and a collision is swallowed |
| `Dpop.Verifier.Verify` | packages/auth-library/src/dpop/verifyDPoP.ts:77-172 | the checks in code order, with their error codes and Redis effects; success means a verified signature, the key's own thumbprint and a record of full lifetime |
| `DpopAcceptance.VerdictExactly` | packages/auth-library/src/dpop/verifyDPoP.ts:77-172 | the whole verdict by the fields of the proof: which error the first fault gives, a challenge with a stored nonce for a missing or dead one, and what each outcome leaves in Redis |
| `DpopAcceptance.DeadNonceIsChallenged` | packages/auth-library/src/dpop/verifyDPoP.ts:138-143 | an expired or used nonce is answered with a fresh one, alive for its full lifetime, and no jti record changes |
| `DpopAcceptance.AcceptedExactly` | packages/auth-library/src/dpop/verifyDPoP.ts:88-170 | a request is accepted if and only if it is in order, presents a live nonce where required, its jti has no live record and its key is the token's |
| `DpopAcceptance.AcceptedOnRun` | packages/auth-library/src/dpop/verifyDPoP.ts:88-170 | on every interleaved run an accepted call brought an orderly request that was timely when it was checked, and yields that request's result |
| `DpopProtocol.UndisturbedIsARun` | packages/auth-library/src/dpop/verifyDPoP.ts:114-156 | the code of one call is a run of the interleaved protocol, with the same verdict and store |
| `DpopReplay.WindowWidth` | packages/auth-library/src/dpop/verifyDPoP.ts:114-120 | two timely checks of one iat lie less than 2*tolerance+1 seconds apart |
| `DpopReplay.RecordStillAlive` | packages/auth-library/src/dpop/verifyDPoP.ts:150-156 | a second attempt within the window always meets the live record of the first |
| `DpopReplay.RecordsPreventReplay` | packages/auth-library/src/dpop/verifyDPoP.ts:114-156 | over every interleaving with step delay at most d, one proof is accepted at most once if the record outlives the window plus d |
| `DpopReplay.ReplayFreeExactly` | packages/auth-library/src/dpop/verifyDPoP.ts:63-156 | without nonces that condition is necessary as well: replay freedom holds if and only if ttl*1000 >= (2*tolerance+1)*1000 + d |
| `DpopReplay.DefaultsAreOneSecondShort` | packages/token-broker/src/lib/exchangeProofVerifier.ts:37-43 | the exchange verifier's 120 s record for 60 s tolerance is replay-free only from 121 s on |
| `DpopNonces.NonceLedger` | packages/auth-library/src/dpop/dpopNonce.ts:18-27 | on every interleaving, consumptions of a nonce never outnumber its issues and each falls within the lifetime of an issue |
| `DpopNonces.AcceptancesWithinIssues` | packages/auth-library/src/dpop/verifyDPoP.ts:133-145 | with nonces required, no more proofs carrying n are accepted than n was issued, for any record TTL and delay |
| `DpopNonces.NoncesPreventReplay` | packages/auth-library/src/dpop/verifyDPoP.ts:133-156 | with fresh nonces a proof is accepted by at most one call |
| `DpopNonces.DeployedReceiverAcceptsOnce` | examples/chained/receiving-service/src/lib/brokerAuthMiddleware.ts:310-315 | the receiver as deployed never accepts one proof twice, whatever its jti TTL |
| `DpopHandshake.ChallengeLeavesNoRecord` | packages/auth-library/src/dpop/verifyDPoP.ts:133-150 | on every run a challenged call has recorded no jti |
| `DpopHandshake.FirstIsChallenged` | packages/auth-library/src/dpop/verifyDPoP.ts:69-145 | on every run, with anything between its steps, a request in order whose nonce is missing, spent or expired can only be challenged, leaves no jti record, and carries the nonce its challenge step handed out, even when that nonce could not be stored |
| `DpopHandshake.HandshakeCompletes` | packages/auth-library/src/dpop/verifyDPoP.ts:133-170 | on every run after a challenge issued n, with anything between its steps, an orderly request presenting n is never refused and is accepted by its last step, if its check is timely, its nonce step precedes the expiry, and nobody else presents n or its jti |
| `DpopHandshake.AlwaysCanFinish` | packages/auth-library/src/dpop/verifyDPoP.ts:133-170 | nor is it ever stuck: from wherever it stands its own steps lead to acceptance |
| `DpopHandshake.ClientSucceedsInTwo` | packages/auth-library/src/dpop/withDPoPNonceRetry.ts:11-25 | client and server together: exactly two requests, the second accepted, no jti record from the first |
| `DpopHandshake.RetriesExactly` | packages/auth-library/src/dpop/withDPoPNonceRetry.ts:11-25 | the wrapper asks again exactly after a challenge that carries a nonce, once, with that nonce, and reports the last answer |
| `DpopHandshake.PostLedgerEntry` | examples/chained/receiving-service/src/lib/ledgerClient.ts:175-188 | one or two requests, the second only after a 401 with a nonce and carrying it; the last answer decides |
| `Text.WordsAreTheText` | packages/token-broker/src/routes/token.ts:80-82 | a list is the parse of a scope text if and only if the text is these words between gaps of whitespace, non-empty between words |
| `Text.WordsJoin` | packages/token-broker/src/routes/token.ts:80-82 | parsing undoes joining for every list of words |
| `Text.SpacesAre` | packages/token-broker/src/routes/token.ts:80-82 | the characters scopes are cut at |
| `Tokens.ScopesSurvive` | packages/auth-library/src/validation/validateToken.ts:104-112 | the receiver's split of the scope claim gives back exactly the requested list |
| `Tokens.ValidateTokenExactly` | packages/auth-library/src/validation/validateToken.ts:88-121 | the receiver accepts a token exactly by signer, numeric dates, nbf, exp, one exact audience and issuer, with the error of the first fault, and reads this key and these scopes from it |
| `Tokens.ValidateUserTokenExactly` | packages/auth-library/src/auth/validateUserToken.ts:38-153 | a user token is accepted exactly by signer, numeric dates, nbf, exp, issuer and an audience that is the expected text or a list with it; roles and groups of list, text and other claims |
| `Json.StringsFilters` | packages/auth-library/src/auth/validateUserToken.ts:39-42 | a list claim yields its texts in order and skips everything else |
| `Tokens.ExtractCustomClaims` | packages/auth-library/src/auth/validateUserToken.ts:57-63 | the loop keeps exactly the claims that are not reserved |
| `ActorChain.ReadersAgree` | packages/auth-library/src/auth/extractActorChain.ts:7-30 | broker and receiver read the same chain from every claim set, well-formed or not |
| `ActorChain.ReadChainsAreNamed` | packages/token-broker/src/lib/subjectTokenValidator.ts:41-50 | no chain that is read contains an empty actor name |
| `ActorChain.ReadBack` | packages/auth-library/src/auth/extractActorChain.ts:7-17 | reading a written chain cuts it at the first empty name |
| `ActorChain.ReadBackWhole` | packages/auth-library/src/auth/extractActorChain.ts:26-30 | reading gives the chain back if and only if every name is non-empty |
| `ActorChain.ActorChainAsString` | examples/chained/receiving-service/src/lib/brokerAuthMiddleware.ts:56-68 | the walk lists the chain oldest actor first |
| `ActorChain.ChainDepth` | examples/chained/receiving-service/src/lib/brokerAuthMiddleware.ts:70-79 | the walk counts the actors, 0 only for no chain |
| `BrokerRuns.ChainListsActors` | packages/token-broker/src/lib/tokenMinter.ts:30-34 | actors a1..an exchanging in turn compose a chain that flattens to [a1..an] |
| `Broker.BasicAuthExactly` | packages/token-broker/src/routes/token.ts:57-72 | client and secret are returned if and only if the decoded header is them around its first colon, both non-empty |
| `Broker.TextFieldExactly` | packages/token-broker/src/routes/token.ts:74-78 | a form field counts exactly if it is a non-empty text of an object body |
| `Broker.TrimExactly` | packages/token-broker/src/routes/token.ts:57-59 | trimming the credentials takes the whitespace off both ends and nothing else |
| `Broker.SubjectExactly` | packages/token-broker/src/lib/subjectTokenValidator.ts:74-158 | a subject token is good exactly if it is a live broker token that names this or some audience, or a live user token for the configured audience; and which subject each yields |
| `Broker.ReentryAudienceIsOpen` | packages/token-broker/src/lib/subjectTokenValidator.ts:78-127 | a re-entering token passes if and only if it verifies, is live, names the broker and names the requested or any audience of its own |
| `Broker.TokenEndpoint.Post` | packages/token-broker/src/routes/token.ts:86-290 | the handler answers and changes Redis as the staged exchange does: status and error of the first failing stage, or the grant |
| `BrokerAnswers.AnswerExactly` | packages/token-broker/src/routes/token.ts:86-290 | the answer to every request: each status and error by the first unmet condition, 500 without a signing key, otherwise the token with exactly the requested scopes; only then is its jti claimed |
| `BrokerAnswers.GrantedExactly` | packages/token-broker/src/routes/token.ts:139-278 | a token is handed out if and only if body, credentials, proof, subject token, audience and scopes are good, the key loads and the fresh jti is unclaimed |
| `BrokerRuns.SubjectBySigner` | packages/token-broker/src/lib/subjectTokenValidator.ts:74-158 | validation yields the user of a user-signed token without a chain, or re-entry for a broker-signed one, and nothing else |
| `BrokerRuns.ReentryReads` | packages/token-broker/src/lib/subjectTokenValidator.ts:129-148 | re-entry recovers the subject, roles, groups and user issuer that the token names |
| `BrokerRuns.MintedReadsBack` | packages/token-broker/src/lib/tokenMinter.ts:36-63 | the signed claims read back: the chain with the new actor outermost, the user, the proof key, the exact scope list, audience, issuer and expiry |
| `BrokerRuns.SubjectContinues` | packages/token-broker/src/lib/subjectTokenValidator.ts:122-158 | the validated subject carries the user and the whole chain of the lineage its token stands for |
| `BrokerRuns.HopIsVouched` | packages/token-broker/src/routes/token.ts:235-252 | a granted token extends the lineage of the very subject token its request presented and states it: chain, user, proof key, requested scopes and audience, issuer and expiry |
| `BrokerRuns.GrantsAreApproved` | packages/token-broker/src/routes/token.ts:139-231 | over every history of requests, each grant went to an actor that authenticated, proved the key recorded, presented a live subject token, and was for exactly the audience and scope list it requested, within its catalog lists |
| `BrokerRuns.EndpointHistoryIsARun` | packages/token-broker/src/routes/token.ts:86-278 | every history of requests served in turn is a run of the broker, given sound signatures and two different issuers |
| `BrokerRuns.OverlappingHistoryIsARun` | packages/token-broker/src/routes/token.ts:173-252 | and so are handlers that overlap, with their verifier calls interleaved at every await |
| `BrokerRuns.EveryTokenDescendsFromAUser` | packages/token-broker/src/routes/token.ts:139-252 | on every run each minted token descends by finitely many exchanges from a user-issued token; each hop presented the token before it, unexpired, proved a key, and got the audience and scopes it requested within its actor's lists |
| `BrokerRuns.ChainAndPrincipalSurvive` | packages/token-broker/src/lib/tokenMinter.ts:30-63 | on every run the n-th token reads as [a1..an] with depth n, and subject, roles, groups and user issuer are the original user's |
| `BrokerRuns.EndpointTokensTellTheirLineage` | packages/token-broker/src/routes/token.ts:86-278 | both results over every history of requests to the endpoint, refused ones included, with only the facts about signatures assumed; the scope claim reads back as the list requested |
| `Receiver.Middleware.BrokerAuth` | examples/chained/receiving-service/src/lib/brokerAuthMiddleware.ts:141-291 | the admission path: which check answers with which status and code, and what is attached on success |
| `Receiver.AdmissionExactly` | examples/chained/receiving-service/src/lib/brokerAuthMiddleware.ts:141-291 | the verdict on every request: code and nonce of each refusal in order, and what is attached on success |
| `Receiver.AdmittedExactly` | examples/chained/receiving-service/src/lib/brokerAuthMiddleware.ts:162-283 | a request gets through if and only if its token has no fault, its proof is acceptable under the key the token names, the chain has one to five actors and the engine allows the query |
| `Receiver.AdmittedMeans` | examples/chained/receiving-service/src/lib/brokerAuthMiddleware.ts:162-185 | an admitted request proved, in time and by a verified signature for this token, method and address, the key its token names |
| `Receiver.AdmissionIsSound` | examples/chained/receiving-service/src/lib/brokerAuthMiddleware.ts:162-283 | end to end: an admitted token was minted for the very key now proved by a verified proof (its last hop's), is live, for this audience and issuer, with 1 to 5 actors, and was allowed with its lineage's identity and scopes |
| `Receiver.VouchedIsAdmitted` | examples/chained/receiving-service/src/lib/brokerAuthMiddleware.ts:162-283 | the other way round: a token with a lineage of up to five actors, in time and at its audience, gets through under an acceptable proof by its last hop's key and an ALLOW |
| `Receiver.MiddlewareIsSound` | examples/chained/receiving-service/src/lib/brokerAuthMiddleware.ts:141-291 | the same of the middleware's own verdict, on any store and at any times, after any history of requests to the broker's endpoint |
| `Receiver.MiddlewareIsSoundBeside` | examples/chained/receiving-service/src/lib/brokerAuthMiddleware.ts:141-291 | the same in any company: overlapping handlers at the broker, and other verifier calls between the awaits of this one at the receiver |
| `Receiver.AdmittedWasAllowed` | examples/chained/receiving-service/src/lib/brokerAuthMiddleware.ts:228-266 | an admission rests on an ALLOW of the engine less than the TTL old for a question with the same cache key, and for its own question if the engine is steady and decides by the key |
| `Receiver.OwnKeysTell` | examples/chained/receiving-service/src/lib/brokerAuthMiddleware.ts:224-228 | the middleware's questions share a key only for the same principal, action and resource, as long as no subject has a colon |
| `CacheKey.SortCanonical` | packages/auth-library/src/token/tokenCache.ts:9 | sorting forgets the order of the scopes and nothing else |
| `CacheKey.KeyExact` | packages/auth-library/src/token/tokenCache.ts:8-12 | two keys are equal if and only if the clients are and the sorted scope lists agree between the commas; for non-empty comma-free scopes, if and only if client and scope multiset are equal |
| `CacheKey.CommasCollide` | packages/auth-library/src/token/tokenCache.ts:9-11 | a scope with a comma shares its key with the two scopes it looks like |
| `TokenCache.Cache.Set` | packages/auth-library/src/token/tokenCache.ts:44-55 | both levels hold the entry; the record lives for the remaining lifetime, at least a second |
| `TokenCache.Cache.Get` | packages/auth-library/src/token/tokenCache.ts:57-85 | the lookup with its promotions, evictions and counters |
| `TokenCache.CountersTell` | packages/auth-library/src/token/tokenCache.ts:57-85 | one L1 counter per lookup and one L2 counter per L1 miss, by where the answer came from |
| `TokenCache.RecordOutlivesFreshness` | packages/auth-library/src/token/tokenCache.ts:50-54 | evicting L1 never loses a fresh entry |
| `TokenCache.CacheRefinesPlainMap` | packages/auth-library/src/token/tokenCache.ts:44-85 | over every operation sequence of one process the answers are those of a map of last values filtered by freshness, and the counters add up |
| `TokenCache.StaleBound` | packages/auth-library/src/token/tokenCache.ts:87-93 | in one process with sets in one step, a stale answer is the last value set, at most one second past the later of its expiry and its setting |
| `SharedCache.AnswersWereSetAndFresh` | packages/auth-library/src/token/tokenCache.ts:44-93 | with several processes and split awaits, an answer was set under that key; a fresh one was fresh when the call began, a stale one meets the stale bound with the delay of the write added |
| `SharedCache.GetIsARun` | packages/auth-library/src/token/tokenCache.ts:57-85 | a lookup of the cache class with nothing in between is one of these runs, with the same answer and the same two levels |
| `Acquire.Acquirer.Acquire` | packages/auth-library/src/token/acquireToken.ts:37-78 | cache first unless forced, then the provider, then a stale entry |
| `Acquire.NextAcquireHits` | packages/auth-library/src/token/acquireToken.ts:41-65 | after a miss served by the provider, and any operations that do not set that key, the same request hits if and only if the token is fresh and the key does not tell granted from requested scopes; for comma-free scopes, if and only if they are permutations |
| `Acquire.AcquireExactly` | packages/auth-library/src/token/acquireToken.ts:37-78 | the answer to every call: a fresh last token unless forced, else the grant dated by the clock then, else the last token while its record lives, else the failure |
| `Acquire.FallbackExactly` | packages/auth-library/src/token/acquireToken.ts:66-72 | with the provider failing, the last token is served exactly until its record runs out |
| `Acquire.GrantLeaves` | packages/auth-library/src/token/acquireToken.ts:52-65 | a granted token is the last one set under the granted scopes |
| `Acquire.FallbackWithinBound` | packages/auth-library/src/token/acquireToken.ts:66-75 | what is served when the provider fails is the last token set, within the stale bound; with none set the call fails |
| `Retry.AcquireTokenWithRetry` | packages/auth-library/src/token/acquireTokenRetry.ts:10-31 | at most maxRetries+1 calls, retrying only 429 and 5xx, each sleep at least its backoff and below twice it; the last throw is reached only for negative maxRetries |
| `Retry.BackoffDoubles` | packages/auth-library/src/token/acquireTokenRetry.ts:25-27 | the backoff starts at the base delay and doubles up to the maximum |
| `Retry.SleepBelowGeometric` | packages/auth-library/src/token/acquireTokenRetry.ts:25-27 | the total sleep over n > 0 retries is below 2*base*(2^n-1) |
| `Retry.SleepBelowLinear` | packages/auth-library/src/token/acquireTokenRetry.ts:25-27 | and below 2*n*max |
| `Envelope.VerifyEnvelope` | packages/auth-library/src/envelope/verifyEnvelope.ts:30-65 | success means signature, queue, body hash and age were right and, unless skipped, the jti had no live record |
| `Envelope.VerifiedExactly` | packages/auth-library/src/envelope/verifyEnvelope.ts:30-65 | an envelope passes exactly if signed, for this queue, with this body, not older than the threshold and without a live jti record, which it then leaves for the full lifetime |
| `Envelope.HandleExactly` | examples/chained/receiving-service/src/consumers/sqsConsumer.ts:14-40 | which message counts as processed, denied, deleted or left |
| `Envelope.ProcessOneBatch` | examples/chained/receiving-service/src/consumers/sqsConsumer.ts:13-41 | the counters and deletes of a batch, message by message in order; deletes = messages - failed, and processed + denied + failed = messages + deletes that threw |
| `Envelope.BatchAccounting` | examples/chained/receiving-service/src/consumers/sqsConsumer.ts:13-41 | why: each message is deleted or left, and counted once, or twice when its delete threw |
| `EnvelopeRuns.HandleIsARun` | examples/chained/receiving-service/src/consumers/sqsConsumer.ts:13-41 | handling one readable message with nothing in between is one of the runs below, with the same fate and records |
| `EnvelopeRuns.ProcessedOnceExactly` | packages/auth-library/src/envelope/verifyEnvelope.ts:47-57 | over every delivery schedule each envelope dated at most lead s ahead at its first check counts at most once, whatever the others are dated, if and only if ttl*1000 >= (threshold+lead+1)*1000 + delay |
| `EnvelopeRuns.FutureDatesOutliveDedup` | packages/auth-library/src/envelope/verifyEnvelope.ts:47-52 | for every dedup TTL some lead is too much |
| `EnvelopeRuns.DefaultsSafeExceptDlq` | packages/auth-library/src/envelope/verifyEnvelope.ts:6-11 | the default TTL is enough for every queue type except the dead-letter queue |
| `EnvelopeRuns.DefaultsNeed` | packages/auth-library/src/envelope/verifyEnvelope.ts:6-11 | the shortest safe TTL for each queue type is its default threshold and one second |
| `EnvelopeRuns.RedeliveryFails` | packages/auth-library/src/envelope/verifyEnvelope.ts:53-57 | a redelivery inside the dedup window of a verified envelope always fails |
| `Cedar.Evaluate` | packages/auth-library/src/authz/cedarLocal.ts:46-60 | allowed if and only if some permit and no forbid matches; reasons are the matching ids in order |
| `Cedar.MismatchExactly` | packages/auth-library/src/authz/cedarLocal.ts:25-42 | a policy fails to match exactly for another party, a missing scope, no excepted scope missing, or context that is missing, different or structured |
| `Cedar.OrderIrrelevant` | packages/auth-library/src/authz/cedarLocal.ts:51-57 | the decision does not depend on the order of the policies |
| `Cedar.ForbidOnlyDenies` | packages/auth-library/src/authz/cedarLocal.ts:54-57 | inserting a forbid anywhere denies exactly the queries it matches |
| `Cedar.MoreScopesNeverDeny` | packages/auth-library/src/authz/cedarLocal.ts:29-35 | extra scopes keep ALLOW when every permit that can match has no unless and every forbid that can match asks for no scopes |
| `Cedar.ScopesDenyExactly` | packages/auth-library/src/authz/cedarLocal.ts:29-35 | and policy by policy that condition is necessary: any other permit, or forbid beside a permit for everything, has a query that more scopes turn from ALLOW to DENY |
| `Authorize.Authorizer.Authorize` | packages/auth-library/src/authz/authorize.ts:57-108 | a hit answers the stored decision; a miss asks the engine and stores only what it answered |
| `Authorize.CallIsARun` | packages/auth-library/src/authz/authorize.ts:57-108 | a call of the authorizer with nothing in between is one of the runs below, with the same cache and answer |
| `Authorize.AnswersAreRecent` | packages/auth-library/src/authz/authorize.ts:60-64 | on every interleaving, and however the engine changes its mind, an answer is a decision it made for the same key less than the TTL earlier |
| `Authorize.TransparentExactly` | packages/auth-library/src/authz/authorize.ts:60-64 | with a steady engine the cache is invisible if and only if the decision is a function of the key |
| `Authorize.LocalIsTransparent` | packages/auth-library/src/authz/authorize.ts:60-64 | with the local engine the cache is invisible if every policy that can match reads neither scopes nor context and names nothing, or principal, action and resource without a colon |
| `Authorize.LocalIsTransparentExactly` | packages/auth-library/src/authz/authorize.ts:60-64 | and for a single policy that condition is necessary: any other shows through the cache, by its scopes, its context or a colon that moves between the parts of the key |
| `KeyManager.Manager.GetActiveKeys` | packages/auth-library/src/dpop/keyManager.ts:75-84 | lists the current key and the previous one inside its window, dropping it otherwise |
| `KeyManager.ListsRefineHistory` | packages/auth-library/src/dpop/keyManager.ts:49-84 | on every run the list is the current key plus exactly the most recently retired one if it retired under two hours ago |
| `KeyManager.DroppedNeverReturns` | packages/auth-library/src/dpop/keyManager.ts:75-84 | a key that is no longer listed is never listed again |
| `KeyManager.DisciplineKeepsWindows` | packages/auth-library/src/dpop/keyManager.ts:86-89 | rotating only when due never cuts an overlap window short |
| `SigningKey.SecretCache.GetClientSecret` | packages/auth-library/src/secrets.ts:29-53 | a secret is served from the cache under its TTL, otherwise fetched and dated at the start of the fetch; a failed fetch changes nothing |
| `SigningKey.Loader.Get` | packages/token-broker/src/lib/signingKeyLoader.ts:40-79 | answer and both caches exactly: a key under its TTL is reused, otherwise it is loaded from a secret under its TTL or fetched now; a failed load keeps the cached key and any secret it fetched |
| `SigningKey.GetIsARun` | packages/token-broker/src/lib/signingKeyLoader.ts:40-79 | a call of the loader with nothing in between is one of the runs below, with the same caches and answer |
| `SigningKey.StalenessAdds` | packages/token-broker/src/lib/signingKeyLoader.ts:40-84 | over any overlapping loads a key served at t rests on a fetch begun after t - (keyTtl + secretTtl + load time) |
| `SigningKey.InvalidateExactly` | packages/token-broker/src/lib/signingKeyLoader.ts:75-83 | after any history, an invalidation takes effect if and only if every load in flight rests on a fetch begun just now, or can neither finish in time nor leave a secret still good |
| `SigningKey.InvalidateTakesEffect` | packages/token-broker/src/lib/signingKeyLoader.ts:80-83 | in particular with no load in flight everything served later comes from a later fetch |
| `SigningKey.LoadInFlightOutlivesInvalidate` | packages/token-broker/src/lib/signingKeyLoader.ts:75-83 | from the start: get, a millisecond, invalidate, and the load in flight brings the older key back |
| `Jwks.Manager.GetKeys` | packages/auth-library/src/validation/jwksManager.ts:40-57 | keys are fetched when forced, absent or past their lifetime; a failed fetch changes nothing |
| `Jwks.PickIsFirst` | packages/auth-library/src/validation/validateToken.ts:34-42 | the key used is the first of that id, or the first of all without one; none exactly if none fits |
| `Jwks.VerifySignature` | packages/auth-library/src/validation/validateToken.ts:34-88 | at most three fetches; a token good or expired under its cached key is settled without the issuer, one with a bad signature is good exactly under the published key; one good under the published key is accepted however stale the cache unless the cached key of its id reports another fault; only a cached or published key of that id is ever accepted |

## Left out

- JWS signing and verification, SHA-256, JWK import and thumbprints, random ids: parameters of the model.
- URL canonicalization of `htu`, the Authorization header's pattern and the action name built from the
  route: requests carry the outcome.
- Express, fetch, SigV4 and AWS clients: only their outcomes (answered, threw, status) appear.
- The circuit breaker in `acquireToken`: the provider call either yields a grant or fails.
- Metrics, tracing, logging, configuration and health routes.
- Failures of Redis itself in the sequential methods: they appear as `Abort` and `Unstored` steps of the DPoP
  protocol and as failed loads of the signing key, not in the broker, the cache and the queue consumer.
- `BrokerRuns.EndpointHistoryIsARun`: requests are served one after another; `BrokerRuns.OverlappingHistoryIsARun`
  covers overlapping handlers, with the claim of the fresh jti left out, which can only withhold a token.
- A token check reads the clock twice in the code; the model uses one reading per check.
- Redis refuses a lifetime of 0 seconds with an error; the model, like the test double, writes a record that is
  dead at once.
- Verifier and Redis share one clock; skew between them is not modelled.
- `Retry.AcquireTokenWithRetry`: delays are whole milliseconds and `2 ** attempt` does not overflow.
- `Jwks.VerifySignature`: what the issuer publishes does not change within one call.
- The near-duplicate middlewares of the auth library and the ledger, the basic and multi-context examples,
  policy packages, templates and infrastructure code: they would only add easy members.
