# Clay Seal identity: verified model

This project models the logic around the cryptography of the Clay Seal identity service and its
verifiers, and proves what that logic keeps over every input, every token chain and every interleaved
run. `dafny verify dfyconfig.toml` checks all of it.

The SDK repeats the server's attenuation and authorization in `clayseal/identity/_capabilities.py`; one model
covers both, with the SDK's choice to leave the operation out of the proof as a field of the call. The Python
and JavaScript replay caches are one model as well.

What is taken as ideal: a signature verifies only what was signed (`PopMessage.Unforgeable`,
`Services.Signatures`), hash functions named in a requirement are injective (`Text.Injective`), key
derivation, decryption and pattern matching are fixed functions, and freshly drawn ids are new. Clocks are
inputs; where a result needs clock readings that do not go back, it says so.

| file | subject |
|---|---|
| `Text.dfy`, `Collections.dfy` | host string operations; facts about finite sets and sequences |
| `Json.dfy`, `JsonReader.dfy` | canonical JSON bytes, their unambiguity and what a reader makes of them |
| `PopMessage.dfy` | the signed proof-of-possession message in Python and JavaScript, and its verification |
| `Paths.dfy` | path normalization, escape detection, allow and deny patterns |
| `Scopes.dfy` | capabilities and their scope mirror |
| `Datalog.dfy`, `Biscuit.dfy` | block scoping and joins; minting, attenuation and authorization of capability tokens |
| `Services.dfy` | credential validation and server-side authorization against the tables |
| `Challenges.dfy` | one-time challenges and the two endpoints that spend them |
| `Revocation.dfy` | revocation in runs with racing expiry writes, pruning and rotation |
| `ToolGuard.dfy` | the replay cache and the tool guard |
| `JsVerify.dfy` | the JavaScript decision on a tool call against the Python one |
| `Attestation.dfy` | one-time attestation evidence against pruning |
| `KeyTable.dfy`, `Publication.dfy` | the active signing key; how long retired keys stay published |
| `TtlCache.dfy`, `SigningKeys.dfy` | the LRU cache with expiry and decryption through it |
| `ApiKeys.dfy`, `ApiAuth.dfy` | API key text forms; authentication through the verified-key cache |
| `RateLimit.dfy` | the fixed-window limiter |
| `Registration.dfy` | registration matching and its lint |
| `Audit.dfy` | the hash-chained audit log |

## What the proofs found

The model follows the code where the documentation promises something else. Each case below is a lemma
with the exact condition or with a concrete witness.

- Attenuation can widen path scope. Allowed patterns of different blocks are united, so a later block
  gives back what an earlier one shut out (`Biscuit.WhatAppendingWidens`, `Biscuit.LaterAllowedPathsWiden`);
  capabilities, denied paths and expiries only narrow. A wildcard in an attenuation block is taken
  literally (`Biscuit.AttenuatedWildcardIsLiteral`).
- Path scope is not enforced where no path is presented, even for the resource "file", and the server's own
  endpoint never presents one (`Services.ServerIgnoresPathScope`).
- A used proof passes the replay cache again in the last second of its freshness window
  (`ToolGuard.ReplayOnlyWhenWindowCloses`).
- An AWS document mints again once its record is pruned (`Attestation.AwsDocumentMintsAgain`), although the
  attestor's documentation says the one-time table prevents it. A request that verifies evidence of any kind in
  time and records its use after the record's expiry mints from it again (`Attestation.SlowRequestMintsTwice`).
- X.509 leaves may live as long as a credential, but retired certificates leave the bundle after 3900
  seconds (`Publication.LeavesVerifiableIff`, `Publication.EndpointLeavesVerifiableIff`).
- A revoked agent can end up marked expired and then be pruned, although retention documents that revoked
  rows are kept (`Revocation.RacingWriteErasesRevocation`). That happens exactly when the expiry write of an
  earlier validation is under way at the revocation (`Revocation.RevokedRowLostIff`), never when the credential
  has not expired by then (`Revocation.RevokedInTimeKeepsRow`); the agent's tokens stay
  refused all the same (`Revocation.RevocationIsFinal`).
- The audit verifier does not notice a log that was cut short (`Audit.TruncationVerifies`), nor edits of a
  column whose key the payload repeats (`Audit.ReservedKeyUncoversColumn`, `Audit.UnreportedEditIff`).
- Rotating an X.509 authority while several are active creates none, although `rotate_ca` documents that it
  does (`KeyTable.CaRotationsDrainToOne`).
- `normalize_path` is not idempotent when collapsing exposes white space of a remaining component
  (`Paths.NormalizeIdempotent`, `Paths.PaddingExample`).
- JavaScript rebuilds the Python bytes only for text up to U+007E (`PopMessage.JsBytesMatchPythonBytes`). Its
  decision ignores the key a token is bound to (`JsVerify.JsIgnoresBoundKey`,
  `JsVerify.ForeignKeyPassesInJsOnly`), although its documentation asks
  for a proof by that key; Python allows what it allows exactly when, besides, the proof is by the bound key,
  at most 30 seconds ahead and complete, and the path gate is open (`JsVerify.PythonAllowsIff`).
- A selector listed twice escapes the lint (`Registration.RepeatedSelectorEscapesLint`), which compares set
  sizes while matching compares list lengths. Ties are refused, so the creation time in the sort key never
  decides anything (`Registration.OrderAndAgeDoNotMatter`).

## Model

| member | source | states |
|---|---|---|
| Json.CanonicalJsonInjective | clayseal/_core.py:31-39 | two JSON values with the same canonical bytes are the same value: sorted keys, tight separators and ASCII escapes lose nothing |
| Json.EncodePrintable | clayseal/_core.py:31-39 | canonical output consists of U+0020 to U+007E only |
| JsonReader.CanonicalJsonReads | clayseal/_core.py:31-39 | a JSON reader written on its own gets back from the canonical bytes exactly the value that was written, with nothing left over |
| PopMessage.MessageInjective | clayseal/workload_keys.py:69-98 | the signed bytes are equal exactly when key hash, nonce, upper-cased method, URL, token hash, issue time, proof id and operation (absent or present) are |
| PopMessage.MessageReads | clayseal/workload_keys.py:69-98 | a reader of the signed bytes finds each field of the request under its own name, the type tag, and an operation member exactly when an operation is bound |
| PopMessage.AcceptedProofWasSignedForThisRequest | clayseal/workload_keys.py:143-196 | an accepted proof was signed by the presented key for exactly this challenge, method, URL, token, time, id and operation, inside the freshness window |
| PopMessage.ProofBindsOperation | clayseal/workload_keys.py:95-98 | a key that signed one request passes for that request's operation only; operation-free and operation-bound proofs never stand in for each other |
| PopMessage.JsBytesMatchPythonBytes | js/clayseal-verify/src/index.js:63-77 | the JavaScript bytes equal the Python bytes of an operation-free proof if and only if every signed string stays within U+0000 to U+007E |
| Paths.NormPathIdempotent | clayseal/_core.py:45-50 | the component loop of `normpath` leaves its own output unchanged |
| Paths.LeadingSlashes | clayseal/_core.py:45-50 | the result of `normpath` starts with two slashes if the path starts with exactly two, with one if it starts with one or with three and more, and with none otherwise |
| Paths.NormalizeIdempotent | clayseal/_core.py:45-50 | normalizing twice equals normalizing once if and only if the components that remain of the stripped path expose no white space at an end; for a path below the start these are the names of the place it leads to |
| Paths.PaddingExample | clayseal/_core.py:45-50 | a concrete path for which the second normalization changes the result |
| Paths.EscapeIffWalkRises | clayseal/_core.py:53-56 | a path escapes exactly when it is absolute or a lexical walk of its components rises above the start at some prefix; otherwise its normal form is the walk's final stack of plain names, or "." |
| Paths.SlashKindDoesNotMatter | clayseal/_core.py:50 | paths that differ only in the kind of their slashes normalize alike and escape alike |
| Paths.ParentFirstEscapes | clayseal/_core.py:53-56 | a path that starts with a parent reference escapes, whichever slash follows it |
| Paths.ScopeOfDestination | clayseal/_core.py:59-92 | the answer for a presented path, reason included: it escapes, or a denied pattern matches the place it leads to, or there are allowed patterns and none does; otherwise it is in scope |
| Paths.ScopeIgnoresSpelling | clayseal/_core.py:45-92 | two spellings of one place get the same decision |
| Text.StripKeepsMiddle | clayseal/_core.py:50 | stripping leaves the middle of the text, between white space only, with none at its ends |
| JsVerify.JsClosedForm | js/clayseal-verify/src/index.js:201-222 | for any chain the JavaScript verifier allows a call if and only if every expiry, the grant and every block's literal list permit it and the proof, by any Ed25519 key, is for the method, the endpoint if one is configured and this token, within 300 seconds either way |
| JsVerify.JsIgnoresBoundKey | js/clayseal-verify/src/index.js:136-191 | binding the token to another key changes no JavaScript decision |
| JsVerify.JsProofWindow | js/clayseal-verify/src/index.js:144-148 | a proof that JavaScript accepts at some time is accepted exactly from 300 seconds before its issue time to 300 seconds after |
| JsVerify.ForeignKeyPassesInJsOnly | js/clayseal-verify/src/index.js:127-134 | a minted token that grants the operation and a good proof by a key it is not bound to: JavaScript allows the call and Python refuses it whatever the path |
| JsVerify.PythonAllowsIff | js/clayseal-verify/src/index.js:242-280 | on any chain and plain signed strings, the Python authorizer allows a call if and only if the JavaScript one does, the proof is by the bound key, at most 30 seconds ahead and complete, and the path gate is open |
| Scopes.NormalizeCapabilities | clayseal/backend/capabilities.py:114-134 | the loop keeps trimmed usable entries in order and refuses a constraint on a usable entry only |
| Scopes.RefusedIffConstrained | clayseal/backend/capabilities.py:114-134 | normalization refuses if and only if some entry with a resource and an action left after trimming is constrained, and otherwise gives the normal form of all entries |
| Scopes.NormalizeKeepsExactly | clayseal/backend/capabilities.py:114-134 | a capability is kept if and only if some entry trims to it with both parts non-empty |
| Scopes.ParseScopes | clayseal/backend/capabilities.py:142-154 | the loop parses every scope that is not blank, in order |
| Scopes.ReconcileReachesFixedPoint | clayseal/backend/capabilities.py:157-168 | reconciling again what registration stored changes neither the capabilities' normal form nor the scopes, so the stored scope list is the minted one |
| Scopes.ReconcilePrefersCapabilities | clayseal/backend/capabilities.py:157-168 | reconciling refuses as normalization does; usable capabilities win over scopes, scopes stand in when none is usable, and the scopes returned mirror the result |
| Scopes.ScopeMeaning | clayseal/backend/capabilities.py:142-154 | a scope without a colon means every action, and one with a colon is cut at the first |
| Scopes.ScopeRoundTrip | clayseal/backend/capabilities.py:137-154 | parsing a scope and writing it again gives it back if and only if it has a colon and both parts around the first one are non-empty and unpadded |
| Scopes.CapabilityRoundTrip | clayseal/backend/capabilities.py:137-154 | writing a clean capability as a scope and parsing it gives it back if and only if the resource holds no colon |
| Datalog.AppendOnlyRestricts | clayseal/backend/capabilities.py:405-409 | whatever a block contains, appending it allows nothing new: the old decision and the block's own checks in its own scope |
| Biscuit.BuildAuthorityBlock | clayseal/backend/capabilities.py:338-364 | the builder ends with exactly the normalized capabilities, the identity facts and the two checks |
| Biscuit.BuildCaveatBlock | clayseal/backend/capabilities.py:372-409 | the builder ends with exactly the facts and checks of the caveat, the narrowing check only when a capability survives normalization |
| Biscuit.MintedLogic | clayseal/backend/capabilities.py:338-364 | join-based evaluation of a minted token equals: valid proof, unexpired, operation granted exactly or by authority wildcard |
| Biscuit.ChainLogic | clayseal/backend/capabilities.py:93-98 | join-based evaluation of any chain of attenuations equals the closed form with one literal operation check and one expiry per block |
| Biscuit.PathPatternsFromBlocks | clayseal/biscuit_scope.py:30-40 | the loop over block sources collects each block's patterns in order, from the facts and then from check atoms written alike, first occurrences kept |
| Biscuit.PatternsFoundIff | clayseal/biscuit_scope.py:30-40 | whatever the blocks hold, a pattern is collected if and only if it is not empty and some fact, or some atom of a check, writes it |
| Biscuit.ChainPatterns | clayseal/biscuit_scope.py:30-40 | a pattern is collected exactly when some block of the chain names it: allowed as well as denied patterns are united |
| Biscuit.PathGateClosedForm | clayseal/backend/capabilities.py:517-526 | the path gate in terms of the patterns that occur anywhere in the chain and the place the path leads to |
| Biscuit.AuthorizeClosedForm | clayseal/backend/capabilities.py:496-569 | for any chain and call, the whole decision equals the path condition, a fresh proof by the bound key over this call, every expiry, the grant and every block's literal list |
| Biscuit.RefusalReasons | clayseal/backend/capabilities.py:496-569 | which refusal any chain and call get: path, missing proof, wrong key, bad proof or policy, each under its exact condition |
| Biscuit.UnboundTokenTakesAnyKey | clayseal/backend/capabilities.py:529-552 | a token that names no key accepts a proof by any readable key; every check of its blocks still decides |
| Biscuit.WhatAppendingWidens | clayseal/backend/capabilities.py:372-409 | appending a block widens what is permitted exactly for presented in-root paths that all earlier allowed patterns exclude while there were some |
| Biscuit.AppendingWidensPathsOnly | clayseal/backend/capabilities.py:409 | whatever block anyone appends, a refused call that becomes allowed had been refused by the path gate |
| Biscuit.NarrowingNeverWidens | clayseal/backend/capabilities.py:372-409 | appending capabilities, denied paths or an expiry never widens, nor do allowed paths on a token that had none |
| Biscuit.AttenuatedWildcardIsLiteral | clayseal/backend/capabilities.py:389-397 | a token attenuated to "every action" permits only the operation named "*" |
| Biscuit.LaterAllowedPathsWiden | clayseal/biscuit_scope.py:30-40 | for any grant, a second block's allowed path is refused after the first block and permitted after the second |
| Services.RootOrderDoesNotMatter | clayseal/backend/identity.py:914-967 | when at most one root key verifies a token, trying the active key first changes no answer |
| Services.CapabilityClosedForm | clayseal/backend/identity.py:922-967 | for any chain and call, when the whole operation answers token revoked, owner revoked or allowed, in terms of the root keys, the denied ids, the status of the owner and the permission |
| Services.RefusedExactly | clayseal/backend/identity.py:753-871 | when validation answers that the token has expired, that the agent is revoked or that it is unknown |
| Services.OtherRefusals | clayseal/backend/identity.py:753-871 | the remaining refusals of a readable token, each under its exact condition |
| Services.ValidExactly | clayseal/backend/identity.py:753-871 | a token is valid if and only if it is in force, its agent is known and not revoked, and the proof is by the token's own key, or else by the one stored with the agent |
| Services.ServerIgnoresPathScope | clayseal/backend/identity.py:922-967 | the server allows a call if and only if some root key verifies the chain, no block is denied, the owner is not revoked, and expiries, grant, block lists and the bound proof for this endpoint permit it, whatever path patterns the token carries |
| Services.TryRootKeys | clayseal/backend/identity.py:948-967 | the loop returns the first root key's answer that is not an unverifiable token, or none if all fail |
| Services.ServicesNeedProof | clayseal/backend/identity.py:753-871 | validation and authorization answer positively only for a proof over this endpoint, token and operation, by the key the token is bound to and fresh at the decision; no attenuation of a minted token gets around it |
| Services.PositiveAnswersSpendChallenges | clayseal/backend/routers/identity.py:341-370 | in every interleaving, each valid or allowed answer spent a challenge of its own, issued to the same tenant and unexpired at the claim, and the bound key's proof over it was fresh at the moment of the decision |
| Challenges.ChallengeStore.Issue | clayseal/backend/capabilities.py:275-288 | stores a fresh row expiring 300 seconds later unless the challenge exists |
| Challenges.ChallengeStore.ConsumeServerChallenge | clayseal/backend/capabilities.py:291-328 | succeeds exactly on an own, unused, unexpired row and marks it used; otherwise nothing changes and the reason is the one the row shows |
| Challenges.ChallengeStore.PruneExpired | clayseal/backend/retention.py:41-43 | exactly the expired rows are deleted and counted |
| Challenges.EveryGrantSpentItsOwnChallenge | clayseal/backend/routers/identity.py:486-517 | the same over any decision procedure that needs a proof: no challenge is claimed twice, no two positive answers share one, and each proof covers its request at the decision |
| Challenges.ClaimSucceedsExactly | clayseal/backend/capabilities.py:275-328 | after any run, a claim succeeds if and only if the challenge was first issued to this tenant less than 300 seconds ago and nobody has claimed it |
| Challenges.AnsweredExactly | clayseal/backend/routers/identity.py:341-370 | a request that begins and is decided is answered positively if and only if its claim succeeded (or it presents no proof) and the decision is positive |
| Revocation.AgentStore.RevokeBiscuitIds | clayseal/backend/capabilities.py:461-493 | the deny list gains exactly the token's ids for the tenant, each inserted once and only if absent |
| Revocation.AgentStore.RevokeAgent | clayseal/backend/identity.py:874-894 | an agent of the tenant is marked revoked and its stored token's ids denied; any other call changes nothing |
| Revocation.AgentStore.PruneAgents | clayseal/backend/retention.py:45-51 | exactly the agents marked expired beyond the grace period are deleted |
| Revocation.StepKeepsInv | clayseal/backend/identity.py:790-813 | minting, key creation, both halves of the expiry write, revoking and pruning keep: only expired credentials are written back, and a revoked agent that is present and unexpired says so and has its token denied |
| Revocation.RevocationIsFinal | clayseal/backend/identity.py:874-906 | after a revocation commits, in every continuation nobody validates the agent's JWT nor is allowed anything by its capability token or any token made from it |
| Revocation.IssuedIsValid | clayseal/backend/identity.py:753-871 | a credential just issued, presented with a proof by its key, is valid if and only if it has not expired, and reported revoked once the agent is |
| Revocation.AttenuationDoesNotEscapeRevocation | clayseal/backend/capabilities.py:445-458 | after the revocation no chain of caveats on the agent's capability token is allowed anything |
| Revocation.RevokedRowLostIff | clayseal/backend/identity.py:796-805 | some continuation of a revocation loses the agent's row if and only if, when it commits, a validation that found the credential expired has read the row as active and not yet written it |
| Revocation.RevokedInTimeKeepsRow | clayseal/backend/retention.py:45-51 | an agent revoked before its credential expires keeps its row in every continuation |
| Revocation.RacingWriteErasesRevocation | clayseal/backend/retention.py:45-51 | for every tenant, agent and expiry a concrete run from the empty tables in which the agent is revoked and ends up without a row |
| ToolGuard.InMemoryReplayCache.StoreIfNew | clayseal/identity/integrations/mcp_server.py:111-121 | drops what expires up to now, then accepts and remembers the id exactly if it is not there |
| ToolGuard.SingleUse | clayseal/identity/integrations/mcp_server.py:111-121 | over any run, after an id is accepted no call with it is accepted before its expiry |
| ToolGuard.PrunedCacheAnswers | clayseal/identity/integrations/mcp_server.py:111-121 | when each id always carries one expiry, a call is accepted if and only if it is the first with its id or comes at or after its own expiry |
| ToolGuard.ToolGuard.AuthorizeOperation | clayseal/identity/integrations/mcp_server.py:314-361 | a call passes or is a replay exactly when some root key verifies the token and `authorize_biscuit` allows the guard's own call of it (POST, the server URL, an operation-free proof, the token's hash); only then is the cache asked, and the last refusal is reported otherwise |
| ToolGuard.GuardClosedForm | clayseal/identity/integrations/mcp_server.py:335-346 | for any chain the guard's authorizer allows a call if and only if some root verifies the token, the path gate is open, expiries, grant and block lists permit it, and the bound key's proof is for POST, the server URL, no operation, this token and the last 300 seconds |
| ToolGuard.AllowedProofCarries | clayseal/identity/integrations/mcp_server.py:335-346 | whatever the token, an allowed call has a proof for POST, for the guard's own URL if it has one, for this token and fresh |
| ToolGuard.AllowedCallWasSigned | clayseal/identity/integrations/mcp_server.py:335-346 | with ideal signatures, an allowed call descends from a minted token whose bound key signed an operation-free request for exactly this URL and token |
| ToolGuard.LastRefusalIsLast | clayseal/identity/integrations/mcp_server.py:348-361 | the refusal reported is that of the last root whose authorizer denied, and there is one if and only if some root denied |
| ToolGuard.GrantedIsFresh | clayseal/workload_keys.py:174-178 | whatever the authorizer allows has a proof that is fresh on the authorizer's clock |
| ToolGuard.ReplayOnlyWhenWindowCloses | clayseal/identity/integrations/mcp_server.py:343-359 | in any run of calls that the authorizer allows, a used proof passes again if and only if the cache is asked at or after issue time plus 300; with equal clocks, in exactly that second |
| ToolGuard.BoundarySecondExample | js/clayseal-verify/src/index.js:298-314 | a minted token that grants the operation, with one verified proof by its bound key: the guard's authorizer allows the call at issue and 300 seconds later, and the cache accepts it once at issue and any number of times then |
| Attestation.VerifyNodeAttestation | clayseal/backend/attestation.py:165-205 | the first anchor that verifies the document decides, by its claims and lifetime; without one the document is expired if any anchor found it so |
| Attestation.VerifyExactly | clayseal/backend/node_attestors.py:307-410 | when evidence verifies, and until when its use is remembered, for each kind |
| Attestation.SameIdIff | clayseal/backend/node_attestors.py:307-410 | two verified documents share a use id if and only if they are the same instance document, the same pod in one bucket or the same AWS document |
| Attestation.UseStore.RecordAttestationUse | clayseal/backend/attestation.py:85-116 | inserts the use exactly if the tenant has none under that id |
| Attestation.UseStore.PruneExpired | clayseal/backend/retention.py:34-39 | exactly the uses expired by now are deleted |
| Attestation.SecondMintStraddlesExpiry | clayseal/backend/identity.py:647-677 | over any run, a second mint from one static, GCP or Kubernetes use verified before the evidence ran out and recorded after |
| Attestation.OneMintPerUse | clayseal/backend/identity.py:647-677 | with one clock reading per request a static or GCP document mints once ever and a Kubernetes pod once per bucket |
| Attestation.PodMintRate | clayseal/backend/node_attestors.py:307-316 | in any k maximum lifetimes a pod mints at most k + 1 credentials |
| Attestation.AwsMintsApart | clayseal/backend/node_attestors.py:403-410 | two mints from one AWS document are at least the maximum lifetime apart in whole seconds |
| Attestation.AwsDocumentMintsAgain | clayseal/backend/node_attestors.py:403-410 | a second request after a prune mints if and only if it comes that much later |
| Attestation.SlowRequestMintsTwice | clayseal/backend/attestation.py:85-116 | evidence of every kind that verifies at some time has a run with two mints from one use when verifying and recording are apart in time |
| KeyTable.KeyStore.SelectActive | clayseal/backend/identity.py:144-150 | exactly the tenant's active keys, newest first |
| KeyTable.KeyStore.GetActiveKey | clayseal/backend/identity.py:142-167 | returns the newest active key of the required algorithm or a new one, and retires and stamps all other active keys of the tenant |
| KeyTable.KeyStore.RotateKey | clayseal/backend/identity.py:178-193 | one active key, whichever the query yields, is retired and stamped and a new one is created |
| KeyTable.KeyStore.RotateCa | clayseal/backend/x509_svid.py:308-320 | one active authority is retired and stamped; a new one is created only if no other is active |
| KeyTable.RotateReplacesOne | clayseal/backend/capabilities.py:214-238 | the set of active keys loses the rotated one and gains the new one; from exactly one, exactly the new one remains |
| KeyTable.CaRotationsDrainToOne | clayseal/backend/x509_svid.py:308-320 | from n active authorities k rotations leave n - k but at least one, and a rotation creates a new authority if and only if at most one was active |
| KeyTable.OneActiveForEver | clayseal/backend/identity.py:126-193 | after one fetch, any sequence of fetches and rotations by any tenants keeps exactly one active key, and retired rows keep their stamp |
| Publication.VerifiableIffSufficient | clayseal/backend/identity.py:974-993 | over every interleaving of rotations and mints, everything live has its key published if and only if retention covers commit delay, signing gap and longest life |
| Publication.JwtsVerifiableIff | clayseal/backend/identity.py:199-286 | for JWTs with a default within the maximum: if and only if delay and gap together are at most 300 seconds |
| Publication.BiscuitsVerifiableIff | clayseal/backend/capabilities.py:572-592 | for capability tokens, whose expiry is inclusive and fixed before the key is fetched: if and only if the delay is below 300 seconds |
| Publication.LeavesVerifiableIff | clayseal/backend/x509_svid.py:278-305 | for X.509 leaves: if and only if delay, gap and maximum life stay below 3900 seconds and delay and gap below 300 |
| Publication.EndpointLeavesVerifiableIff | clayseal/backend/routers/identity.py:316-338 | with the lives that the endpoint computes from the request and the credential, leaves stay verifiable if and only if delay, gap and maximum life stay below 3900 seconds |
| Publication.PublishedKeys | clayseal/backend/x509_svid.py:278-305 | the loop lists the rows that survive the cutoff, in their order |
| Publication.ListedExactly | clayseal/backend/identity.py:974-993 | a row is listed, as often as it occurs, if and only if it is active or was retired after the cutoff |
| TtlCache.TTLCache.Get | clayseal/backend/cache.py:37-51 | a live entry is returned and becomes most recent; an expired one is dropped |
| TtlCache.TTLCache.Set | clayseal/backend/cache.py:53-61 | the entry becomes most recent and the oldest are dropped down to the bound |
| TtlCache.PutIsFound | clayseal/backend/cache.py:37-61 | what was just set is found until its time to live has passed |
| TtlCache.HitIsLatestLiveSet | clayseal/backend/cache.py:27-71 | over any run the bound holds, and a hit is the latest set of the key, live and neither invalidated nor cleared since |
| TtlCache.LiveRecentKeyHits | clayseal/backend/cache.py:27-71 | with a monotone clock, a live key that has always been among the `max_size` most recently used is a hit |
| SigningKeys.SigningKeyReader.DecryptPrivatePem | clayseal/backend/signing_keys.py:39-51 | returns, through the cache, exactly what the uncached function returns or refuses |
| SigningKeys.HitsDecrypt | clayseal/backend/signing_keys.py:39-51 | however a cache of decrypted keys was filled and emptied, a hit is what decryption gives |
| ApiKeys.PrefixIffBuilt | clayseal/backend/api_keys.py:21-29 | a lookup prefix is found exactly in keys built from a non-empty dot-free prefix and some secret, and it is that prefix |
| ApiKeys.HashVerifiesItsKey | clayseal/backend/api_keys.py:32-70 | a stored hash parses back and verifies exactly the keys that derive the same bytes |
| ApiKeys.VerifyExactly | clayseal/backend/api_keys.py:47-70 | a stored text verifies a key if and only if it has the four parts of this method and the key derives its digest |
| ApiAuth.Authenticator.AuthenticateCustomer | clayseal/backend/deps.py:57-130 | scoped candidates before customers before legacy rows, with the upgrade of a plaintext row |
| ApiAuth.ScopedKeyWins | clayseal/backend/deps.py:57-130 | an active scoped row whose hash verifies the key decides, with its own scopes, whatever the customer rows say |
| ApiAuth.PlaintextRowDecides | clayseal/backend/deps.py:57-130 | without a row under the prefix, a row that holds the key itself is verified by its hash if it has one, and is otherwise upgraded unless another row holds the new value |
| ApiAuth.PlaintextLeavesTheTable | clayseal/backend/deps.py:57-130 | when a request changes the tables, no row holds the plaintext key any more, but for a prefix-free key that is the row's own truncated id |
| ApiAuth.UnknownKeyRefused | clayseal/backend/deps.py:57-130 | a key that no row answers to is refused and changes nothing |
| ApiAuth.Authenticator.GetCurrentAuth | clayseal/backend/deps.py:133-187 | the cached verification is used only while its row bears it out, is invalidated otherwise, and a full authentication is cached with its hash |
| ApiAuth.GrantIsCached | clayseal/backend/deps.py:133-187 | a full authentication that grants is found in the cache until its time to live has passed |
| ApiAuth.CurrentAuthGenuine | clayseal/backend/deps.py:133-187 | hit or miss, the context names rows that exist now, whose current hash verifies the key, active and with current scopes if scoped |
| ApiAuth.EveryAnswerGenuine | clayseal/backend/deps.py:133-187 | the same after any run with any change of any row before each request |
| ApiAuth.CacheUnobservable | clayseal/backend/deps.py:57-187 | with prefixes fixed and unique across both tables, the answer for a key in current form is what full authentication would give now |
| ApiAuth.EveryAnswerUncached | clayseal/backend/deps.py:57-187 | the same after any run |
| RateLimit.FixedWindowRateLimiter.Check | clayseal/backend/rate_limit.py:46-61 | counts the hit in its window, evicts above capacity, and answers whether the count is within the limit; a limit of zero or less neither counts nor refuses |
| RateLimit.AdmittedExactly | clayseal/backend/rate_limit.py:46-68 | a hit is admitted if and only if the key has had at most the limit of hits since the hit that opened its current window |
| RateLimit.DroppedExactly | clayseal/backend/rate_limit.py:46-68 | another key's bucket goes if and only if more than 100000 would remain and its window has passed |
| RateLimit.EvictionUnobservable | clayseal/backend/rate_limit.py:46-68 | with readings that never go back, the answers equal those of a limiter that never evicts |
| RateLimit.AtMostTwiceTheLimit | clayseal/backend/rate_limit.py:46-68 | any half-open interval of one window length admits at most twice the limit less one hits of a key |
| RateLimit.TwiceTheLimitAttained | clayseal/backend/rate_limit.py:46-68 | for every limit some run attains that bound |
| Registration.MatchMeans | clayseal/backend/identity.py:591-623 | the filtered, sorted match means: nothing covered, a unique longest covered entry, or exactly the tied longest ones reported |
| Registration.OrderAndAgeDoNotMatter | clayseal/backend/identity.py:591-623 | tables with the same entries up to row order and creation times give the same outcome |
| Registration.MoreSelectorsNeverLessSpecific | clayseal/backend/identity.py:591-623 | presenting more selectors still matches, and nothing shorter |
| Registration.LintRegistrationEntries | clayseal/backend/identity.py:506-551 | the nested loops with the set of seen pairs report the conflicts in row order |
| Registration.LintReportsEachPairOnce | clayseal/backend/identity.py:506-551 | each unordered pair of entries of equal set size is reported exactly once and nothing else is |
| Registration.CleanLintMeansNoAmbiguity | clayseal/backend/identity.py:506-551 | among repeat-free entries an empty report rules out every ambiguous match |
| Registration.AmbiguityIffClash | clayseal/backend/identity.py:591-623 | some presented set is ambiguous if and only if two equal-length entries jointly cover no longer one |
| Registration.ReportIsAmbiguousIff | clayseal/backend/identity.py:529-546 | the witness of a report is ambiguous if and only if no longer entry is covered by it |
| Registration.RepeatedSelectorEscapesLint | clayseal/backend/identity.py:517-524 | with a repeated selector the report is empty and a match ambiguous |
| Audit.VerifyEventLog | clayseal/backend/audit.py:118-138 | the loop reports, row by row, wrong numbers, wrong links and wrong hashes |
| Audit.NoIssuesIffIntact | clayseal/backend/audit.py:118-138 | no issue if and only if every row is numbered by position, linked to the one before and hashed |
| Audit.FinalHashPinsLog | clayseal/backend/audit.py:41-57 | two verifying logs with the same final hash are equal row for row, whatever their lengths |
| Audit.EditedRowIsReported | clayseal/backend/audit.py:118-138 | editing one row with number and stored hash kept is reported at that row only: its hash, and its link too if that was edited |
| Audit.ForgedRowIsReported | clayseal/backend/audit.py:118-138 | whatever is edited, the number included, and wherever the row then stands among whatever rows, it is reported while it carries the stored hash of a genuine row it differs from |
| Audit.ReorderedIsOrdered | clayseal/backend/audit.py:120-121 | a row whose number is changed to a free one moves to one end of the log as the verifier reads it |
| Audit.MovedRowIsReported | clayseal/backend/audit.py:118-138 | the whole report after such a move: each row that stands elsewhere, each broken link, and the edited row |
| Audit.TruncationVerifies | clayseal/backend/audit.py:118-138 | every beginning of a verifying log verifies |
| Audit.SameHashIffShown | clayseal/backend/audit.py:41-57 | two rows have the same hash if and only if they show the same in every column, payload values first, and have the same payload elsewhere |
| Audit.HashedTextReads | clayseal/backend/audit.py:41-57 | the text that is hashed for a row reads back as the payload and every column that the payload does not override, without the entry hash |
| Audit.ReservedKeyUncoversColumn | clayseal/backend/audit.py:47-57 | with equal payloads, two rows have the same hash if and only if for each of the five columns the payload holds its key or the rows agree |
| Audit.UnreportedEditIff | clayseal/backend/audit.py:118-138 | an edit that keeps number, link and stored hash goes unreported if and only if the row shows what it showed; with the payload kept, if and only if each edited column's key is in the payload |
| Audit.StepKeepsInv | clayseal/backend/audit.py:60-101 | each atomic step of any call keeps the table numbered from 1 and linked, and every returned call the owner of one row |
| Audit.EveryReachableLogVerifies | clayseal/backend/audit.py:60-101 | in every interleaving the verifier finds nothing, old rows stay, and the table grew by exactly one row per returned call and none per raised one |
| Audit.UndisturbedCallReturns | clayseal/backend/audit.py:60-95 | from any chain, a call that reads and inserts undisturbed appends its event as the next row and returns it |
| Audit.FailedAttempt | clayseal/backend/audit.py:94-99 | a database error or a number taken meanwhile adds nothing and costs one attempt, and the fifth one raises |
| Audit.AuditStore.RecordEvent | clayseal/backend/audit.py:60-101 | the first attempt that neither meets a database error nor loses the race for its number appends the event as the next row of the chain and returns it; the call raises, having added nothing, exactly when all five attempts fail |
| Audit.AuditStore.TryAppend | clayseal/backend/audit.py:62-95 | one attempt inserts the row that extends the last one read, unless the database fails or another call has taken its number meanwhile |

## Left out

- Audit.AuditStore.OthersAppend: has an empty body; its contract lets other calls append anything that keeps the chain.
- Audit.FinalHashPinsLog: payloads that repeat a reserved key are excluded, because such a key hides a column (`Audit.SameHashIffShown`).
- Json.CanonicalJsonInjective: floats, lone surrogates and values stringified by `default=str` are not part of the model.
- PopMessage.AcceptedProofWasSignedForThisRequest: an `iat` that is not an integer is refused before; `str.upper`, thumbprints and base64 are host functions.
- JsVerify.PythonAllowsIff: the repeated evaluation after an exceeded run limit and the order of the refusals are left out, and both languages share one upper-casing and one base64 decoding.
- PopMessage.JsBytesMatchPythonBytes: issue times beyond the safe integers of JavaScript are not part of the model.
- Biscuit.PathPatternsFromBlocks: a block is its facts and checks, not text; rules, and strings whose printed form holds quotes or backslashes, are not part of the model.
- Biscuit.AuthorizeClosedForm: the authorizer's limits on facts, iterations and time, and the text of the reasons, are not modelled.
- Services.ServicesNeedProof: the order of claim checks inside the JWT library is condensed into one flag for required claims, one earliest time and the expiry.
- Attestation.OneMintPerUse: needs one clock reading per request; `Attestation.SecondMintStraddlesExpiry` says what holds without it.
- Publication.VerifiableIffSufficient: fractions of a second are not modelled, and keys of other tenants or algorithms are outside the machine.
- KeyTable.KeyStore.GetActiveKey: one clock reading stamps all displaced keys; re-encryption of the stored private key is left out.
- RateLimit.EvictionUnobservable: readings are taken in the order in which they are counted, although the code reads the clock before it takes the lock.
- TtlCache.LiveRecentKeyHits: the same order is taken for the cache's clock readings.
- ApiAuth.Authenticator.GetCurrentAuth: a request is one step; row changes happen between requests.
- Registration.LintRegistrationEntries: a conflict holds the two entries; the counts and sorted lists in the report follow from them.
- Cryptography (Ed25519, RSA, AES-GCM, PBKDF2, SHA-256), X.509 and PEM encoding, the Biscuit wire format and the general Datalog engine.
- HTTP routing, middleware, mTLS binding, transport, database sessions and dialects, key management services.
- Network calls of the cloud attestors: their verdict is an input, as is that of `fnmatch`.
- Identity adapters, framework helpers, token inspection, configuration, migrations and command-line scripts: they copy fields.
- The lint's single-selector and wildcard warnings and the selector derivation: one look at each body tells what they do.
