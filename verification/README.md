# Verification of the Antrea UI session store, flow stream and caches

This project models the stateful core of Antrea UI in Dafny and proves what that core is for. `dafny verify dfyconfig.toml`
checks all of it.

**The session store** keeps the Kubernetes credentials of logged-in users. `SessionStore.Store`, `Sessions.Session` and
`ServerAuth` model it as classes that change in place: Go's byte slices are arrays, so that two holders share bytes and
erasing is visible to both. The store carries ghost books that say which session holds which array, and a ghost run of a
small model on values (`StoreModel`), of which every call adds one event. The class is proved to keep the books and the run;
everything about time, capacity and lifetime is then proved about runs (`StoreRuns`) and holds of every store that can be
reached. Time is an integer, and each call is given the clock readings it takes; a `Get` takes four, one of them under the
refresh lock. Some invariants are sealed: they hold under `Unlocked(seal)`, which is always true, so that a proof unfolds them
only where it says so.

**The refresh protocol** (`RefreshProtocol`) is the part of `Get` in which requests overlap: any number of requests of one
session, a logout at any moment, and a provider that may rotate refresh tokens (section 6 of RFC 6749), as atomic steps.

**The flow stream client**: `SseParser` is the incremental parser, against the parse of the whole text at once and against
what the server writes; `FlowClient` is batching and reconnecting; `FlowSamples` and `FlowCache` are the sample window and
the LRU cache that the records end up in.

**Four smaller machines**: `FlowPipeline` (gRPC to SSE through two channels), `BearerCache` (validated bearer tokens),
`ScopeProbe` (a recheck that must not be overtaken), `PluginRegistry` (an index that must agree with its lookup). `EndToEnd`
joins the pipeline to the parser and the parser to the client, for any way of encoding an event as one line of JSON, up to the
batches that the callback is given.

**What is pasted to log in** (`KubeCredentials`): which credential a token or a kubeconfig holds, and what of it is left in
memory when the login fails (`ServerAuth`).

## What turned out not to hold

Each has a lemma or method that exhibits a case, and the exact condition beside it.

- Cutting the stream into chunks changes the parse, but only if the text contains `"\r\r\n"`
  (`SseParser.ChunkingInvariance`, `SseParser.CutAfterCrCrLf`).
- A logout while a refresh is under way can leave the deleted session holding a credential that works
  (`RefreshProtocol.LogoutDuringRefreshRefills`). Whether it can is decided at the logout: if and only if a request is in
  flight then and no answer has been lost (`RefreshProtocol.RefillPossibleExactlyWhen`).
- A request that still has its session when the session is logged out can have a transport built for it afterwards, which
  stays cached with the removed session and is not cleaned up by it (`ServerAuth.TransportAfterLogout`). It does so if and only
  if one can be built for the kind of credential the session had: always for a bearer token or an impersonation, and for a
  certificate, the kind with a cleanup to run, when client-go accepts the erased PEM. Over any number of such requests,
  `SessionStore.Store.GoneHoldsTransportExactlyWhen` says exactly which transports a removed session holds, from what the
  requests asked for.
- A login that fails does not always erase what was pasted. Exactly when it holds a credential that can be presented as it is
  does a failing login erase that credential, and then nothing else of it; a kubeconfig that is refused, for an expired
  certificate say, stays in memory as it is (`ServerAuth.Server.LoginWithKubeconfig`).
- A refresh whose answer is lost after the provider has rotated leaves a refresh token that is stale for good
  (`RefreshProtocol.LostAnswerLeavesStaleToken`); `RefreshProtocol.PresentsCurrentTokenUnlessLost` is the exact condition.
- A comment in `bearer.go` says that the cache bounds how long a revoked token works by 60 seconds. The minute starts when
  the answer arrives, not when it is decided, so the bound is 60 seconds plus the time an answer takes
  (`BearerCache.RevocationBound`, `BearerCache.AcceptPastTheMinute`). Exactly which acceptances a run can outlive the minute on
  is `BearerCache.LateAcceptanceExactlyWhen`.
- A comment in `grpc.go` says that closing the flow channel first lets the handler drain it before the error channel ends
  the stream. That holds at EOF, where the error channel is only closed; after an upstream error the loop may pick the error
  first, and then up to 16 events are not delivered (`FlowPipeline.ErrorCanOvertakeFlows`,
  `FlowPipeline.AtMostTheChannelIsLost`). Everything is delivered if and only if the flow channel is empty when the loop takes
  the error (`FlowPipeline.ErrorDeliversEverythingExactlyWhen`).
- A listing that fails can leave the scope probe wrong with nothing pending (`ScopeProbe.FailedListingLeavesStaleAnswer`). At
  rest it is right if and only if the last recheck did not fail on a stale answer (`ScopeProbe.QuiescentConsistentExactlyWhen`).

## Assumptions

- Random session IDs are fresh: an ID drawn has not been drawn before.
- The arrays of a login's spec and of a refresh's answer belong to nobody else, and the refresh token does not share an
  array with the credential. That is so in the source, where each is made by a conversion of its own.
- Listing RoleBindings may fail, since the source handles an error there. Whether client-go's cached lister ever returns one
  is not settled here; `ScopeProbe.QuiescentIsConsistent` is what holds if it never does.
- Callers of `transportFor` pair an Antrea key with the factory of its own generation (`Transports.BuiltFor`), as
  `pkg/handlers/antreasvc/handler.go:158-166` does.
- Whether client-go builds a transport from a certificate's PEM is its decision and a parameter here (`pemOk`); that includes
  the erased, empty PEM of a session that has ended, from which it may well build one.
- SHA-256 has no collisions among tokens; `json.Unmarshal` and the `exp` claim are functions of the bytes they read.
- gin writes an event as `event:<type>`, `data:<data>` and an empty line, as `pkg/handlers/flowstream/handler_test.go:160-212`
  expects of it.
- JSON.parse reads the batch of a flow event back record by record, and the count of a dropped event (`EndToEnd.ReadsBack`).
- Strings are sequences of code points, and the text has been decoded. None of the characters the parser looks for is a
  surrogate, so that cutting UTF-16 strings at them is the same.

## Model

| member | source | states |
|---|---|---|
| Credentials.ZeroBytes | pkg/auth/session/session.go:125-129 | every byte of the slice is zero afterwards |
| Credentials.ZeroCredential | pkg/auth/session/session.go:116-123 | all three slices are erased in place and dropped, nothing else changes |
| Credentials.ZeroSpec | pkg/auth/session/session.go:169-173 | the refresh token is erased as well as the credential |
| Transports.ClientFactory.TransportFor | pkg/k8s/factory.go:71-101 | which credentials get a transport, and that exactly certificate transports own a pool to clean up |
| Transports.TransportUpstream | pkg/auth/session/session.go:280-283 | the part of a key before its first slash, and whether there is one |
| Transports.TransportKeys | pkg/handlers/antreasvc/client.go:154-156 | the Antrea keys of distinct generations differ, all name one versioned upstream, and the API server's key is unversioned |
| Transports.SupersededIsAnotherVersion | pkg/auth/session/session.go:291-308 | a key supersedes exactly the other versions of its own upstream, and unversioned keys take no part |
| Transports.GenerationsStayMatched | pkg/auth/session/session.go:291-308 | superseding keeps every Antrea transport under the generation that built it, leaves at most one of them, and spares the API server's |
| Transports.AntreaClientFactoryProvider.UpdateClientFactory | pkg/handlers/antreasvc/client.go:113-150 | factory and generation move together, by one, or not at all |
| Transports.AntreaClientFactoryProvider.GetClientFactory | pkg/handlers/antreasvc/client.go:104-111 | the factory handed out was built for the generation handed out |
| Sessions.Session.constructor | pkg/auth/session/store.go:161-172 | a new session holds the spec's arrays themselves and has no transports |
| Sessions.Session.TransportFor | pkg/auth/session/session.go:252-274 | a cached transport is reused; otherwise other versions go, and one is built from the credential held now, and cached, exactly if its kind and PEM allow; on a zeroed session too |
| Sessions.Session.DropSuperseded | pkg/auth/session/session.go:291-308 | exactly the other versions of the same upstream go, each cleaned up once |
| Sessions.Session.DropTransports | pkg/auth/session/session.go:311-318 | nothing is cached, and every transport ever built that owns a pool has had its cleanup run exactly once |
| Sessions.Session.RefreshTokenCopy | pkg/auth/session/session.go:334-343 | a fresh copy with the same bytes, or nil |
| Sessions.Session.ApplyRefresh | pkg/auth/session/store.go:401-413 | what is replaced is erased, the old refresh token only if a new one came; all transports go; the new expiry |
| Sessions.Session.Zero | pkg/auth/session/session.go:346-353 | every array held is erased, all transports are released, and this happened exactly once |
| StoreModel.SetDefaults | pkg/auth/session/store.go:107-126 | every bound is positive and the per-user one fits the global one; a bound given is kept, one that is not is 30 minutes, 12 hours, 1000 or 10 |
| StoreModel.EffectiveExpiry | pkg/auth/session/store.go:147-153 | the smaller of the absolute cap and the credential's expiry |
| StoreModel.RefusalDecided | pkg/auth/session/store.go:175-185 | a login refused after enforcing the per-user cap has evicted nobody, and could have been refused beforehand |
| StoreModel.RunWithinCapacity | pkg/auth/session/store.go:155-278 | every reachable store is within MaxSessions and within MaxSessionsPerUser for every non-empty cap key |
| StoreModel.RunWithinCaps | pkg/auth/session/store.go:155-235 | told by user name and mode: no user, the shared admin login aside, has more than MaxSessionsPerUser sessions |
| StoreModel.GetOnFields | pkg/auth/session/store.go:302-357 | the whole of a lookup told by a session's fields: when the provider is asked, what the session then holds, when the lookup succeeds |
| StoreRuns.RecordsMatchLog | pkg/auth/session/store.go:326-357 | creation time and last-seen of a stored session are those of its Create and last successful Get, and its expiry is never stale |
| StoreRuns.SuccessfulGetIsInTime | pkg/auth/session/store.go:302-357 | a successful Get starts within MaxLifetime of creation and IdleTimeout of the last contact, with a credential not expired when checked |
| StoreRuns.DeadStaysDead | pkg/auth/session/store.go:302-365 | once a session is gone or not alive, no later Get of its ID succeeds, in any run with a clock that does not go back |
| StoreRuns.SessionEndsExactlyWhen | pkg/auth/session/store.go:155-452 | a session leaves if and only if it is displaced, reclaimed, deleted, found dead or found expired, and is otherwise left alone |
| StoreRuns.LoginAtTheLimit | pkg/auth/session/store.go:222-258 | in every run: of a user with as many sessions as allowed exactly n - cap + 1 go, each last seen before any that stays, or at the same time and created no later; nothing is reclaimed even from a full store |
| StoreRuns.LoginBelowTheLimit | pkg/auth/session/store.go:179-185 | in every run: otherwise no session of the user goes, and of a full store one that is past its cap, idle too long, or holds an expired credential nobody can renew |
| StoreRuns.LoginOpens | pkg/auth/session/store.go:161-172 | the session opened has the spec's mode, user and material, is seen at its creation, and lives to the earlier of its cap and its credential's expiry |
| StoreRuns.LoginRefusedExactlyWhen | pkg/auth/session/store.go:179-185 | a login is refused if and only if the store is full, every session in it is in time, and the user has none to give up |
| StoreRuns.SweepKeepsExactly | pkg/auth/session/store.go:302-312 | a sweep keeps a session if and only if it is within its cap and its idle timeout and is refreshable or has no expired credential |
| StoreRuns.GetRenewsExactlyWhen | pkg/auth/session/session.go:322-332 | a successful lookup leaves the provider's credential and token if and only if the session is refreshable, its credential runs out within 60 seconds of both readings and the provider renewed it; otherwise the old ones |
| StoreRuns.LoginSparesOthers | pkg/auth/session/store.go:179-278 | in every run a login removes of others at most one session, a dead one, and none at the limit; without a cap key no live one |
| StoreRuns.FailedRefreshIsARetryBudget | pkg/auth/session/store.go:335-357 | while the provider keeps failing, every Get up to and at the credential's expiry succeeds with the credential unchanged |
| StoreRuns.ExpiredCredentialEndsTheSession | pkg/auth/session/store.go:349-352 | the first Get after that removes the session, for good |
| SessionStore.SortOldestFirst | pkg/auth/session/store.go:243-250 | a permutation in which each session is last seen before the next, or at the same time and created no later |
| SessionStore.Store.Create | pkg/auth/session/store.go:155-186 | the whole new table and map; refused exactly if the store is full of sessions that are in time and the user has none to give up, with nothing changed; otherwise the user's stalest sessions go, told by their fields; whatever goes is zeroed once and released |
| SessionStore.Store.EnforcePerUserLimit | pkg/auth/session/store.go:222-258 | exactly n - cap + 1 of the caller's sessions go, each last seen before any that stays, or at the same time and created no later; they are zeroed once and released |
| SessionStore.Store.EvictOneExpired | pkg/auth/session/store.go:266-278 | one session goes that is past its cap, idle too long or holds an expired credential nobody can renew, if there is one, and is zeroed once and released; otherwise nothing changes |
| SessionStore.Store.Get | pkg/auth/session/store.go:326-357 | the provider is called exactly for a session in time, refreshable, and within 60 seconds of its credential's expiry both times, and is shown its token; if it renews, the session holds what it gave, otherwise what it held; the whole new table, map and arrays owned; an expired session is zeroed once and released |
| SessionStore.Store.Delete | pkg/auth/session/store.go:359-367 | that session only is gone, zeroed once and released |
| SessionStore.Store.MaybeRefresh | pkg/auth/session/store.go:373-399 | the provider is called exactly if the session is refreshable and its credential runs out within 60 seconds of both readings, with the session's refresh token |
| SessionStore.Store.ApplyRefresh | pkg/auth/session/store.go:401-413 | only this session's fields change, as renewed, and every other session's bytes stay |
| SessionStore.Store.UnlinkBatch | pkg/auth/session/store.go:437-445 | the batch is out of the map, its material intact and accounted for |
| SessionStore.Store.WipeBatch | pkg/auth/session/store.go:446-449 | each session of the batch is zeroed once |
| SessionStore.Store.DoGC | pkg/auth/session/store.go:415-452 | for any positive batch size, exactly the sessions within cap and idle timeout that are refreshable or have no expired credential remain, unchanged, and exactly the others were zeroed once and released |
| SessionStore.Store.WentThroughARun | pkg/auth/session/store.go:128-142 | what any store went through is a run of the model, so that the theorems about runs speak of it |
| SessionStore.Store.CredentialConservation | pkg/auth/session/session.go:100-129 | an array ever accepted is held by exactly one stored session with its bytes intact, or it is zero |
| SessionStore.Store.HeldIsIntact | pkg/auth/session/session.go:346-353 | zeroing one session never changes what another holds |
| SessionStore.Store.HeldIsEverySecret | pkg/auth/session/session.go:100-129 | what a stored session is said to hold are its token, certificate, key and refresh token, each of them |
| SessionStore.Store.GoneIsGone | pkg/auth/session/session.go:346-353 | a session that is gone was zeroed once and holds no material, and every transport built while it was in service was cleaned up exactly once |
| SessionStore.Store.GoneHoldsTransportExactlyWhen | pkg/auth/session/session.go:252-274 | a removed session holds a transport for a key if and only if a request after its removal asked for that key, with a kind and PEM that can be built, and none has asked for another version of the upstream since |
| SessionStore.Store.TransportFor | pkg/auth/session/session.go:252-274 | a request's call keeps the store valid whether its session is stored or gone, and gets a transport exactly if one is cached or can be built |
| SessionStore.Store.NeverOverCapacity | pkg/auth/session/store.go:155-186 | the two caps, of the store itself, the second per user name |
| ServerAuth.Server.CreateSession | pkg/server/auth.go:39-67 | the spec's arrays end up either intact in the new session or erased; the replaced session is gone |
| KubeCredentials.BearerCredential | pkg/k8s/credentials.go:93-102 | any token that is not blank is taken, as the array it is, with the expiry of its JWT if it is one |
| KubeCredentials.CertCredential | pkg/k8s/credentials.go:104-127 | a certificate is taken exactly if it parses, has not expired and comes with a PEM key |
| KubeCredentials.CredentialOf | pkg/k8s/credentials.go:67-87 | a user gives a credential exactly if no helper is involved and there is a usable token, or no token and a usable certificate; made of those arrays |
| KubeCredentials.CredentialFromKubeconfig | pkg/k8s/credentials.go:45-88 | a kubeconfig gives a credential exactly if the user of its current context has one |
| ServerAuth.Server.LoginWithCredential | pkg/server/auth.go:146-155 | a login that the API server or the store refuses leaves its credential erased; one that is let in keeps it intact, in a session of that mode and user that nothing can renew |
| ServerAuth.Server.LoginWithToken | pkg/server/auth.go:128-162 | a token whose login fails is erased, unless it is blank, and then it is left alone |
| ServerAuth.Server.LoginWithKubeconfig | pkg/server/auth.go:168-203 | a failing login erases exactly the arrays of the credential that the kubeconfig holds, and none if it is refused; every other array pasted keeps its bytes |
| ServerAuth.RequestAuth.KeepAlive | pkg/auth/session/context.go:151-160 | alive exactly if a Get succeeds; without a session, exactly before the credential's expiry |
| ServerAuth.RequestAuth.Invalidate | pkg/auth/session/context.go:165-170 | the request's own session is deleted |
| ServerAuth.RequestAuth.TransportFor | pkg/auth/session/context.go:113-122 | a transport exactly if one is cached or can be built, cached with the session, stored or gone, or built for the request alone |
| ServerAuth.AntreaTransport | pkg/handlers/antreasvc/handler.go:153-166 | in every state of the store, a request that is offered generation g gets a transport of g exactly if one is cached or can be built, from the credential held now, and cached as the only Antrea one |
| ServerAuth.TransportAfterLogout | pkg/auth/session/context.go:113-122 | after a logout a request gets a transport, and it stays cached with the removed session, if and only if one can be built for the kind of credential it had; for a certificate that owns a pool nothing cleans up |
| RefreshProtocol.SingleFlight | pkg/auth/session/store.go:373-383 | at most one request of a session is inside Refresh, whatever else happens |
| RefreshProtocol.PresentsCurrentTokenUnlessLost | pkg/auth/session/store.go:384-399 | every Refresh presents the provider's current token if and only if no answer that retired one has been lost |
| RefreshProtocol.LostAnswerIsFinal | pkg/server/oauth2.go:211-230 | after a lost answer no refresh of this session succeeds |
| RefreshProtocol.NoCallBeforeTheWindow | pkg/auth/session/store.go:374-383 | with the credential outside its window and nobody past the check, no call is made until the window is reached |
| RefreshProtocol.RecheckDecides | pkg/auth/session/store.go:378-383 | the request that holds refreshMutex goes on to call exactly if the credential then runs out within 60 seconds |
| RefreshProtocol.RenewalServesTheWaiting | pkg/auth/session/store.go:378-413 | once a renewal is applied, no request makes a further call until 60 seconds before the new expiry |
| RefreshProtocol.DeletedSessionStaysEmpty | pkg/auth/session/store.go:359-413 | a session deleted with nobody in flight stays empty |
| RefreshProtocol.RefillPossibleExactlyWhen | pkg/auth/session/store.go:359-413 | at a Delete: the session can come to hold a credential again if and only if a request is in flight then and no answer has been lost |
| RefreshProtocol.DeletedSessionRefilledExactlyWhen | pkg/auth/session/store.go:393-413 | looking back: a deleted session holds material exactly if a refresh in flight at the Delete has been applied to it |
| RefreshProtocol.LogoutDuringRefreshRefills | pkg/auth/session/store.go:359-413 | that happens: a reachable state |
| RefreshProtocol.LostAnswerLeavesStaleToken | pkg/auth/session/store.go:384-399 | a stale token is presented: a reachable state |
| SseParser.ReadBlock | client/web/antrea-ui-components/src/lib/flow-stream.ts:211-219 | the data is the data lines joined without leading empty ones, the type that of the last event line |
| SseParser.BlankBlockHasNoEvent | client/web/antrea-ui-components/src/lib/flow-stream.ts:210 | skipping blank blocks loses no event |
| SseParser.ParseSSEBuffer | client/web/antrea-ui-components/src/lib/flow-stream.ts:203-222 | events and rest are those of cutting the normalised text at every separator |
| SseParser.ReadLoop | client/web/antrea-ui-components/src/lib/flow-stream.ts:183-193 | after any chunks, events and buffer are those of one parse of the whole text, if that has no "\r\r\n" |
| SseParser.LeftoverCrLf | client/web/antrea-ui-components/src/lib/flow-stream.ts:205 | normalising leaves a "\r\n" exactly where there was a "\r\r\n" |
| SseParser.ParseAfter | client/web/antrea-ui-components/src/lib/flow-stream.ts:203-222 | with a normalised rest, parsing the rest and more continues the parse of the text |
| SseParser.ChunkingInvariance | client/web/antrea-ui-components/src/lib/flow-stream.ts:183-222 | chunking is invisible at every point of a stream if and only if it has no "\r\r\n" |
| SseParser.CutAfterCrCrLf | client/web/antrea-ui-components/src/lib/flow-stream.ts:189-191 | after a "\r\r\n" even an empty chunk changes the buffer |
| SseParser.ParseMessage | pkg/handlers/flowstream/handler.go:240-258 | an event reads back as written exactly if its type is trimmed and its data is not empty and has no leading space |
| SseParser.CommentsAreInvisible | pkg/handlers/flowstream/handler.go:182-235 | a comment between frames changes nothing, in any stream |
| SseParser.ServerCommentsAreInvisible | pkg/handlers/flowstream/handler.go:177-235 | the opening comment and the keep-alives are such comments |
| SseParser.ClientReadsWhatServerWrites | pkg/handlers/flowstream/handler.go:219-277 | however the network cuts what the server writes, the client has the first events written, in order, and in the end all |
| FlowSamples.FilterThenCap | client/web/antrea-ui-components/src/lib/flow-store.ts:97-101 | on samples in order, filter and cap give the longest suffix that fits |
| FlowSamples.PrunedIsLongest | client/web/antrea-ui-components/src/lib/flow-store.ts:97-101 | no longer suffix fits in 32 samples and 120 seconds |
| FlowSamples.FoldedIsWindow | client/web/antrea-ui-components/src/lib/flow-store.ts:74-103 | folding over any history is pruning once what came since the last reset, last record per end time |
| FlowSamples.SinceResetIs | client/web/antrea-ui-components/src/lib/flow-store.ts:82-87 | what comes since the last reset starts with the last record that falls in time or bytes |
| FlowSamples.NeverBackHasNoReset | client/web/antrea-ui-components/src/lib/flow-store.ts:82-87 | records that never fall in time or bytes have no reset |
| FlowSamples.SamplesRise | client/web/antrea-ui-components/src/lib/flow-store.ts:74-103 | samples strictly rise in time, never fall in bytes, and are at most 32 over at most 120 seconds |
| FlowSamples.RateIsBitsPerSecond | client/web/antrea-ui-components/src/lib/flow-store.ts:53-69 | the rate times the seconds, which are positive, is the bits gained |
| FlowCache.RecencyIsOrdered | client/web/antrea-ui-components/src/lib/flow-store.ts:110-170 | every touched key once, ordered by its last touch |
| FlowCache.MostRecentlyTouched | client/web/antrea-ui-components/src/lib/flow-store.ts:105-144 | what is stored is as many keys as fit, in order of last touch, each touched later than everything not stored |
| FlowCache.OneMoreTouch | client/web/antrea-ui-components/src/lib/flow-store.ts:119-144 | moving the key to the end and keeping the last n is the n most recent keys of one more touch, evicted keys included |
| FlowCache.FlowStore.NextEntry | client/web/antrea-ui-components/src/lib/flow-store.ts:128-134 | the entry made continues the one found: same first-seen, one more reading in the window, now last seen; or starts afresh |
| FlowCache.FlowStore.Evict | client/web/antrea-ui-components/src/lib/flow-store.ts:137-143 | the last maxEntries keys remain, and each one gone is counted |
| FlowCache.FlowStore.Upsert | client/web/antrea-ui-components/src/lib/flow-store.ts:119-144 | one more call in the log, of which the map is the LRU cache, every entry tells its history, and the insertions are what is stored and what was evicted; every other entry stays as it is |
| FlowCache.FlowStore.Get | client/web/antrea-ui-components/src/lib/flow-store.ts:152-160 | a hit is logged as a touch, a miss as none, and the map keeps the same entries |
| FlowCache.FlowStore.Clear | client/web/antrea-ui-components/src/lib/flow-store.ts:178-181 | as new |
| FlowCache.FlowStore.EntryIsItsHistory | client/web/antrea-ui-components/src/lib/flow-store.ts:119-160 | of the calls since the last clear: first-seen is the time of the last upsert that did not find the key, the samples are the window of all readings since that call, the flow is that of the last upsert, last-seen the time of the last touch |
| FlowCache.FlowStore.FoundExactlyWhen | client/web/antrea-ui-components/src/lib/flow-store.ts:119-160 | a call found its key exactly if the key was then among the most recently touched ones that fit |
| FlowCache.FlowStore.StoredAreMostRecent | client/web/antrea-ui-components/src/lib/flow-store.ts:105-144 | the keys stored are the most recently touched ones that fit, in order; what is stored and what was evicted are together the insertions |
| FlowClient.DelayDoubles | client/web/antrea-ui-components/src/lib/flow-stream.ts:246 | delays start at one second, double, and stay at thirty from the sixth |
| FlowClient.FlowStreamClient.FlushBatch | client/web/antrea-ui-components/src/lib/flow-stream.ts:143-148 | the buffer is delivered as one batch, never an empty one |
| FlowClient.FlowStreamClient.Start | client/web/antrea-ui-components/src/lib/flow-stream.ts:105-111 | nothing if running, otherwise one connect with attempts from zero and one batch timer |
| FlowClient.FlowStreamClient.Stop | client/web/antrea-ui-components/src/lib/flow-stream.ts:113-121 | everything handled has been delivered, and no batch timer runs |
| FlowClient.FlowStreamClient.UpdateFilter | client/web/antrea-ui-components/src/lib/flow-stream.ts:123-133 | nothing buffered is lost to the change of filter, and no reconnect is left pending |
| FlowClient.FlowStreamClient.OnResponse | client/web/antrea-ui-components/src/lib/flow-stream.ts:161-181 | 401 and 501 stop for good and say so, a usable response counts attempts from zero, any other is a failure: said and rescheduled, or nothing if the client has stopped |
| FlowClient.FlowStreamClient.HandleSSEEvent | client/web/antrea-ui-components/src/lib/flow-stream.ts:224-237 | exactly the flows of readable flow events are handled |
| FlowClient.FlowStreamClient.OnFailure | client/web/antrea-ui-components/src/lib/flow-stream.ts:194-201 | an abort changes nothing, another failure says so and reschedules, or gives up with everything delivered |
| FlowClient.FlowStreamClient.ScheduleReconnect | client/web/antrea-ui-components/src/lib/flow-stream.ts:239-248 | one more timeout with the next delay while attempts are left, otherwise the client has stopped, and exactly what the callbacks are told |
| FlowClient.FlowStreamClient.StartAndAlwaysFail | client/web/antrea-ui-components/src/lib/flow-stream.ts:105-248 | a client whose requests all fail makes maxReconnectAttempts + 1 of them, with the delays stated, and leaves nothing that could wake it, however often the batch interval fires in between |
| BearerCache.BearerValidator.Begin | pkg/server/authn/bearer.go:118-132 | a hit answers from the cache strictly before its end; a miss is throttled or calls the API server |
| BearerCache.BearerValidator.Finish | pkg/server/authn/bearer.go:134-161 | only an acceptance is cached, until a minute from now or the token's expiry |
| BearerCache.AcceptedMeansVouched | pkg/server/authn/bearer.go:117-161 | in every run, each accepted request rests on an acceptance of that token and user, less than a minute old and before the expiry if cached |
| BearerCache.RevocationBound | pkg/server/authn/bearer.go:117-161 | a token refused from r on is not accepted a minute plus the answer's latency later, nor a minute later if no answer was on its way |
| BearerCache.AcceptPastTheMinute | pkg/server/authn/bearer.go:117-161 | the plain minute is not kept: a validator that breaks it for every acceptance that outlives the revocation |
| BearerCache.LateAcceptanceExactlyWhen | pkg/server/authn/bearer.go:117-161 | for every acceptance decided before r, a run in which it alone gets its token accepted at r + 60 or later exists if and only if it outlives r |
| ScopeProbe.QuiescentConsistentExactlyWhen | pkg/handlers/access/handler.go:142-186 | over all interleavings, with nothing pending, usable exactly if the namespace has no RoleBindings, if and only if the last recheck did not fail on a wrong answer |
| ScopeProbe.QuiescentIsConsistent | pkg/handlers/access/handler.go:88-186 | so always, if no listing fails |
| ScopeProbe.StaleMeansRecheckOwed | pkg/handlers/access/handler.go:142-176 | a stale answer always has an event pending or a recheck on its way, unless a listing failed |
| ScopeProbe.FailedListingLeavesStaleAnswer | pkg/handlers/access/handler.go:158-163 | that exception happens: a reachable state |
| FlowPipeline.ToForwardIs | pkg/handlers/flowstream/grpc.go:99-126 | what is forwarded are the non-empty batches, in order, and strictly increasing counts that are the running maximum |
| FlowPipeline.DeliveredInOrder | pkg/handlers/flowstream/handler.go:219-258 | at any time, the dropped counts and the batches written are those of the first so many events to forward, in order, and of one event the count comes before the flows |
| FlowPipeline.EofDeliversEverything | pkg/handlers/flowstream/grpc.go:82-132 | after EOF, with no cancellation or failure, every non-empty batch and every rising count received was written before the handler returns |
| FlowPipeline.AtMostTheChannelIsLost | pkg/handlers/flowstream/grpc.go:79-132 | otherwise at most the 16 events of the channel, and one in hand, are not delivered |
| FlowPipeline.LoopIsNotStuck | pkg/handlers/flowstream/handler.go:236-239 | once the goroutine has closed its channel the loop can always go on |
| FlowPipeline.ErrorDeliversEverythingExactlyWhen | pkg/handlers/flowstream/handler.go:259-276 | after an upstream error everything was taken, and every batch and count written, if and only if the flow channel is empty when the error is taken |
| FlowPipeline.ErrorIsShownLast | pkg/handlers/flowstream/handler.go:259-277 | when the loop has ended on an error, the last thing written is an error that the goroutine reported |
| FlowPipeline.ErrorCanOvertakeFlows | pkg/handlers/flowstream/handler.go:259-276 | after an upstream error, flows in the channel may never be sent: a reachable state |
| EndToEnd.BrowserSeesWhatAggregatorSent | pkg/handlers/flowstream/grpc.go:99-130 | in every run of the pipeline and for every chunking, the parser's "dropped" events are the first of the rising counts received and its "flow" events the first of the non-empty batches, in order |
| EndToEnd.BrowserSeesEverythingDrained | pkg/handlers/flowstream/handler.go:236-258 | all of them once the channel was drained without a cancellation and everything written has arrived |
| EndToEnd.HeardIsSent | pkg/handlers/flowstream/grpc.go:99-130 | in every run and for every chunking, the flows of the parser's events are the first of the flows the aggregator sent and the counts the first of the rising ones, and in the end all |
| EndToEnd.ReadAndStop | client/web/antrea-ui-components/src/lib/flow-stream.ts:183-193 | a client that reads what has arrived and is stopped has given onFlows, in non-empty batches, exactly the first flows the aggregator sent, in order, and onDropped the first of its rising counts, and all if all has arrived, however often the batch interval fires |
| PluginRegistry.ParsePluginConfigMap | pkg/plugins/registry.go:129-155 | a ConfigMap parses exactly if its manifest does, names a plugin and an entry, and has the entry file; manifest and files are those of the ConfigMap, binary data first |
| PluginRegistry.SortedIsUnique | pkg/plugins/registry.go:157-167 | sorting a set of names has one result, so every call sees the same order |
| PluginRegistry.BeforeIsLexicographic | pkg/plugins/registry.go:160-167 | the order is that of sort.Strings: by the first character that differs, a prefix first |
| PluginRegistry.Registry.HandleUpsert | pkg/plugins/registry.go:102-116 | the content kept per ConfigMap is its last valid version since its last delete |
| PluginRegistry.Registry.HandleDelete | pkg/plugins/registry.go:118-127 | the same, for deletes and tombstones |
| PluginRegistry.CurrentIsLastMade | pkg/plugins/registry.go:102-127 | the content kept is the one made by the last upsert of a valid version that no delete has followed |
| PluginRegistry.Registry.SortedConfigMapNames | pkg/plugins/registry.go:160-167 | exactly the names known, sorted |
| PluginRegistry.Registry.Index | pkg/plugins/registry.go:173-189 | the manifests of exactly the ConfigMaps that come first for their plugin's name, in order |
| PluginRegistry.Registry.File | pkg/plugins/registry.go:195-208 | the file of that same ConfigMap, or none |
| PluginRegistry.IndexListsEachNameOnce | pkg/plugins/registry.go:169-189 | every plugin name claimed is listed, exactly once |
| PluginRegistry.EntryFiles | pkg/plugins/registry.go:191-208 | the entry file of every listed manifest is found, in the ConfigMap that Index kept |

## Left out

- SessionStore.Store.Get: calls of the store do not overlap here; overlapping refreshes and logouts are the subject of RefreshProtocol, and a transport wanted after a logout that of ServerAuth.TransportAfterLogout.
- SessionStore.Store.EnforcePerUserLimit: last-seen does not change during the sort.
- SessionStore.Store.Create: session IDs are numbers, and the hexadecimal text and its randomness are left out.
- StoreModel.EffectiveExpiry: instants are unbounded integers, without the saturation of Go's time.
- FlowSamples.RateIsBitsPerSecond: computed in real numbers, without floating-point rounding; byte counts are exact integers.
- FlowCache.FlowStore.Upsert: upsertBatch, getAll, size and the eviction getters only repeat or read this; a negative maxEntries, for which the loop would not end, is excluded by type.
- FlowClient.FlowStreamClient.OnResponse: callbacks do not call the client back; the abort controller is represented only by the failures it may cause, and that connections do not overlap is not claimed.
- KubeCredentials.CredentialFromKubeconfig: YAML, PEM, X.509 and JWT decoding are functions of the bytes, and the text of the request, a Go string that cannot be erased, is not part of this model.
- EndToEnd.ReadAndStop: one connection; the flows of another one that overlaps it after updateFilter would be interleaved.
- SseParser.ClientReadsWhatServerWrites: one data line per event, as JSON gives; gin's splitting of data with line breaks is not part of this model.
- BearerCache.BearerValidator.Begin: the rate limiter is a flag, and the LRU may evict anything at any time.
- FlowPipeline.EofDeliversEverything: json.Marshal does not fail.
- FlowPipeline.DeliveredInOrder: written means handed to gin; a write of an event that fails below `c.SSEvent`, which returns nothing, is not a step of the model.
- PluginRegistry.Registry.File: the bytes of a file, and what they mean as a manifest, are one value.
- The copies of a token inside client-go transports, which the source says cannot be erased.
- HTTP, gin, gRPC, Kubernetes clients, informers, TLS, OIDC discovery and cookies: the environment of the model.
- Cryptography, encodings, JSON, TextDecoder and logging.
- NamespacesFor, the filter parsing and URL building, the protobuf conversion, CSRF and redirect checks, the password store, configuration: branch tables that reading settles.
- The web pages, the layout and rendering code, and generated code.
