# ArmorClaw: a verified model of its stateful core

ArmorClaw's bridge, sidecar, container client and license server rest on a dozen small stateful
components that make promises about every run: an event ring that stands for an endless log, a cache that must
never answer wrongly, limiters that bound every interval, breakers, a worker pool, an RPC table, a
token-recovery loop, an event file written by one process and read by another, a metadata codec, and a
license allocator. This project models those components in Dafny and proves what they keep over all inputs,
all runs and all interleavings.

Each component has one module. Code that updates fields is a class whose methods are proved against a
specification that does not share the code's data structure; theorems about whole runs are then proved on
the specification.

| module | implementation | independent specification |
|---|---|---|
| `EventBus` | ring array, start, count, batch buffer | unbounded append-only log |
| `LruCache` | map and recency list | entries stamped with the time of their last use |
| `TokenBucketLimiter` | token counts per bucket | a window test over the call history |
| `SlidingWindow` | pruned list of times | all admissions ever made |
| `SidecarBreaker`, `GatewayBreaker` | state fields | the sequence of outcomes |
| `ToolPool` | channel steps of callers, workers and Close | acceptance order and conservation |
| `BridgeClient` | pending table and timers | a scan of the callback trace |
| `MatrixSync` | token fields, retry and loop counters | the sequence of sync outcomes; credentials and replies |
| `MetadataCodec` | index loops | split and join on sequences |
| `BatchWriter` | pending slice, flush loop | the sequence of added messages |
| `LicenseServer`, `LicenseRateLimit` | table rows, transactions, window entries | sets of owned instances; times of admissions |
| `Json`, `EventLine`, `EventFile`, `StepRunner`, `AgentFileWriter` | writer stages, files, reader loops | emitted events, byte counts |

Clocks never go back and are inputs, as are replies of servers, files and the database. A section that holds one
lock is one step. Token amounts are reals. `Options` holds the type of optional values. `dfyconfig.toml` covers
every file.

## What the proofs found

- Bus: a reset returns the number of the oldest retained event as the cursor, so the resumed consumer also skips that event although it is still in the ring (`EventBus.ResetExactly`).
- Matrix sync: a delivered batch whose content merely quotes M_UNKNOWN_TOKEN is discarded and logs the bridge out (`MatrixSync.DeliveredBatchIsLostIff`, `MatrixSync.QuotedCodeLogsOut`).
- Matrix sync: a good access token without a sync position, refresh token or credentials is never used (`MatrixSync.NeverSendsIffStuck`), and a login that brings no refresh token is repeated by the next sync (`MatrixSync.LoginIsRepeatedIff`).
- Worker pool: with MaxWorkers 1 no worker is started; Close returns and accepted tasks are lost. Close is clean iff MaxWorkers is at least 2 (`ToolPool.CloseIsCleanIffWorkers`).
- Gateway breaker: half-open is never entered, so once open it stays open for ever and success counting is dead code; after the timeout it admits every call, not a probe (`GatewayBreaker.RunBehaviour`).
- Step events: the detail can survive a line that did not fit, when it already equals the truncation marker or is empty (`EventLine.DetailKeptIff`). A long enough event type makes a line exceed 4096 bytes after all stages, in both files (`EventLine.LongTypeOverflows`).
- Metadata: the round trip holds exactly for printable maps; others are altered silently (`MetadataCodec.RoundTripIffPrintable`).
- Batch writer: a failing insert drops the rest of its batch, and messages can be stored out of order exactly when two flushes may run at once (`BatchWriter.OrderKeptIffOneFlusher`).
- License server: a request for 0 instances, which the code comments call unlimited, gets the default of its tier; only a negative number is unlimited (`LicenseServer.KeysFollowSteps`).
- License server: validation registers instances with no limit check and without looking at the license again, so even a revoked license can grow; its insert is the only way over the limit (`LicenseServer.CrossesCapIff`, `LicenseServer.ValidatePathExceedsCap`); activation keeps the cap because of the row lock (`LicenseServer.CapsNeedTheLock`); the fixed window admits up to 2*limit-1 requests in an hour, not limit (`LicenseRateLimit.HourBoundIsReached`, `LicenseRateLimit.NeverOverLimitIffOne`).
- Cache: expiry does not disturb the recency law of GetOrCompute, since an expired entry is replaced in front by the access that meets it (`LruCache.ResidentsAreMostRecent`).

## Model

| member | source | states |
|---|---|---|
| `EventBus.MatrixEventBus.constructor` | bridge/internal/events/matrix_event_bus.go:46-62 | a new bus is an empty log with the requested ring size, or the default for a size that is not positive |
| `EventBus.MatrixEventBus.Publish` | bridge/internal/events/matrix_event_bus.go:64-99 | appends the event to the unbounded log under the next sequence number, and the ring again holds exactly the last min(n, size) events, contiguous and in ring order |
| `EventBus.SlotIsModular` | bridge/internal/events/matrix_event_bus.go:72 | the modular index written by the code is the slot after the last retained event, wrap-around included |
| `EventBus.RingPush` | bridge/internal/events/matrix_event_bus.go:72-79 | writing that slot appends to what the ring represents and drops precisely the oldest event when it was full |
| `EventBus.MatrixEventBus.Retained` | bridge/internal/events/matrix_event_bus.go:121-124 | the i-th ring entry is the i-th of the last events of the log |
| `EventBus.MatrixEventBus.GetEventsAfter` | bridge/internal/events/matrix_event_bus.go:101-147 | the poll loop over the ring answers as the unbounded log does: empty, reset, or exactly events cursor+1 up to cursor+min(128, newest-cursor) |
| `EventBus.StepAccounted` | bridge/internal/events/matrix_event_bus.go:64-147 | every publish and every poll keeps the consumer's account: what it received is the log between start and cursor less the skipped numbers |
| `EventBus.RunAccounted` | bridge/internal/events/matrix_event_bus.go:101-147 | over every interleaving of publishes and polls, resets included, each event between start and cursor is received exactly once in order, except exactly those a reset jumped over |
| `EventBus.NoResetNoGap` | bridge/internal/events/matrix_event_bus.go:101-147 | a consumer that never sees a reset has received exactly the slice of the log from its start to its cursor |
| `EventBus.ResetExactly` | bridge/internal/events/matrix_event_bus.go:107-112 | a poll resets iff event cursor+1 has been overwritten; resuming at the returned cursor hands over later events but never the oldest one, although it is still in the ring |
| `EventBus.PacedNeverReset` | bridge/internal/events/matrix_event_bus.go:107-138 | a consumer that polls at least once in every k publishes, k at most the batch size and the ring size, is never reset |
| `EventBus.DrainExactly` | bridge/internal/events/matrix_event_bus.go:114-138 | with publishing stopped, n polls hand over exactly the next 128*n events or all there are, and the newest is reached iff n is at least the rounded-up quotient of the backlog by 128 |
| `LruCache.LRU.constructor` | bridge/internal/cache/lru.go:31-45 | an empty cache with the given capacity and lifetime, or the defaults |
| `LruCache.LRU.Get` | bridge/internal/cache/lru.go:47-63 | answers the live value or nothing, drops and reports an expired entry, and restamps a hit as the most recent |
| `LruCache.LRU.MoveToFront` | bridge/internal/cache/lru.go:73-78 | replacing and moving a resident entry restamps that key alone |
| `LruCache.LRU.SetWithTTL` | bridge/internal/cache/lru.go:69-91 | the key holds the value given with the expiry given, resident or new; the entry with the smallest stamp is evicted and reported iff a new key meets a full cache; stamps as the specification says |
| `LruCache.LRU.PushFront` | bridge/internal/cache/lru.go:84-90 | inserting a new key keeps map and list in agreement and counts one insertion |
| `LruCache.LRU.EvictOldest` | bridge/internal/cache/lru.go:137-144 | removes and reports precisely the least recently touched entry, and nothing from an empty cache |
| `LruCache.LRU.RemoveEntry` | bridge/internal/cache/lru.go:146-152 | removes one key from map and list and reports that key with its value once |
| `LruCache.LRU.Delete` | bridge/internal/cache/lru.go:93-100 | removes and reports the key when resident, else changes nothing |
| `LruCache.LRU.Clear` | bridge/internal/cache/lru.go:102-113 | empties the cache and reports every entry exactly once |
| `LruCache.ReportAll` | bridge/internal/cache/lru.go:106-110 | one onEvict call per entry, in whatever order the map yields them |
| `LruCache.LRU.PurgeOne` | bridge/internal/cache/lru.go:121-135 | one visit of the purge loop removes and reports the entry iff it is expired |
| `LruCache.LRU.PurgeExpired` | bridge/internal/cache/lru.go:121-135 | removes exactly the expired entries, returns their number, reports each once, and leaves the survivors' stamps and so their order |
| `LruCache.LRU.GetOrComputeWithTTL` | bridge/internal/cache/lru.go:158-170 | answers the live entry, else what compute gives; in a cache holding only computed values that is compute(key), hit or miss or error; errors are not cached |
| `LruCache.BackIsOldest` | bridge/internal/cache/lru.go:137-144 | the back of the recency list is the key with the smallest stamp, so evicting the back evicts the least recently touched |
| `LruCache.RunWellFormed` | bridge/internal/cache/lru.go:69-152 | after any trace of operations stamps are distinct, the capacity holds, and new-key insertions = resident entries + onEvict calls |
| `LruCache.RunCoherent` | bridge/internal/cache/lru.go:158-170 | any trace of gets, deletes, clears, purges and insertions of computed values leaves only computed values resident |
| `LruCache.HitsAnswerTheFunction` | bridge/internal/cache/lru.go:158-170 | starting empty, every hit after any such trace answers compute(key) |
| `LruCache.ResidentIffWritten` | bridge/internal/cache/lru.go:47-152 | after any trace a key is resident iff its last Put was not undone by a delete, clear, purge or an expired lookup and was not evicted for room since, and then with that Put's value and expiry |
| `LruCache.GetAnswersLastPut` | bridge/internal/cache/lru.go:47-91 | after any trace a Get answers the value of the last Put of its key iff that is unexpired now and not undone or evicted since, and nothing otherwise; never any other value |
| `LruCache.VouchedIsResident` | bridge/internal/cache/lru.go:47-152 | told from the trace alone: a key stays resident, with the value last put, while fewer other keys than there are places have come up since it was last put or found |
| `LruCache.VouchedAnswers` | bridge/internal/cache/lru.go:47-91 | and until its expiry a Get of such a key answers that value |
| `LruCache.ResidentsAreMostRecent` | bridge/internal/cache/lru.go:47-91 | after every trace of GetOrCompute calls, with any lifetimes and clock readings, the resident keys are exactly the maxSize most recently used distinct keys, in that recency order; an access that meets an expired entry stores the key afresh in front |
| `LruCache.LargerCacheIncludesSmaller` | bridge/internal/cache/lru.go:137-170 | after every trace of GetOrCompute calls a larger cache holds every key a smaller one holds |
| `TokenBucketLimiter.TokenBucket.constructor` | bridge/internal/ai/ratelimit.go:16-23 | a new bucket, of any capacity and rate, has the count its history of nothing but its creation calls for |
| `TokenBucketLimiter.TokenBucket.Allow` | bridge/internal/ai/ratelimit.go:25-44 | admits iff admitting keeps every window ending now within capacity + rate * length, a test on the call history that mentions no tokens |
| `TokenBucketLimiter.OneCall` | bridge/internal/ai/ratelimit.go:29-43 | refill, cap and decrement keep the token count equal to the least remaining room over all windows ending now |
| `TokenBucketLimiter.IntervalBound` | bridge/internal/ai/ratelimit.go:25-44 | over every run and every interval of length d at most capacity + rate * d calls are admitted |
| `TokenBucketLimiter.BoundedIffNonNegative` | bridge/internal/ai/ratelimit.go:25-44 | that bound holds for all histories and intervals iff neither capacity nor rate is negative |
| `TokenBucketLimiter.BucketKeepsBound` | bridge/internal/ai/ratelimit.go:25-44 | the bound for the history of any bucket object, however it was used |
| `TokenBucketLimiter.RateLimiter.constructor` | bridge/internal/ai/ratelimit.go:54-61 | a new limiter has a full global bucket and no user buckets |
| `TokenBucketLimiter.RateLimiter.TakeGlobal` | bridge/internal/ai/ratelimit.go:73-75 | the global token is spent before the user is looked at |
| `TokenBucketLimiter.RateLimiter.BucketOf` | bridge/internal/ai/ratelimit.go:80-84 | a user's bucket is found or created full, and the table is otherwise the same |
| `TokenBucketLimiter.RateLimiter.Spend` | bridge/internal/ai/ratelimit.go:86 | the user's bucket decides from that user's history alone |
| `TokenBucketLimiter.RateLimiter.ServeUser` | bridge/internal/ai/ratelimit.go:77-86 | the part under the table lock is the creation step followed by the user's decision |
| `TokenBucketLimiter.RateLimiter.Allow` | bridge/internal/ai/ratelimit.go:72-87 | a call is the global step followed by the user steps of the two-level model, and is admitted iff both have room |
| `TokenBucketLimiter.RunSound` | bridge/internal/ai/ratelimit.go:72-87 | every interleaving of global and user steps keeps both levels' admission rules and the conservation of global tokens |
| `TokenBucketLimiter.TwoLevelBounds` | bridge/internal/ai/ratelimit.go:72-87 | in every run each user's admissions obey the user bound on every interval, all admissions together obey the global bound, and global tokens spent = admissions + user-level denials + calls between the two levels |
| `TokenBucketLimiter.LimiterKeepsBounds` | bridge/internal/ai/ratelimit.go:72-87 | both bounds for the record of any limiter object, however it was used |
| `SlidingWindow.Retain` | sidecar/src/reliability.rs:269 | the in-place filter keeps exactly the admissions less than a second old, in order |
| `SlidingWindow.RateLimiter.constructor` | sidecar/src/reliability.rs:255-263 | a new limiter has admitted nothing |
| `SlidingWindow.RateLimiter.Acquire` | sidecar/src/reliability.rs:265-299 | the retained list is exactly the last second of all admissions ever made, and the request is admitted iff that has room |
| `SlidingWindow.WindowBound` | sidecar/src/reliability.rs:265-299 | every half-open one-second window of every run holds at most max_requests admissions |
| `SlidingWindow.LimiterKeepsBound` | sidecar/src/reliability.rs:265-299 | the same for the record of any limiter object, however it was used |
| `SlidingWindow.RefusedOnlyWhenFull` | sidecar/src/reliability.rs:276-284 | a request is refused iff the second ending with it already holds max_requests admissions |
| `SidecarBreaker.CircuitBreaker.constructor` | sidecar/src/reliability.rs:114-136 | a new breaker is closed with no failures |
| `SidecarBreaker.CircuitBreaker.CheckTransitionToHalfOpen` | sidecar/src/reliability.rs:198-213 | half-opens only an open breaker whose last failure is a timeout old |
| `SidecarBreaker.CircuitBreaker.OnSuccess` | sidecar/src/reliability.rs:172-196 | effect of a success in each of the three states |
| `SidecarBreaker.CircuitBreaker.OnFailure` | sidecar/src/reliability.rs:215-237 | effect of a failure in each of the three states |
| `SidecarBreaker.CircuitBreaker.Invoke` | sidecar/src/reliability.rs:138-170 | a call that nothing interleaves with is gate, check, body and record in that order; a refused call changes nothing |
| `SidecarBreaker.InterleavedConsistent` | sidecar/src/reliability.rs:138-237 | for every interleaving of steps of any calls: closed iff the count is below the threshold, and open or half-open only with a recorded failure time |
| `SidecarBreaker.OpenHoldsForTimeout` | sidecar/src/reliability.rs:145-158 | once open, the gate refuses every call until the recovery timeout, whatever calls already past the gate still record |
| `SidecarBreaker.CallsTracked` | sidecar/src/reliability.rs:138-237 | after any sequential calls the breaker is a function of the bodies that ran |
| `SidecarBreaker.SequentialBehaviour` | sidecar/src/reliability.rs:138-237 | failure_count is the number of failed bodies since the last success, the breaker is closed iff it is below the threshold and open otherwise, and the next call runs iff the history says so |
| `ToolPool.NewToolPool` | bridge/internal/executor/engine.go:204-236 | starts half as many workers as the configured maximum and a queue of the configured length |
| `ToolPool.StepInv` | bridge/internal/executor/engine.go:223-253 | every channel operation of callers, workers and Close keeps the pool invariant |
| `ToolPool.ScheduleInv` | bridge/internal/executor/engine.go:223-253 | so does every schedule, with the worker count unchanged |
| `ToolPool.EverySchedule` | bridge/internal/executor/engine.go:204-253 | in every schedule with arbitrary cancellation: accepted = queued + running + responded; tasks start at most once and in acceptance order; at most MaxWorkers/2 run at once and at most 2*MaxWorkers wait; a caller gets only its own task's response |
| `ToolPool.CallersGetTheirRuns` | bridge/internal/executor/engine.go:229-253 | in every schedule a caller has response r iff it received and the run of its own task sent r, and has given up iff it cancelled |
| `ToolPool.ResponseIsThere` | bridge/internal/executor/engine.go:247-252 | a waiting caller can receive iff its task has been run to its end |
| `ToolPool.ResponseNeverBlocks` | bridge/internal/executor/engine.go:229-239 | a running worker can always send its response at once, whether or not the caller still listens |
| `ToolPool.CloseIsCleanIffWorkers` | bridge/internal/executor/engine.go:216-218 | every return of Close leaves every accepted task answered iff MaxWorkers is at least 2 |
| `ToolPool.LostTask` | bridge/internal/executor/engine.go:216-218 | with MaxWorkers 1 a schedule in which Close returns with an accepted task never run |
| `ToolPool.CloseMakesProgress` | bridge/internal/executor/engine.go:279-283 | after Close begins and until it can return, some worker step is possible and brings it nearer |
| `ToolPool.WorkerStepShrinks` | bridge/internal/executor/engine.go:229-235 | every worker step brings a closed pool nearer to drained, so workers cannot postpone Close for ever |
| `BridgeClient.ArmorClawBridgeClient.constructor` | container/openclaw/bridge-client.ts:85-89 | no request issued, none pending |
| `BridgeClient.ArmorClawBridgeClient.SendRequest` | container/openclaw/bridge-client.ts:94-121 | issues the next id, which no earlier request has, and puts it in the table with its timer |
| `BridgeClient.ArmorClawBridgeClient.OnTimeout` | container/openclaw/bridge-client.ts:104-107 | the timer rejects its own request and removes it |
| `BridgeClient.ArmorClawBridgeClient.OnSendFailure` | container/openclaw/bridge-client.ts:115-119 | a failed send rejects its own request |
| `BridgeClient.ArmorClawBridgeClient.OnSocketError` | container/openclaw/bridge-client.ts:130-137 | a socket error rejects the request its socket carries if that is still pending |
| `BridgeClient.ArmorClawBridgeClient.OnData` | container/openclaw/bridge-client.ts:139-156 | a parsed response settles the pending request with its id and nothing else; unparsable data changes nothing; see PendingSettlesTo for what it settles to |
| `BridgeClient.ArmorClawBridgeClient.CloseClient` | container/openclaw/bridge-client.ts:279-285 | rejects everything pending |
| `BridgeClient.TableMatchesTrace` | container/openclaw/bridge-client.ts:94-159 | for every feasible trace of callbacks a request is settled with the first event after its issue that concerns it, and the table holds exactly the issued ids that have none |
| `BridgeClient.SettlesOnce` | container/openclaw/bridge-client.ts:94-159 | a settlement never changes, whatever callbacks follow |
| `BridgeClient.ResponseReachesOnlyItsOwn` | container/openclaw/bridge-client.ts:139-156 | a response with another id, with no id, or for a settled request changes neither the outcome nor the pending state of a request (section 5 of the JSON-RPC 2.0 specification) |
| `BridgeClient.PendingSettlesTo` | container/openclaw/bridge-client.ts:94-159 | what the next event makes of a pending request after any trace: a response with its id rejects it with exactly the response's error if there is one and resolves it with the result otherwise; timeout, send failure, socket error and close reject it as such; anything else leaves it pending |
| `BridgeClient.NothingPendingAfterClose` | container/openclaw/bridge-client.ts:279-285 | after close the table and the timers are empty and every issued request is settled |
| `MatrixSync.FindSubstring` | bridge/internal/adapter/matrix.go:2085-2092 | the first occurrence, or -1 iff there is none |
| `MatrixSync.ContainsAny` | bridge/internal/adapter/matrix.go:2075-2082 | true iff some listed substring occurs |
| `MatrixSync.IsRetryable` | bridge/internal/adapter/matrix.go:1648-1672 | retryable iff one of the context or network texts occurs anywhere in the error text, or the status is 429 or 5xx |
| `MatrixSync.TokenInvalidatedIsFinal` | bridge/internal/adapter/matrix.go:1648-1663 | the token error's own text contains none of the retryable patterns, so it is never retried |
| `MatrixSync.BackoffExactly` | bridge/internal/adapter/matrix.go:1197-1218 | for every sequence of outcomes the backoff is min(2^j, 30) seconds with j the non-token failures of the current failure run, and the failure counter is that run's length |
| `MatrixSync.ReloginExactly` | bridge/internal/adapter/matrix.go:1197-1218 | a re-login is asked for iff the token was rejected or a plain failure makes the run a multiple of three |
| `MatrixSync.ThreeFailuresRelogin` | bridge/internal/adapter/matrix.go:1197-1218 | any three consecutive failures include a re-login |
| `MatrixSync.MatrixAdapter.constructor` | bridge/internal/adapter/matrix.go:216-240 | tokens and credentials as configured, no attempt made |
| `MatrixSync.MatrixAdapter.IsTokenExpired` | bridge/internal/adapter/matrix.go:1874-1897 | when the code takes the token to be expired |
| `MatrixSync.MatrixAdapter.RefreshAccessToken` | bridge/internal/adapter/matrix.go:1901-2024 | replaces the tokens iff a refresh token existed and the server granted it, keeping the old refresh token if none came back; otherwise changes nothing |
| `MatrixSync.MatrixAdapter.Login` | bridge/internal/adapter/matrix.go:279-389 | one password attempt, replacing both tokens iff granted |
| `MatrixSync.MatrixAdapter.EnsureValidToken` | bridge/internal/adapter/matrix.go:2028-2072 | makes exactly the attempts the credentials allow and succeeds iff the last one made was granted; see RefreshComesFirst for their order |
| `MatrixSync.MatrixAdapter.Sync` | bridge/internal/adapter/matrix.go:541-730 | its error, text and status included, or success, and exactly the tokens it leaves: both cleared on a rejection or a 401, the sync position moved on success |
| `MatrixSync.MatrixAdapter.SyncWithRetry` | bridge/internal/adapter/matrix.go:1817-1869 | the n-th attempt is the last iff it does not fail for a transient reason, or it is the third, or the wait after it is cancelled; its own result comes out in the first case and the wrapper's error otherwise; token states chain through the attempts, and the refresh and login calls are exactly those the states call for |
| `MatrixSync.RetriedIff` | bridge/internal/adapter/matrix.go:1635-1672 | which attempts are retried, told from the replies: a 5xx without the rejection code, or an error text that names a passing network condition; never a 429, a rejection, a delivered batch or a missing login |
| `MatrixSync.OutageIsRiddenOut` | bridge/internal/adapter/matrix.go:1826-1861 | a passing network failure followed by a delivered batch: exactly two attempts are made, the outcome is success and the sync position is the batch's |
| `MatrixSync.RejectionEndsTheAttempts` | bridge/internal/adapter/matrix.go:1826-1841 | an attempt made meets M_UNKNOWN_TOKEN iff it is the last one and the token error is the outcome |
| `MatrixSync.RefreshComesFirst` | bridge/internal/adapter/matrix.go:2028-2072 | for an expired token: the refresh token is tried first and a grant for it leaves the password unused; the password is the fallback; the tokens are those of the last call made if it was granted, else unchanged |
| `MatrixSync.LoggedOutIff` | bridge/internal/adapter/matrix.go:635-662 | of the replies to a request, exactly a rejection and a 401 clear the access token, and then the sync position with it; the refresh token stays |
| `MatrixSync.MatrixAdapter.Iterate` | bridge/internal/adapter/matrix.go:1221-1324 | one loop turn: attempts as SyncWithRetry makes them; if the reply to any attempt made rejects the token, the turn ends in a re-login that makes a refresh or password attempt whenever credentials exist; the loop makes no other attempt, and the tokens it leaves are stated |
| `MatrixSync.DeliveredBatchIsLostIff` | bridge/internal/adapter/matrix.go:663-688 | a batch the server delivered is discarded and both tokens cleared iff its text contains M_UNKNOWN_TOKEN anywhere |
| `MatrixSync.QuotedCodeLogsOut` | bridge/internal/adapter/matrix.go:676-688 | a status-200 sync with a chat message quoting the code, which clears both tokens |
| `MatrixSync.LoginIsRepeatedIff` | bridge/internal/adapter/matrix.go:1874-1897 | after a rejected token and a granted password login the next sync asks for a token again iff the login brought no refresh token, or no expiry check is on record, or that check is over seven days old |
| `MatrixSync.NeverSendsIffStuck` | bridge/internal/adapter/matrix.go:2028-2072 | over every sequence of syncs no request ever goes out iff there is no refresh token, no credentials, and no access token or no sync position |
| `MetadataCodec.SerializeMetadata` | bridge/internal/memory/store.go:252-264 | the joined pairs in some order that lists every key exactly once |
| `MetadataCodec.SplitPairs` | bridge/internal/memory/store.go:281-294 | the index loop computes the split at each bar, dropping only a trailing empty piece |
| `MetadataCodec.SplitKV` | bridge/internal/memory/store.go:296-303 | splits at the first equals sign |
| `MetadataCodec.DeserializeMetadata` | bridge/internal/memory/store.go:266-279 | the loops compute the parse: nothing for the empty string, else the pairs with a non-empty key, later ones winning |
| `MetadataCodec.JoinSplits` | bridge/internal/memory/store.go:252-294 | for printable maps, splitting the joined string gives back the pairs one for one |
| `MetadataCodec.PiecesRejoin` | bridge/internal/memory/store.go:281-294 | for any string: closing each piece with a bar gives the string back, a missing last bar supplied |
| `MetadataCodec.PairsAreFree` | bridge/internal/memory/store.go:281-294 | and no piece contains a bar, so the cuts are at every bar and nowhere else |
| `MetadataCodec.KeyValueIff` | bridge/internal/memory/store.go:296-303 | a piece is split into k and v iff k has no equals sign and the piece is k=v, or is k alone with v empty |
| `MetadataCodec.LastPieceWins` | bridge/internal/memory/store.go:266-279 | a key has a value iff it is not empty, some piece gives it that value, and no later piece gives it any |
| `MetadataCodec.ParsesTo` | bridge/internal/memory/store.go:266-303 | so for any string at all, printed or not |
| `MetadataCodec.ParsedIsPrintable` | bridge/internal/memory/store.go:266-303 | whatever string is parsed, the result is printable |
| `MetadataCodec.RoundTripIffPrintable` | bridge/internal/memory/store.go:252-303 | for every map and every iteration order, parsing the printed string gives the map back iff its keys are non-empty and free of both separators and its values free of the bar |
| `BatchWriter.Writer.constructor` | bridge/internal/memory/batch.go:24-43 | an empty writer with the batch size asked for or the default |
| `BatchWriter.Writer.Add` | bridge/internal/memory/batch.go:45-57 | appends, and signals the flusher when the batch is full |
| `BatchWriter.Writer.Flush` | bridge/internal/memory/batch.go:59-75 | takes everything pending and stores it in order up to the first failing insert |
| `BatchWriter.RunConserved` | bridge/internal/memory/batch.go:45-75 | every run keeps added = done + in flight + pending as multisets, with any number of flushers and any failures |
| `BatchWriter.EveryRunConserved` | bridge/internal/memory/batch.go:45-75 | so that balance holds in every run from the start |
| `BatchWriter.SingleFlusherInOrder` | bridge/internal/memory/batch.go:45-75 | with one flusher, done ++ in flight ++ pending is the added sequence, failures included |
| `BatchWriter.StoredIsPrefixIffNoneFailed` | bridge/internal/memory/batch.go:45-75 | with one flusher, stored ++ in flight ++ pending is the added sequence iff no insert failed |
| `BatchWriter.CompleteIffNoInsertFails` | bridge/internal/memory/batch.go:45-75 | the same told from the steps: nothing is missing from the store iff no insert step of the run failed |
| `BatchWriter.FailureEndsTheBatch` | bridge/internal/memory/batch.go:66-74 | after a failing insert nothing left of its batch is stored, and its flusher inserts nothing more before its next swap, whatever the others do |
| `BatchWriter.OrderKeptIffOneFlusher` | bridge/internal/memory/batch.go:59-75 | for every number of flushers and batch size: all error-free runs store a prefix of the added sequence iff there is at most one flusher |
| `BatchWriter.TwoFlushersCanReorder` | bridge/internal/memory/batch.go:59-75 | for any two flushers or more, an error-free run that stores two messages in the opposite order |
| `BatchWriter.NoLostWakeup` | bridge/internal/memory/batch.go:45-57 | whenever a full batch is pending, a wake-up is waiting or a flush or signal is still due |
| `GatewayBreaker.CircuitBreaker.constructor` | bridge/internal/petg/gateway.go:42-59 | a closed breaker with the given settings or the defaults |
| `GatewayBreaker.CircuitBreaker.Allow` | bridge/internal/petg/gateway.go:61-75 | admits when not open, or when open longer than the timeout |
| `GatewayBreaker.CircuitBreaker.RecordSuccess` | bridge/internal/petg/gateway.go:77-92 | effect of a success in each state |
| `GatewayBreaker.CircuitBreaker.RecordFailure` | bridge/internal/petg/gateway.go:94-111 | effect of a failure in each state |
| `GatewayBreaker.CircuitBreaker.Execute` | bridge/internal/petg/gateway.go:119-132 | runs iff admitted and records the body's outcome; a refused call changes nothing |
| `GatewayBreaker.RunBehaviour` | bridge/internal/petg/gateway.go:61-132 | for every run from a new breaker: open iff some prefix ended in a threshold of failures in a row, else closed with the current streak below the threshold, never half-open; while open a call runs iff more than the timeout has passed since the last failure |
| `GatewayBreaker.OpenIsAbsorbing` | bridge/internal/petg/gateway.go:61-132 | once open, no further outcomes close it |
| `LicenseServer.StepSound` | license-server/main.go:461-563 | every step of interleaved activations, creations, revocations and validations, a validation's look and its insert apart, keeps the cap, the room of transactions past their check, an active license under every open transaction, and one holder per license row |
| `LicenseServer.RunSound` | license-server/main.go:461-563 | so does every run |
| `LicenseServer.CapHolds` | license-server/main.go:461-563 | from an empty store, no limited license exceeds its cap in activated instances, and in all instances when validation has registered none |
| `LicenseServer.OwnershipIsStable` | license-server/main.go:535-548 | an instance id never moves to another license, with validation included and even without the row lock |
| `LicenseServer.KeysFollowSteps` | license-server/main.go:640-700 | after any run a key's license, its limit and whether it is active are those its creation and revocation steps give it |
| `LicenseServer.StartsIffActive` | license-server/main.go:470-487 | when nothing holds its row, an activation can start iff its key was created and not revoked; a validation goes on to register iff, besides, the license has not expired |
| `LicenseServer.OpenTransactionsAreActive` | license-server/main.go:470-487 | in every locked run the license of every open activation is active |
| `LicenseServer.RevokedForGood` | license-server/main.go:470-548 | from a revoked license on, every run leaves it revoked and the set of its activated instances unchanged |
| `LicenseServer.RevocationIsFinal` | license-server/main.go:775-797 | in every run from an empty store, what is activated when a license is revoked is all that ever will be |
| `LicenseServer.ActivationRegisters` | license-server/main.go:535-563 | an activation that passes its check registers its new instance under its own license and changes nothing else |
| `LicenseServer.RegistersIff` | license-server/main.go:422-548 | an instance becomes registered under a license iff the step is the commit of its activation past the check, or a validation's insert of it; no refusal, rollback, creation or revocation registers anything |
| `LicenseServer.ReactivationChangesNothing` | license-server/main.go:494-548 | re-activating a registered instance passes its own license's check however full that is, and leaves the whole store as it was |
| `LicenseServer.RefusedIffFull` | license-server/main.go:505-533 | an unregistered instance is refused iff its license is limited and full |
| `LicenseServer.ValidatePathExceedsCap` | license-server/main.go:422-425 | a run in which validation takes a license over its cap |
| `LicenseServer.RevokedLicenseExceedsCap` | license-server/main.go:355-425 | a run in which a license goes over its limit after it was revoked, by a validation that looked before |
| `LicenseServer.CrossesCapIff` | license-server/main.go:422-425 | a step takes a license over its limit iff it is a validation's insert of an unregistered instance into a limited license that is exactly full, whatever has become of the license since the validation looked |
| `LicenseServer.OverLimitIffCrossed` | license-server/main.go:422-425 | at the end of any run a license is over its limit iff such an insert was let through on the way |
| `LicenseServer.NoLockExceedsCap` | license-server/main.go:470-533 | without the row lock two activations exceed the cap |
| `LicenseServer.CapsNeedTheLock` | license-server/main.go:470-533 | activations alone keep every cap in every run iff the row lock is taken |
| `LicenseRateLimit.Limiter.constructor` | license-server/main.go:176 | no window is open |
| `LicenseRateLimit.Limiter.CheckRateLimit` | license-server/main.go:887-918 | records the request under its tier's limit, keeps every key's entry what its requests lead to, admits as that window says, and touches no other key |
| `LicenseRateLimit.MixedHourBound` | license-server/main.go:887-918 | whatever tiers a key's requests come with, every closed hour holds at most twice the largest limit less one admissions |
| `LicenseRateLimit.LimiterKeepsHourBound` | license-server/main.go:887-918 | the same for the record of any limiter object, however it was used |
| `LicenseRateLimit.HourBound` | license-server/main.go:904-917 | every closed one-hour interval of every run of a key holds at most 2*limit-1 admissions |
| `LicenseRateLimit.RefusedOnlyWhenFull` | license-server/main.go:904-917 | a request is refused only when the hour up to it already holds as many admissions of its key as its own limit |
| `LicenseRateLimit.HourBoundIsReached` | license-server/main.go:904-917 | for every limit of at least 2 a run that reaches that number, so the bound is exact |
| `LicenseRateLimit.NeverOverLimitIffOne` | license-server/main.go:904-917 | every hour of every run stays within the limit iff the limit is 1 |
| `Json.ValueParses` | container/openclaw/events.py:80-87 | parsing a printed value in front of any text that does not start with a digit gives the value and that text |
| `Json.LoadsDumps` | container/openclaw/step_runner.py:57-64 | loads(dumps(v)) = v for every value with unique keys, ASCII-only or not |
| `Json.TrailingTextFails` | container/openclaw/step_runner.py:60-64 | a value followed by more text, where it could not have gone on, does not parse |
| `Json.PrintSize` | container/openclaw/events.py:82-83 | the UTF-8 length of the printed text is the recursively computed byte count, with every escape and surrogate pair (section 7 of RFC 8259) |
| `Json.PrintClean` | container/openclaw/events.py:80-81 | the ASCII-only text contains no line break and no character outside the printable range |
| `Json.PrintApart` | container/openclaw/events.py:80-81 | printing does not depend on what follows |
| `EventLine.SizeIs` | container/openclaw/events.py:80-83 | the size of a line is its fixed part plus the name's and the detail's bytes |
| `EventLine.EmittedFitsIff` | container/openclaw/events.py:80-100 | the emitted line fits in 4096 bytes iff the barest form does, so no stage is wasted and none is missing |
| `EventLine.EmittedFits` | container/openclaw/events.py:80-104 | for every name and detail the emitted line fits whenever type, number, time and duration take at most 3254 bytes |
| `EventLine.DetailKeptIff` | container/openclaw/events.py:80-104 | the detail survives iff the original line fitted, or the detail happens to equal what a truncation stage would put there |
| `EventLine.UnchangedIff` | container/openclaw/events.py:80-100 | an event is written exactly as asked for iff its line fits, or it has no detail and a name no stage would cut; for both writers |
| `EventLine.RestIsKept` | container/openclaw/events.py:80-100 | number, type, time and duration are always those asked for, in both writers |
| `EventLine.NameKeptIff` | container/openclaw/events.py:84-100 | the name is kept iff the line fits as asked for or with the marker, or the name has at most 64 characters; otherwise it is its first 64 |
| `EventLine.DetailKeptByAccident` | container/openclaw/events.py:84-92 | an event whose line fits in neither file and whose detail both writers keep |
| `EventLine.LongTypeOverflows` | container/openclaw/events.py:80-100 | an event type of 5000 characters, with which both writers' lines are over 4096 bytes after all stages |
| `EventLine.AppendedDetailKeptIff` | container/openclaw/agent_file_writer.py:295-332 | the exact condition for the agent log: the original line fitted, or the detail equals what a stage would put there |
| `EventLine.AppendedNameKeptIff` | container/openclaw/agent_file_writer.py:295-332 | the same for the agent log, with the last cut to 32 characters |
| `EventLine.AppendedFitsIff` | container/openclaw/agent_file_writer.py:295-332 | the agent log's line fits iff its barest form, with the name cut to 32, does |
| `EventLine.AppendedFits` | container/openclaw/agent_file_writer.py:295-332 | for every name and detail the appended line fits whenever the fixed fields take at most 3830 bytes |
| `EventFile.FitToPipe` | container/openclaw/events.py:80-100 | the nested truncation stages compute the specified event and its line; an event whose line fits is left as it is |
| `EventFile.EventEmitter.constructor` | container/openclaw/events.py:55-61 | appends the header line to what the file holds |
| `EventFile.EventEmitter.Emit` | container/openclaw/events.py:63-104 | the file grows by exactly the line of the event, numbered one more than the last; the event is the one asked for whenever its line fits, and its truncation otherwise |
| `EventFile.EventEmitter.Close` | container/openclaw/events.py:186-196 | appends the summary event with the number of events emitted before it, keeping what the file began with |
| `EventFile.LineReadsBack` | container/openclaw/step_runner.py:57-64 | every written line is one line, and reading it yields the event's dictionary |
| `EventFile.FileLines` | container/openclaw/step_runner.py:55-57 | the lines of the file are the header and the events' lines, in order |
| `EventFile.FileReadsBack` | container/openclaw/step_runner.py:49-72 | reading the whole file yields exactly the emitted events in order |
| `StepRunner.ReadEvent` | container/openclaw/step_runner.py:57-64 | blank lines, comments and unparsable lines are passed over; a JSON value that is not an object stops the reader |
| `StepRunner.SummarizeEvents` | container/openclaw/step_runner.py:75-99 | the summary of the file's lines, nothing for a missing file or one without events |
| `StepRunner.CountLines` | container/openclaw/step_runner.py:79-97 | the counting loop computes the tally of the lines, keys counted as Python equates them, and raises where a line has no usable type |
| `StepRunner.ExtractBlockers` | container/openclaw/step_runner.py:49-72 | the blocker loop computes the blockers of the file's lines in order, with the source's treatment of details that are strings, lists or neither |
| `StepRunner.ReaderReportsEmittedEvents` | container/openclaw/step_runner.py:49-99 | for every list of emitted events: total = number of emits = sum of the per-type counts, each count is right, and the blockers come out in emission order |
| `StepRunner.EmitterIsReadBack` | container/openclaw/step_runner.py:49-99 | the same for the file of every emitter started on a fresh file |
| `StepRunner.AskedIsReadBack` | container/openclaw/step_runner.py:49-99 | against what was asked to be emitted: one event read for each, in order, with number, type, time and duration as asked and the very event asked for wherever its line fits; total and counts per type are those of what was asked |
| `StepRunner.FittingIsReadBack` | container/openclaw/step_runner.py:49-99 | when every line fits, events and blockers read are precisely those asked for |
| `StepRunner.MessageIs` | container/openclaw/step_runner.py:67-70 | a reported blocker keeps its own message, or gets the event's name as message, and all its other fields are as they were |
| `StepRunner.BlockersHaveMessages` | container/openclaw/step_runner.py:66-71 | every reported blocker has a message |
| `AgentFileWriter.Writer.constructor` | container/openclaw/agent_file_writer.py:104-118 | appends the header and starts uncapped with number 0 |
| `AgentFileWriter.Writer.CheckCap` | container/openclaw/agent_file_writer.py:334-357 | caps iff the size is known and has reached 10 MB, and a failed size check lets the event through |
| `AgentFileWriter.Writer.EnforcePipeBuf` | container/openclaw/agent_file_writer.py:295-332 | the four stages compute the specified event and its line |
| `AgentFileWriter.Writer.AppendEvent` | container/openclaw/agent_file_writer.py:170-204 | writes exactly the event's line under the next number, or changes neither file nor number when capped, and keeps the log what the requests so far lead to |
| `AgentFileWriter.LogIsBounded` | container/openclaw/agent_file_writer.py:170-204 | over every run of fitting events the log stays within max(initial size, 10 MB - 1 + 4096) bytes, plus 4096 for each event written while the size could not be read |
| `AgentFileWriter.BoundedRequestsFit` | container/openclaw/agent_file_writer.py:295-332 | runs of requests whose fixed fields take at most 3830 bytes write only fitting events |
| `AgentFileWriter.SequenceHasNoGaps` | container/openclaw/agent_file_writer.py:186-189 | the numbers written are 1..n in order, over every run |
| `AgentFileWriter.WriterKeepsBound` | container/openclaw/agent_file_writer.py:170-204 | both for the file of any writer object, however it was used |
| `AgentFileWriter.CappedForGood` | container/openclaw/agent_file_writer.py:182-185 | once capped, nothing changes again |
| `AgentFileWriter.WritesUntilCap` | container/openclaw/agent_file_writer.py:170-204 | over any run the first n requests are written, one event each, none of them having met a known size at the cap; the writer is capped iff some request was not written, and the first such met a known size at the cap |
| `AgentFileWriter.BelowCapLosesNothing` | container/openclaw/agent_file_writer.py:182-204 | a log below the cap has lost no request, and holds every fitting one as asked for |

## Left out

- Bus: WaitForEvents, which reads outside the lock; live subscriber channels, lossy by design; the aliasing of the shared batch buffer, since the model hands out a copy; wrap-around of 64-bit sequence numbers.
- LruCache.ResidentsAreMostRecent: speaks of GetOrCompute calls alone, as deletions, clears and purges free places out of turn; keys whose computation fails count as not used, since errors are not cached.
- LruCache.LRU.PushFront: takes a new key and a free place, as its one caller ensures; the full case is SetWithTTL.
- LRU statistics and Len, and the cached value's type: an integer stands for any value.
- TokenBucketLimiter.IntervalBound: asks for a capacity and a rate that are not negative, which BoundedIffNonNegative shows to be exactly when the bound holds; rounding of floating-point tokens is not modelled.
- ConcurrentLimiter and ExecuteBatch: a counting semaphore and a fan-out over Execute, which would only add easy members.
- SidecarBreaker.CircuitBreaker.Invoke: proved for calls that nothing interleaves with; interleavings are step sequences. Deadlock freedom and progress are not claimed, because success and failure take their two locks in opposite orders. The half-open check is one step.
- Metrics, the S3 reliability wrapper and 32-bit wrap-around of counters in the sidecar.
- Tool pool, batch flushing and license transactions: interleavings are state machines on values, not objects shared by threads. Submitting after Close, which panics in the source, is not a step.
- BridgeClient: the socket itself, message framing and the typed request methods; ids are natural numbers and results strings.
- MatrixSync: waiting, jitter and cancellation beyond whether it happens; what a sync does with the events it received; texts of errors other than the token error, which are inputs.
- MatrixSync.MatrixAdapter.SyncWithRetry: the replies and cancellations of its three attempts are given as a list, in place of a server.
- LicenseServer: features, hostnames, versions and timestamps of rows; expiry is an input of validation and, as in the source, not looked at by activation; rows are never deleted, as no handler deletes them. A validation's insert waits for the row lock as a foreign-key check does.
- LicenseRateLimit.HourBound: speaks of requests with one tier; MixedHourBound allows any tiers.
- Json: floating-point numbers, NaN, keys that are not strings and unpaired surrogates. Translation of carriage returns on reading is not modelled, as no emitted line has one.
- StepRunner.CountLines: which of two equal keys, such as true and 1, is shown in the summary is not modelled, only their common count.
- EventLine.EmittedFits: bounds the bytes of the fixed fields, because a long enough type or number does exceed the line size; EmittedFitsIff is the exact condition.
- AgentFileWriter.LogIsBounded: assumes that the events written fit, which BoundedRequestsFit proves for bounded fixed fields.
- The agent status file, the Go reader of the agent log, and failing file writes.
- Digests, PII scrubbing, key handling, HTTP, gRPC, Unix sockets and SQL text, the command-line programs, setup code, browser service and user interfaces.
