# Verification model of the harness backend

A Dafny model of the parts of the backend where a mistake would be silent: how concurrent
workers share Redis and Neo4j, how tokens and quotas are counted, how two-structure indexes
and caches stay in step with the simple thing they stand for, and how text and graphs are put
into the canonical or escaped form that Cypher and prompts need.

`dafny verify dfyconfig.toml` checks everything.

## How it is organised

One module per component; code that changes state is a class or a method with loops, proved
against specification functions, and code made of expressions is functions. Interleavings are
transition systems: a `Step` datatype whose constructors are single Redis or Cypher commands,
a `Next` function that says what a step does and when it is enabled, and theorems over every
run (`IsRun`). The lemma `EnabledExactlyWhen` of each such module lists when each step is
possible; the `Lone...` lemmas say what the commands amount to without interference.

| module | component | main results |
|---|---|---|
| `MasterLock`, `WriteProtocol` | lease lock and the read, compute, write-back of master documents | no lost update, mutual exclusion with ownership, release removes only its own key; from every state with an overrun lease a run that loses a delta |
| `PostMeeting` | the CPS task and the PRD coroutine inside the lock | order of commits, no write outlives the lock, when the clean-up runs, exactly what a job returns or fails with |
| `InflightGate`, `GateProtocol`, `EnqueueProtocol` | per-account and per-project admission gates, alone and together | slot bound under interleaving, met for every limit and width; reclaiming of stale slots over runs; a refused enqueue leaves nothing behind under interleaving |
| `ExtractCache` | cache key, single-flight lock, wait loop | single flight, provenance of every returned extract, exactly when a key is shared |
| `TokenSplit` | token accumulator, mid-job downgrade, split booking | the split is the shortest crossing prefix, conservation, size of the overshoot |
| `UsageLedger`, `QuotaSerial` | six Cypher programs on one User node | counters are sums since the last zeroing, timers, grants; serialisability of concurrent transactions |
| `SessionRegistry` | HASH per session, ZSET per user | the listing is exactly the active sessions, newest first |
| `TokenRotation` | blacklist, token checks, refresh rotation, logout | no gap in revocation, one spendable refresh token per login |
| `EventTable` | normalisation and hash-skipping upsert | equals last-write-wins but for nested field order, exactly which payloads a hash fixes, re-ingesting changes nothing |
| `CypherText` | string escaping, safe keys, property maps | a reader of Cypher maps gets the properties back |
| `GraphCanon` (with `ListPasses`, `Ordering`) | graph canonicalisation | idempotent, unique ids, nothing lost, exactly when the input order does not matter |
| `MeetingText` | text canonicalisation | equal to a line-by-line reference, clean output, idempotent, independent of line ends and trailing whitespace |
| `FenceStrip` | code-fence stripping and JSON extraction | equal to the regular expressions they replace; an object in prose is found exactly |
| `PromptRender`, `TwoPasses` | template rendering and hardening | one tokenisation, values never rescanned, exactly when two passes equal one |

`Wrappers`, `JsonValues`, `LeaseStore` and `PyText` hold result types, parsed JSON and its form
under `sort_keys`, Redis keys with an expiry and the clock of a polling loop, and the Python
string operations.

## Hypotheses

They stand in the contracts, and are the ones the code itself needs.

- Redis and Neo4j answer every call, since every Redis gate fails open.
- `LeaseKept`: a critical section, its release included, ends within the TTL of its last
  acquire. Every run that breaks it, inside the section or before the DELETE of the release,
  goes on to one that loses a delta, given idle jobs of the project and deltas that matter:
  `WriteProtocol.OverrunLosesUpdate` and `WriteProtocol.LateDeleteLosesUpdate`.
- A job id runs at most once at a time, and the GET and SET of a re-entry in `_try_acquire`
  are one step.
- The scoped project key is any function of the job.
- `get_usage` and the admin reset are one step each, as the module's own remark on the reset
  boundary allows.
- Refresh calls do not overlap, and the breaker is closed with the monotonic clock past its
  cooldown.
- The SHA-256 of `payload_hash` has no collision among the finitely many payloads that come
  (`EventTable.NoCollision`); that of the extract digest may collide, and only the statements
  that say so (`ExtractCache.Tells`) assume that two given contents do not.
- uuids are fresh; NFC is the identity; `str()`, `json.loads`, `lower()` and the date parser are
  arbitrary functions, `str()` of no non-string being blank (`EventTable.IsStr`).

## Where the code differs from what is said about it

The model follows the code.

- `app/queue/jobs.py:866-896` says that transient LLM errors of the PRD stage are passed on to
  be retried. `GeminiError` is a `RuntimeError`, so they are downgraded like the others.
  `PostMeeting.ComputeFailureDecides` says for every error whether it is passed on;
  `PostMeeting.GeminiFailureIsDowngraded` is the case of the LLM's.
- `_tracked_ctx` runs before the `try` block, so a failure in it leaves tokens and slot to the
  purge: `PostMeeting.CleanUpRuns` says exactly when the clean-up runs.
- A 409 gives back the account slot of a task id even if that id had the slot before the call:
  `InflightGate.BusyProjectGivesSlotBack` has the exact condition.
- `revoke_if_new` promises False when Redis fails, but returns True when the open breaker has
  skipped the write: `TokenRotation.Blacklist.RevokeIfNew`.
- `_CYPHER_IDENT_RE` ends in `$`, which also matches before a final newline. Such a key is
  printed and comes back without its newline: `CypherText.KeysComeBackExactlyWhen`.
- Project and version are joined by a colon that may occur in both. `ExtractCache.SeparatorCollides`
  says exactly which inputs have a key to themselves.
- Enqueues that overlap may pass a gate together: it keeps its limit exactly when no two stand
  between test and add (`GateProtocol.LimitKeptExactlyWhen`).
- The main bucket overshoots by less than one call exactly when the account was under its limit
  as the job began: `TokenSplit.OvershootIsOneCall`.
- A hash skip keeps stale fields when the normaliser changes and the payload does not
  (`EventTable.StaleAfterNormaliserChange`, a remark that follows from the definition of the
  upsert), and, since `json.dumps(..., sort_keys=True)` sorts nested dicts as well while `str()`
  does not, when a dict that a field shows comes with its keys in another order:
  `EventTable.NestedOrderGoesStale`. `EventTable.HashFixesRowExactlyWhen` says which payloads
  are safe.
- ZADD and EXPIRE are two commands. A slot whose EXPIRE never came can be freed young when the
  key still has an older expiry: `GateProtocol.MissingExpireFreesYoung`.
- `harden_untrusted` with a negative `max_len` is not idempotent:
  `PromptRender.HardenTwiceExactlyWhen`. A hardened value can complete a token of a second pass
  (`PromptRender.UnborderedTokenIsRescanned`): in the templates that
  `TwoPasses.TwoPassesAgreeExactlyWhen` describes, and in no others.

## Model

| member | source | states |
|---|---|---|
| `MasterLock.ClaimMeans` | app/core/master_lock.py:62-84 | an attempt gets in iff the key is free or names the caller; then the key names the caller for one full lease and not longer, and no other project's key moves |
| `MasterLock.LeaseLock.TryAcquire` | app/core/master_lock.py:62-84 | succeeds iff admitted, and then writes a fresh lease; a refused attempt writes nothing |
| `MasterLock.LeaseLock.Release` | app/core/master_lock.py:87-97 | removes the key iff it is the caller's |
| `MasterLock.LeaseLock.Enter` | app/core/master_lock.py:117-127 | the polling loop stops at the first admitted attempt, or at the first refused one past the deadline, after at most ceil(wait / interval) sleeps, whatever others do to the key meanwhile |
| `WriteProtocol.NoLostUpdate` | app/core/master_lock.py:101-133 | in every run that keeps its leases, each master document is the fold of every delta written to it, in the order the lock was handed out |
| `WriteProtocol.MutualExclusion` | app/core/master_lock.py:62-133 | at most one job holds a project, and the key then names that job |
| `WriteProtocol.ReleaseRemovesOwnKeyOnly` | app/core/master_lock.py:87-97 | with GET and DELETE as separate steps, a release finds its own key and its DELETE removes that key and no other |
| `WriteProtocol.WriteSeesCurrentDocument` | app/queue/jobs.py:847-909 | what a job read is still the document when it writes back |
| `WriteProtocol.RetryReenters` | app/core/master_lock.py:65-81 | a retry of a crashed job enters with its first attempt on a fresh lease |
| `WriteProtocol.CrashedLockExpires` | app/core/master_lock.py:62-97 | a crashed job's lock turns others away until its lease ends and no longer |
| `WriteProtocol.OverrunLosesUpdate` | app/core/master_lock.py:101-133 | every run that kept its leases until a job is inside at or past its lease goes on to one that loses a delta, for any two deltas that matter and any idle job of the project |
| `WriteProtocol.LateDeleteLosesUpdate` | app/core/master_lock.py:87-97 | the same for a DELETE sent at or past the lease, with two more jobs |
| `WriteProtocol.TwoInsideLose` | app/queue/jobs.py:847-909 | two jobs inside one project, whatever the key says, can read and write so that the first delta is gone |
| `WriteProtocol.StepKeepsInv` | app/core/master_lock.py:62-133 | every step keeps ownership, current snapshots, the fold and the order of tickets |
| `WriteProtocol.LoneSection` | app/core/master_lock.py:101-133 | a section by itself leaves the document merged from what it read, every other one as it was, the job over and the key free |
| `WriteProtocol.LoneAttempt` | app/core/master_lock.py:62-127 | SET NX and GET as two commands amount to one attempt of the lock: inside with the key claimed iff it admits the job, else waiting with nothing written, and then trying again until the deadline |
| `WriteProtocol.GivesUpAfterWait` | app/core/master_lock.py:117-127 | in every run a job gives up only when its whole wait is over |
| `PostMeeting.ExtractBeforeLock` | app/queue/jobs.py:813-850 | in every run the lock is asked for only after the extract returned, which runs outside it |
| `PostMeeting.CommitAfterCpsUnderLock` | app/queue/jobs.py:847-909 | in every interleaving the PRD commit starts only after the CPS merge returned, and all writes happen under the lock |
| `PostMeeting.NoWriteOutlivesLock` | app/queue/jobs.py:847-909 | on every exit the CPS task is over before the lock is given back |
| `PostMeeting.CleanUpRuns` | app/queue/jobs.py:813-954 | token booking and slot release have run at the exit iff `_tracked_ctx` had returned |
| `PostMeeting.ReturnedMeans` | app/queue/jobs.py:919-948 | a returned result means a merged CPS; a saved PRD is reported iff the commit returned, an error iff a caught exception was raised |
| `PostMeeting.RaisedMeans` | app/queue/jobs.py:813-954 | a job fails exactly with what the main path raised uncaught, else with what its CPS task raised, and returns exactly when there was neither |
| `PostMeeting.ComputeFailureDecides` | app/queue/jobs.py:867-898 | for every error of the PRD compute and every exit: a ValueError or RuntimeError, an LLM failure included, ends in a reported PRD error unless the CPS task raises, and then in its error; any other error fails the job, whatever the CPS merge does |
| `PostMeeting.CommitFailureDecides` | app/queue/jobs.py:901-909 | the same for the PRD commit, before which the CPS merge has returned |
| `PostMeeting.GeminiFailureIsDowngraded` | app/queue/jobs.py:885-896 | so an LLM failure of the PRD compute ends in a job that reports a PRD error, if the CPS merge succeeds |
| `PostMeeting.AlwaysReachesExit` | app/queue/jobs.py:781-954 | no interleaving gets stuck, and every step but a CPS write brings the exit closer |
| `InflightGate.StaleSlotsReclaimed` | app/core/concurrency.py:59-84 | an acquire drops exactly the other slots whose score plus the stale age has come |
| `InflightGate.AtomicAcquireKeepsLimit` | app/core/concurrency.py:59-84 | one acquire at a time keeps the set within its limit |
| `InflightGate.AcquireMeans` | app/core/concurrency.py:59-84 | an acquire gets in iff the members younger than the stale age are fewer than the limit or the task is one of them with a score other than zero; it leaves those members, and itself if it got in, for two stale ages |
| `InflightGate.Gates.TryAcquireSlot` | app/core/concurrency.py:59-84 | for any limit, both in terms of the old set alone: when it admits, and the set left behind |
| `InflightGate.Gates.ReleaseSlot` | app/core/concurrency.py:87-94 | removes the task id and nothing else |
| `InflightGate.Gates.TryAcquireProject` | app/core/concurrency.py:131-150 | the same with limit 1: an idle project admits, a busy one only the same task |
| `InflightGate.Gates.IsProjectBusy` | app/core/concurrency.py:153-167 | true iff some member is younger than the stale age |
| `InflightGate.Gates.ReleaseProject` | app/core/concurrency.py:170-178 | removes the task id and nothing else |
| `InflightGate.Gates.Enqueue` | app/queue/client.py:68-128 | one call without interference: which verdict comes out, both sets afterwards, and that a 409 or 429 leaves a task id that was in neither set in neither |
| `InflightGate.BusyProjectGivesSlotBack` | app/queue/client.py:98-105 | a 409 leaves the account as the purge would iff the task id had no slot to lose |
| `GateProtocol.OnlyCountClaims` | app/core/concurrency.py:59-84 | only a count that finds room lets a new id through |
| `GateProtocol.LoneAcquire` | app/core/concurrency.py:59-84 | command by command and without interference an acquirer gets in, and leaves the set, as the acquire in one piece |
| `GateProtocol.SlotBound` | app/core/concurrency.py:59-84 | in every run with at most K acquirers between test and add, members and pending ids together stay within limit - 1 + K |
| `GateProtocol.OverlapExceedsLimit` | app/core/concurrency.py:59-84 | the bound is met: for every limit and every K some run with at most K acquirers between test and add reaches limit - 1 + K members |
| `GateProtocol.LimitKeptExactlyWhen` | app/core/concurrency.py:59-84 | every run keeps the limit iff K is at most one |
| `GateProtocol.KeyExpiryFreesOnlyStale` | app/core/concurrency.py:80-81 | in every run: once any acquirer's EXPIRE has followed a slot's ZADD, the expiry of the key frees the slot only when a purge would |
| `GateProtocol.MissingExpireFreesYoung` | app/core/concurrency.py:80-81 | for every limit of two or more a run in which a crash between ZADD and EXPIRE ends in a young slot being freed |
| `GateProtocol.PurgeReclaims` | app/core/concurrency.py:71-72 | one purge removes a slot iff the acquirer began at or after its score plus the stale age |
| `GateProtocol.StaleSlotReclaimed` | app/core/concurrency.py:71-81 | in every run: after the purge of an acquirer that began at or after its score plus the stale age, a slot is gone at every later state until it is added anew; after an earlier one it is still there |
| `GateProtocol.OnlyAddsAdd` | app/core/concurrency.py:59-94 | no command but its own add puts a task into the set |
| `EnqueueProtocol.RefusedLeavesNothing` | app/queue/client.py:85-117 | in every interleaving of enqueues, job ends, crashes and the clock, a call that ends in 409 or 429 leaves its id in neither set, if it was in neither before and no other call for the id is in flight |
| `EnqueueProtocol.GatesRefined` | app/queue/client.py:85-117 | seen from one account or project, every run of enqueues is a run of its gate |
| `EnqueueProtocol.LoneCall` | app/queue/client.py:68-128 | command by command and without interference a call comes to the verdict and leaves the sets that `InflightGate.Gates.Enqueue` does, and no other set moves |
| `EnqueueProtocol.AccountWithinBound` | app/queue/client.py:85-95 | so the slot bound holds for every account among concurrent enqueues |
| `ExtractCache.KeysEqual` | app/queue/extract_cache.py:52-59 | two keys are equal iff project, colon, version read the same and the digests of the stripped contents agree; for contents that do not collide, iff these agree up to outer whitespace |
| `ExtractCache.KeyDeterminesInput` | app/queue/extract_cache.py:52-59 | without a colon in the versions, equal keys mean equal project, version and content digest, and equal content up to outer whitespace unless these two contents collide |
| `ExtractCache.SeparatorCollides` | app/queue/extract_cache.py:52-59 | with one content, an input has its key to itself iff neither project nor version has a colon; among inputs whose version has none, iff its own has none |
| `ExtractCache.Cache.TryAcquireLock` | app/queue/extract_cache.py:88-102 | SET NX with a lease |
| `ExtractCache.Cache.WaitForCached` | app/queue/extract_cache.py:105-123 | returns what the first poll before the deadline decodes, else None after a bounded number of empty polls |
| `ExtractCache.SingleFlight` | app/queue/jobs.py:647-681 | in every run of prefetch and main jobs, within one lock lease the computes begun are at most one more than the waits that ended without a valid entry |
| `ExtractCache.ReturnsOnlyComputed` | app/queue/jobs.py:647-681 | every returned extract came out of a compute for its key, and none read from the cache is malformed |
| `ExtractCache.ValidEntryIsUsed` | app/queue/jobs.py:650-668 | a live valid entry is returned without a compute |
| `ExtractCache.ValidMeans` | app/queue/jobs.py:473-490 | a valid entry is an object with both graphs and a PRD text with a character that is no whitespace |
| `ExtractCache.StoredIsFound` | app/queue/extract_cache.py:79-86 | in every run: a stored result is what everyone finds for the entry's lifetime and nobody after it, until something else is stored; a main job returns what it stored |
| `ExtractCache.MissMeans` | app/queue/jobs.py:650-668 | what a job does that finds no valid entry, and with a lock that is free or taken |
| `ExtractCache.FailedWaitComputes` | app/queue/jobs.py:658-681 | a wait that ends without a valid entry goes on to compute |
| `TokenSplit.TokenAccumulator.AddUsage` | app/clients/gemini_client.py:131-162 | usages add up field by field |
| `TokenSplit.TrackedGemini.MaybeDowngrade` | app/clients/gemini_client.py:212-228 | fires once, when armed and at the limit, and records the tokens so far |
| `TokenSplit.TrackedGemini.Generate` | app/clients/gemini_client.py:230-280 | where the call goes, and that the object keeps to the shortest crossing prefix |
| `TokenSplit.TrackedGemini.RunJob` | app/clients/gemini_client.py:212-280 | for every sequence of calls: the recorded split is the sum of the shortest crossing prefix, all later calls use the lite client and the forced model, all others the main one |
| `TokenSplit.RoutedMeans` | app/clients/gemini_client.py:220-245 | a forced model wins over the one asked for, and after the downgrade the one for then over the general one |
| `TokenSplit.OvershootIsOneCall` | app/clients/gemini_client.py:220-225 | the overshoot is less than the crossing call iff the account began below its limit |
| `TokenSplit.PersistTokenUsage` | app/queue/jobs.py:413-460 | what is booked to each bucket, with calls that may fail; the bookings add up to the total iff every call goes through |
| `TokenSplit.RunAndPersist` | app/queue/jobs.py:401-460 | over a job: main is what the crossing prefix used and the rest is lite when the bookings go through, and neither is ever more |
| `UsageLedger.UserNode.ReadUsage` | app/service/usage_repository.py:129-174 | the program demotes a grant iff its end has come, heals both timers, and returns what it leaves |
| `UsageLedger.UserNode.TryIncrementMeetingCount` | app/service/usage_repository.py:188-220 | refused iff the healed count is at the limit; the returned count is the stored one |
| `UsageLedger.UserNode.BookTokens` | app/service/usage_repository.py:363-384 | the bucket's counters after healing, nothing for a delta of zero or less |
| `UsageLedger.UserNode.CountChars` | app/service/usage_repository.py:268-282 | likewise for characters |
| `UsageLedger.UserNode.ResetUsage` | app/service/usage_repository.py:293-302 | every counter is zero and neither timer moves |
| `UsageLedger.ApplyCounts` | app/service/usage_repository.py:129-302 | what each program does to each counter, so that the two timers do not disturb each other's |
| `UsageLedger.CounterIsSumSinceZero` | app/service/usage_repository.py:129-302 | at every point of every run each counter is the sum of the deltas since it was last zeroed, or on top of its first value if it never was |
| `UsageLedger.AcceptedWithinLimit` | app/service/usage_repository.py:188-220 | the increments let through are within the limit: since the last zeroing, or in the first cycle on top of the count the run found |
| `UsageLedger.TimersAfter` | app/service/usage_repository.py:129-302 | any read or addition leaves the monthly timer in the future, the weekly programs the weekly one, and nothing else moves a timer |
| `UsageLedger.MonthsRunInFull` | app/service/usage_repository.py:146-156 | the timer never ends a month before the end it set |
| `UsageLedger.GrantExpiresOnce` | app/service/usage_repository.py:135-145 | for a grant with a given end: nothing before the first read at or after it changes the tier, that read demotes to free, once; a grant without an end stays |
| `UsageLedger.NewAccountCountsFromZero` | app/service/usage_repository.py:129-302 | counters that are NULL count from zero |
| `UsageLedger.TouchedExactlyWhen` | app/service/usage_repository.py:129-302 | a delta of zero or less changes nothing; which programs move the update time |
| `QuotaSerial.ClausesAreProgram` | app/service/usage_repository.py:188-266 | the clauses of a program run in sequence are the program as a whole |
| `QuotaSerial.LoneTransaction` | app/service/usage_repository.py:188-266 | a transaction by itself locks, runs its clauses and commits; the node is then what its program makes of it, and an increment was let through iff the healed count was below its limit |
| `QuotaSerial.Serialisable` | app/service/usage_repository.py:180-239 | with the first SET taking the lock, every interleaving ends as the transactions would have in lock order, and each increment was decided as it would have been then |
| `QuotaSerial.ConcurrentIncrementsWithinLimit` | app/service/usage_repository.py:180-220 | concurrent increments cannot pass the limit together, in the cycle the run began in as in every later one |
| `QuotaSerial.TwoIncrementsInFirstCycle` | app/service/usage_repository.py:180-187 | two increments of a counter that is never zeroed both pass only if the limit has room for both |
| `SessionRegistry.Registry.RecordSession` | app/core/session_registry.py:79-116 | records the session under the lower-cased user, or nothing when an argument is empty |
| `SessionRegistry.Registry.UnregisterSession` | app/core/session_registry.py:119-137 | removes the session, whatever the index still lists |
| `SessionRegistry.Registry.ListSessions` | app/core/session_registry.py:140-181 | exactly the recorded, not unregistered, unexpired sessions of the user, each once, newest first |
| `SessionRegistry.ScoreOrderKept` | app/core/session_registry.py:79-181 | an index lists its members by expiry, and by jti where that is equal, after any operation |
| `SessionRegistry.WaitKeepsInv` | app/core/session_registry.py:79-116 | a hash and its session end at the same instant, and the index stays sound |
| `SessionRegistry.ListedIsActive` | app/core/session_registry.py:140-181 | index members with a live hash are the user's live sessions, although hashes expire and the index is cleaned lazily |
| `TokenRotation.RevocationReachesExpiry` | app/core/token_blacklist.py:92-104 | the entry lasts at least as long as the token although both clocks are truncated, and less than a second longer |
| `TokenRotation.Blacklist.IsRevoked` | app/core/token_blacklist.py:64-89 | the answer, and that an open breaker says no |
| `TokenRotation.Blacklist.RevokeIfNew` | app/core/token_blacklist.py:92-119 | what is written, and that True does not mean written when the breaker is open |
| `TokenRotation.AcceptedMeans` | app/core/security.py:152-215 | a request is accepted iff signed, unexpired, an access token, not revoked, of a user in good standing since before it was issued |
| `TokenRotation.WhyTurnedDown` | app/core/security.py:152-215 | of the checks that fail, the first one gives the error |
| `TokenRotation.ExchangesMeans` | app/service/auth_service.py:147-180 | a refresh goes through iff signed, a refresh token, unexpired, not listed, with a subject that exists, is not suspended and was not suspended after it was issued |
| `TokenRotation.CoveredStaysOut` | app/core/security.py:95-111 | the blacklist entry or the expiry check turns a revoked token down, whichever way it is presented |
| `TokenRotation.RevokedStaysOut` | app/service/auth_service.py:79-121 | in every run, both tokens of a logout are turned down at every later instant |
| `TokenRotation.ExchangedOnce` | app/service/auth_service.py:147-192 | in every run, a refresh token that was exchanged is refused from then on, however much later |
| `TokenRotation.OneSpendablePerLogin` | app/service/auth_service.py:147-192 | at any point of any run a login has at most one refresh token that could be exchanged, and it was never exchanged before |
| `TokenRotation.AuthService.IssuePair` | app/core/security.py:41-66 | a new pair keeps the invariant, and its refresh token can be exchanged |
| `TokenRotation.AuthService.RefreshTokens` | app/service/auth_service.py:131-192 | succeeds iff those conditions hold, then spends the token and returns a pair with the subject, kinds and lifetimes of the source; the new state is that of the transition system |
| `TokenRotation.AuthService.Logout` | app/service/auth_service.py:79-121 | both tokens are revoked for the rest of their lives, the refresh token even when expired |
| `EventTable.FirstValueIsFirst` | app/api/v1/ingestion/adapters/base.py:71-76 | the first candidate whose JSON value is neither null nor '', as a stripped string; None iff there is none |
| `EventTable.NormalizeMeans` | app/api/v1/ingestion/adapters/base.py:237-263 | which records are accepted, and which field of an event comes from which candidates |
| `EventTable.RecordIdMeans` | app/api/v1/ingestion/adapters/base.py:240-245 | the record id is the explicit one, or 24 characters of a digest of title, start and venue |
| `EventTable.PostEventMeans` | app/api/v1/ingestion/service.py:122-135 | which field of a post's event is which of the post |
| `EventTable.PostPayloadMeans` | app/api/v1/ingestion/service.py:111-121 | and which entry of its payload |
| `EventTable.HashFixesRowExactlyWhen` | app/api/v1/ingestion/adapters/base.py:237-263 | for every payload: all payloads with its hash and record id normalise to its row but for nested order, whatever `str`, filter and dates do, iff no field shows a value holding a dict of two or more fields, unless that value is the record id too |
| `EventTable.NestedOrderGoesStale` | app/api/v1/ingestion/service.py:50-51 | a title that is a dict, in two orders that `str` tells apart: one hash, and the skip keeps the old title |
| `JsonValues.SortedExactlyWhen` | app/api/v1/ingestion/adapters/base.py:91-93 | two values have one sorted form iff they are the same but for the order of fields at any depth |
| `JsonValues.OrderFreeFixed` | app/api/v1/ingestion/adapters/base.py:91-93 | a value with no dict of two or more fields is the only one with its sorted form |
| `JsonValues.OtherOrder` | app/api/v1/ingestion/adapters/base.py:91-93 | every other one shares its sorted form |
| `EventTable.SkipIsSound` | app/api/v1/ingestion/service.py:23-62 | with no hash collision among the payloads that come, and payloads as `HashFixesRowExactlyWhen` wants them, the skip does what a plain write does, but for the order of fields inside the stored payload |
| `EventTable.Table.UpsertEvent` | app/api/v1/ingestion/service.py:23-61 | the row count and which of the three outcomes is reported |
| `EventTable.Table.IngestRecords` | app/api/v1/ingestion/service.py:68-79 | the table is what last-write-wins leaves but for nested order, exactly so without nested dicts; rows stay normalised payloads, the four counts add up to the batch |
| `EventTable.Table.IngestBoardPosts` | app/api/v1/ingestion/service.py:101-137 | for board posts exactly what last-write-wins leaves, none skipped |
| `EventTable.PayloadDeterminesPost` | app/api/v1/ingestion/service.py:111-123 | a payload determines its post |
| `EventTable.LastWriteWins` | app/api/v1/ingestion/service.py:68-79 | the stored row of a key is the batch's last event for it |
| `EventTable.OtherRowsStay` | app/api/v1/ingestion/service.py:68-79 | rows whose key is not in the batch are untouched |
| `EventTable.ReingestChangesNothing` | app/api/v1/ingestion/service.py:68-79 | ingesting a batch again leaves the table as it is |
| `CypherText.EscapeIsOnePass` | app/pipelines/base.py:119-135 | the four ordered replaces are one pass over the characters, for every string |
| `CypherText.LiteralRoundTrip` | app/pipelines/base.py:119-135 | an escaped string in quotes, followed by anything, reads back as the string (StringLiteral and EscapedChar of openCypher 9) |
| `CypherText.SafeKeyMeans` | app/pipelines/base.py:59-79 | a safe key is an identifier up to one final newline, and is one iff it has no newline |
| `CypherText.SafeKeyExactlyWhen` | app/pipelines/base.py:59-79 | the safe keys are the identifiers of up to 64 characters and those of up to 63 with a newline behind them |
| `CypherText.FormatProps` | app/pipelines/base.py:539-577 | the loop prints what the specification prints |
| `CypherText.IntText` | app/pipelines/base.py:539-577 | integers are printed in Python's decimal form: a sign for negative ones only, no leading zero |
| `CypherText.ListRoundTrip` | app/pipelines/base.py:560-572 | a printed list reads back item by item, whatever follows |
| `CypherText.PropsRoundTrip` | app/pipelines/base.py:539-577 | for every dict and whatever follows, a map reader gets exactly the safe entries in order, None as '' |
| `CypherText.EntriesComeBack` | app/pipelines/base.py:539-577 | entry by entry: every identifier of up to 64 characters comes back with its value, nothing longer and nothing that is no identifier up to a final newline does |
| `CypherText.KeysComeBackExactlyWhen` | app/pipelines/base.py:62-79 | keys come back unchanged iff no safe key has a newline |
| `GraphCanon.NormaliseProps` | app/pipelines/base.py:301-311 | strips string values in key order, passes anything else through |
| `GraphCanon.NormPropsMean` | app/pipelines/base.py:301-310 | properties come out in key order, field by field what went in, strings stripped |
| `GraphCanon.OddPropsMean` | app/pipelines/base.py:301-311 | properties that are false in Python's sense become an empty dict, others that are no dict stay |
| `GraphCanon.NormNodeKeeps` | app/pipelines/base.py:312-316 | a kept node has its id, its label ('' by default), its normalised properties and nothing else |
| `GraphCanon.NodeIdMeans` | app/pipelines/base.py:291-300 | which items have an id, and when two ids are the same one |
| `GraphCanon.IsRelMeans` | app/pipelines/base.py:321-333 | a relationship is kept iff its ends and type are there and true in Python's sense |
| `GraphCanon.RelFormKeeps` | app/pipelines/base.py:325-341 | a kept relationship has its ends, its type, its normalised properties and nothing else |
| `GraphCanon.NormPropsTwice` | app/pipelines/base.py:301-311 | normalising properties twice is normalising them once |
| `GraphCanon.NormPropsIgnoresOrder` | app/pipelines/base.py:301-311 | the order of a dict's keys does not matter |
| `GraphCanon.NormaliseNodes` | app/pipelines/base.py:291-316 | the loop with `seen_ids` keeps what the specification keeps, or fails iff some id cannot go into a set |
| `GraphCanon.NormaliseRels` | app/pipelines/base.py:321-341 | the loop keeps the forms of the well-formed relationships |
| `GraphCanon.SortedNodesMean` | app/pipelines/base.py:291-318 | the result has the normal form of the first node with each id, every one of them, each id once, in (label, id) order |
| `GraphCanon.SortedRelsMean` | app/pipelines/base.py:321-346 | the multiset of well-formed relationships, in (type, source, target) order |
| `GraphCanon.CanonicalizeGraph` | app/pipelines/base.py:284-352 | the whole function, for any JSON value, its TypeError included |
| `GraphCanon.CanonIdempotent` | app/pipelines/base.py:284-352 | a second pass changes nothing |
| `GraphCanon.TopLevelKeys` | app/pipelines/base.py:349-352 | the two lists come under their keys and every other top-level key comes through |
| `GraphCanon.ReorderedNode` | app/pipelines/base.py:291-316 | the order of a node's own keys and of its properties does not matter |
| `GraphCanon.ReorderedRel` | app/pipelines/base.py:321-341 | likewise for a relationship |
| `GraphCanon.OrderDoesNotMatter` | app/pipelines/base.py:284-352 | reordering nodes, relationships, their fields and their properties does not change the result, when nodes with one id agree, nodes that tie share their id, and relationships that tie agree |
| `GraphCanon.OrderIrrelevantExactlyWhen` | app/pipelines/base.py:284-352 | every reordering of nodes and relationships gives the same graph iff those three hold |
| `ListPasses.FirstsDistinct` | app/pipelines/base.py:291-299 | keeping first occurrences leaves no id twice |
| `ListPasses.AcceptedPermuted` | app/pipelines/base.py:321-341 | the kept items depend on the input as a multiset only |
| `Ordering.SortIgnoresOrder` | app/pipelines/base.py:318-346 | without ties a stable sort depends on the elements only |
| `MeetingText.CanonicalizeIsByLines` | app/pipelines/base.py:219-258 | the string operations amount to: right-strip the lines, drop blank lines at both ends, squeeze each run of blank lines into one |
| `MeetingText.OutputIsClean` | app/pipelines/base.py:219-258 | for every text: no CR, no line with trailing whitespace, no three newlines in a row, no newline at either end |
| `MeetingText.CleanIsFixed` | app/pipelines/base.py:219-258 | a clean text is left as it is |
| `MeetingText.CanonicalizeIdempotent` | app/pipelines/base.py:219-258 | a second pass changes nothing |
| `MeetingText.UnifiedLines` | app/pipelines/base.py:249-251 | the two replaces split lines as one reading of LF, CRLF and CR does |
| `MeetingText.SameLinesSameResult` | app/pipelines/base.py:219-258 | texts whose lines agree up to trailing whitespace come out the same |
| `MeetingText.WrittenLinesReadBack` | app/pipelines/base.py:249-251 | lines written with any line ends are read back iff no CR stands before an empty line ended by LF |
| `MeetingText.LineEndsDoNotMatter` | app/pipelines/base.py:219-258 | the same lines with any such line ends and trailing whitespace give one result |
| `FenceStrip.OpeningIsLongest` | app/pipelines/base.py:154-154 | the opening fence taken is the longest prefix the pattern matches |
| `FenceStrip.OpeningMatches` | app/pipelines/base.py:154-154 | what is taken matches the pattern, or nothing is taken |
| `FenceStrip.ClosingExists` | app/pipelines/base.py:155-157 | the old pattern matches somewhere iff the right-stripped text ends in a fence |
| `FenceStrip.ClosingIsRegex` | app/pipelines/base.py:138-158 | for every text: no match and no change go together; where the old pattern matches there is a leftmost match, and what is left before it is the rstrip form's result without trailing whitespace |
| `FenceStrip.ObjectTextIsGreedy` | app/pipelines/base.py:516-536 | text is found iff the old pattern matches; first brace to last brace is then its leftmost, longest match, and the only one |
| `FenceStrip.IsLanguageMeans` | app/pipelines/base.py:154-154 | which language tags there are, character by character |
| `FenceStrip.NoObjectIsEmpty` | app/pipelines/base.py:516-536 | a text without an opening brace before a closing one gives the empty object |
| `FenceStrip.FencesDoNotMatter` | app/pipelines/base.py:516-536 | taking fences and whitespace off never changes which object is found |
| `FenceStrip.ObjectInProse` | app/pipelines/base.py:516-536 | an object with no opening brace before and no closing brace after it is found exactly |
| `FenceStrip.ObjectInProseParsed` | app/pipelines/base.py:516-536 | and is what gets parsed |
| `FenceStrip.FencedTextComesBack` | app/pipelines/base.py:138-158 | text put between fences, with or without a language in any case, comes back stripped |
| `PromptRender.TokeniseSpells` | app/core/prompt_render.py:38-62 | the pieces spell the template, leftmost token first |
| `PromptRender.TokenisationUnique` | app/core/prompt_render.py:38-62 | no other cutting into pieces does |
| `PromptRender.RenderFillsPieces` | app/core/prompt_render.py:46-62 | rendering fills in each piece of the template by itself, so no value is rescanned |
| `PromptRender.HardenClears` | app/core/prompt_render.py:65-80 | no marker pair is left and the length is that of the truncated text |
| `PromptRender.TruncateKeeps` | app/core/prompt_render.py:65-80 | what truncation keeps is a beginning of the text, of the length the bound says, negative bounds included |
| `PromptRender.NeutraliseKeepsText` | app/core/prompt_render.py:65-80 | only markers that stand in a pair are written over, position by position; everything else stays |
| `PromptRender.HardenTwiceExactlyWhen` | app/core/prompt_render.py:65-80 | hardening twice is hardening once, unless a negative max_len leaves something to cut |
| `PromptRender.HardenedByHarden` | app/core/prompt_render.py:65-80 | hardened values meet the hypothesis of the two-pass theorem |
| `PromptRender.TwoPassesAreOne` | app/core/prompt_render.py:46-80 | for every template whose tokens are bordered, a pass with hardened values and a second pass equal one pass with all values |
| `PromptRender.UnborderedTokenIsRescanned` | app/core/prompt_render.py:46-80 | for any two keys: in a template without borders a hardened value completes a token of the second pass |
| `PromptRender.UnborderedCanAgree` | app/core/prompt_render.py:46-80 | borders are not necessary: an unbordered token where the two passes agree for all values |
| `TwoPasses.TwoPassesAgreeExactlyWhen` | app/core/prompt_render.py:46-80 | for every template and set of first-pass keys: the passes agree for all values without markers and every second pass iff no four pieces of the template can be filled into a new token, one value to a key |
| `TwoPasses.HardenedPassesAgreeExactlyWhen` | app/core/prompt_render.py:46-80 | the same for all values put through `harden_untrusted` |
| `TwoPasses.AgreeWithoutHit` | app/core/prompt_render.py:46-62 | for given first-pass values: the passes agree for every second pass iff the first one makes no token that the template has not |
| `TwoPasses.MakesTokenMeans` | app/core/prompt_render.py:46-80 | a first pass makes a new token iff four of its pieces give the two markers with a word between |
| `TwoPasses.BorderedNeverCloses` | app/core/prompt_render.py:46-80 | bordered templates meet the condition |

## Left out

- InflightGate.Gates.Enqueue: one call without interference; concurrent calls are the subject of EnqueueProtocol. Queue selection and the queue's own deduplication are reduced to whether the hand-over raised.
- EnqueueProtocol.RefusedLeavesNothing: a second call for the same id in flight is excluded; what a 409 then takes away is the subject of InflightGate.BusyProjectGivesSlotBack.
- PostMeeting.CleanUpRuns: cancellation is not modelled, nor are failures of the stage markers and of the auto-cleanup trigger, which swallow their own errors.
- TokenSplit.TrackedGemini.RunJob: calls are sequential; calls that overlap through `gather` would be split by completion order. The fallbacks for clients that take fewer arguments and `generate_stream` are left out.
- TokenSplit.PersistTokenUsage: a failing `add_tokens` is taken to have booked nothing.
- QuotaSerial.Serialisable: reads and admin resets take one step each; the reset-boundary race of `get_usage` that the file documents is not modelled.
- UsageLedger.UserNode.ReadUsage: a missing User node, for which every program returns None, is not modelled.
- SessionRegistry.Registry.ListSessions: each jti is used under one e-mail only, and the order of sessions recorded in the same instant is that of the index.
- TokenRotation.AuthService.RefreshTokens: overlapping refresh calls can both pass the check before either write; calls are taken one at a time. A token without a `jti` or `exp` claim is never issued and not modelled.
- TokenRotation.AuthService.Logout: removal from the session registry is left to SessionRegistry.
- EventTable.Table.IngestRecords: floats are excluded. The board record-id patterns are an arbitrary function of the URL.
- CypherText.PropsRoundTrip: floats are excluded; the reader covers what the printer emits and the EscapedChar forms but not `\u` and `\U` escapes, which are never printed.
- GraphCanon.CanonicalizeGraph: floats are excluded; ids are any JSON values.
- MeetingText.CanonicalizeIdempotent: NFC is the identity.
- FenceStrip.ObjectInProseParsed: `json.loads` is any partial function.
- Every branch that fails open when Redis is absent or raises, and the unlocked path for an empty project key.
- `github_onboard_job`, which writes without the lock, and the bodies of the merge pipelines: a merge is any function of the delta and the document read.
- The retry loop of `http_fetch_records`, board scraping and detail parsing, taxonomy keyword lists: bounded or regex tables without a hard property.
- Routers, schemas, settings, mail, OAuth, logging, metrics, PII masking and the evaluation scorer.
- `scoped_project`, JWT signing, uuid, SHA and Fernet are abstract; app/core/project_scope.py is not part of this model.
