# WebShelf server protocols, modelled and proved

WebShelf's server keeps its hard behaviour in services and utilities: an id
generator leased over a database table, session revocation, a Redis lock with a
stampede-protected cache over it, one-time codes, a read/write router with
circuit breakers, a rate limiter, a captcha store and a template formatter. This
project models that code in Dafny and proves what it promises over every input,
every run and every interleaving of its atomic steps.

Each part has the same build. A pure step function says what one atomic command
does; runs are sequences of steps in any order by any number of processes.
Classes hold the same state in mutable fields, and their methods follow the
source statement by statement and are proved equal to those steps. Theorems are
lemmas over whole runs.

| file | what it models |
|---|---|
| SnowflakeId | 64-bit packing of (timestamp, worker, sequence), on bits |
| SnowflakeGenerator | the retrying generator, one loop turn per step, many threads |
| SnowflakeRace | the same generator, one atomic instruction per step |
| SnowflakeFleet | the worker-id lease table and a fleet of generators |
| Sessions | refresh rows, token versions, whole runs of logins and revocations |
| TokenVersionGate | the 30-second cache in front of the version check |
| SessionGate | sessions and version check together |
| OneTimeCodes, EmailVerification | password-reset and email codes, statement by statement |
| RedisLock, StampedeCache | the lock, its guard, and `get_or_insert_with_lock` |
| ReplicaSelection, ReplicaRouter, BreakerRuns | selection, retries, breakers over time |
| SqlScanner | write detection in SQL text |
| RateLimiter | the fixed-window counter |
| CaptchaStore, CaptchaGuesses | captcha keys, store, service and its attempt limit |
| TemplateFormat, TemplateLaw | `{key}` substitution, and exactly when it is one |

Conventions. Machine integers are unbounded, with wrap-around written out where
it decides something (64-bit packing, the round-robin counter). Clock readings,
random rolls, fresh tokens, password and code checks, pings, Redis failures and
results of database calls are parameters, so every theorem holds for all of
them. A Redis key is gone once the clock reaches its expiry.

Where code and comments disagree the model follows the code:

- the header of `snowflake.rs` (line 11) promises 4096 ids per millisecond, the
  guard at line 114 stops at 4095;
- the comment at lines 91-92 of `snowflake.rs` promises no duplicates under any
  concurrency. That holds when a loop turn is atomic and fails when its
  instructions interleave, which the test at lines 636-641 tolerates. The winner's
  `fetch_add` (lines 133-135) moreover has no guard against 4095, so its sequence
  can run into the worker bits. Five kinds of stale or unguarded instruction cover
  every failure (`SnowflakeRace.SoundExactlyWithoutStale`), and with n threads all
  runs are sound if and only if n is at most 1 (`SoundExactlyForOneThread`);
- the comment at lines 578-580 of `db_router.rs` says that parentheses in string
  literals only cause false positives. They can also hide a write
  (`SqlScanner.QuotedParenthesisHidesWrite`);
- the comment at lines 256-257 of `db_router.rs` means to spare a breaker that was
  set again while it was being probed; the guard below it does not
  (`BreakerRuns.FreshBreakerIsRespectedExactly`);
- a role change bumps the token version like a password change does but keeps the
  refresh row, so an old session can sign a new token, exactly while that row has
  not expired (`SessionTheorems.RoleChangeEndsSessionsExactly`);
- the script comment in `wechat.rs` (lines 178-179) takes the derived index key for
  the written one; they differ for an account whose name makes `:captcha:` occur
  early, such as `captcha`;
- `captcha.rs` (lines 10-12) promises invalidation after `max_failed_attempts`. A
  guess is compared before it is counted, so overlapping calls get past the limit,
  and a late reset or, with captchas that outlive the ten-minute counter, a
  pause starts the count afresh (`CaptchaGuesses.AllowanceIsKeptExactly`);
- a value that contains `{` is scanned again by `tf` for later arguments
  (`TemplateLaw.LawHoldsExactly`).

## Model

| member | source | states |
|---|---|---|
| SnowflakeId.ComposeRaw | server/src/utils/snowflake.rs:152-156 | for every timestamp, also before the epoch, the three OR-ed fields never disturb one another: the id is the 64-bit two's-complement reading of 42 surviving clock bits, the worker and the sequence |
| SnowflakeId.ComposeValue | server/src/utils/snowflake.rs:152-156 | inside the 41+10+12-bit bounds shifting and OR-ing is positional addition without overflow |
| SnowflakeId.IdsCountFromTheEpoch | server/src/utils/snowflake.rs:25-40 | the clock part counts milliseconds from 1 704 067 200 000 on, above 10 worker and 12 sequence bits |
| SnowflakeId.FieldsRecoverable | server/src/utils/snowflake.rs:25-40 | round trip: each field comes back by the shift and mask of its constants, and the id is non-negative |
| SnowflakeId.OrderIsLexicographic | server/src/utils/snowflake.rs:152-156 | ids compare as (timestamp, worker, sequence) triples, and are equal exactly when the triples are |
| SnowflakeId.NonNegativeExactly | server/src/utils/snowflake.rs:152-156 | the sign bit is 0 if and only if the clock, modulo the surviving 42 bits, is in its first half |
| SnowflakeGenerator.IdsStrictlyIncrease | server/src/utils/snowflake.rs:93-140 | any number of threads, any interleaving of loop turns, any clock readings including backward jumps: ids are non-negative and strictly increasing in issue order |
| SnowflakeGenerator.PerMillisecondBound | server/src/utils/snowflake.rs:111-122 | at most 4095 ids carry the same millisecond |
| SnowflakeGenerator.PerMillisecondBoundReached | server/src/utils/snowflake.rs:111-122 | n calls within one millisecond yield exactly min(n, 4095) ids, so 4095 is tight |
| SnowflakeGenerator.ReturnsOnceClockPasses | server/src/utils/snowflake.rs:93-140 | from any phase, spin loops included, a call returns within two readings after the clock has passed the last timestamp |
| SnowflakeGenerator.Generator.constructor | server/src/utils/snowflake.rs:67-77 | a worker id up to 1023 gives a generator with both counters at 0 |
| SnowflakeGenerator.Generator.Generate | server/src/utils/snowflake.rs:93-140 | the loop with its two inner spin loops, running alone: the id carries the last reading used, which is not behind the last timestamp, with sequence 0 in a new millisecond; a new millisecond or a free number up to 4094 is taken at the first reading; the counters are left accordingly |
| SnowflakeGenerator.SpinLoopsClaimNothing | server/src/utils/snowflake.rs:100-122 | a thread that finds the clock behind or the millisecond used up waits until the clock has caught up, respectively passed, and claims no sequence number meanwhile |
| SnowflakeGenerator.SoloIsRun | server/src/utils/snowflake.rs:93-140 | refinement: such a call is a run of the many-thread machine by its thread and issues what the machine issues, so the theorems about runs hold of it |
| SnowflakeRace.UninterruptedIsOneTurn | server/src/utils/snowflake.rs:93-140 | refinement: three or five uninterrupted instructions are one atomic turn |
| SnowflakeRace.StaleFetchAddDuplicates | server/src/utils/snowflake.rs:111-122 | at any millisecond a run of two threads issues the same pair twice, its only stale instruction being a `fetch_add` after the millisecond has passed |
| SnowflakeRace.FetchAddBeforeResetDuplicates | server/src/utils/snowflake.rs:124-136 | the same with a `fetch_add` between the winner's CAS and its store as the only kind of stale instruction |
| SnowflakeRace.LateResetDuplicates | server/src/utils/snowflake.rs:124-136 | the same with an overtaken winner's store, which resets the counter of a newer millisecond |
| SnowflakeRace.LateClaimDuplicates | server/src/utils/snowflake.rs:124-137 | the same with an overtaken winner's `fetch_add`, which issues a taken pair |
| SnowflakeRace.NoStaleNoDuplicate | server/src/utils/snowflake.rs:93-140 | every interleaving of instructions without a stale one keeps all issued pairs distinct and every sequence at most 4095 |
| SnowflakeRace.UnguardedClaimOverruns | server/src/utils/snowflake.rs:133-136 | at any millisecond the winner pauses after its store, 4096 turns of another thread pass, and the unguarded `fetch_add` issues sequence 4096 beside an issued sequence 0 |
| SnowflakeRace.OverrunId | server/src/utils/snowflake.rs:152-156 | sequence 4096 sets the lowest worker bit: the id is that of sequence 0 of the next worker, or of this worker if its id is odd |
| SnowflakeRace.DuplicateNeedsStaleInstruction | server/src/utils/snowflake.rs:93-140 | with readings inside the 41 bits, every run in which two ids of a worker are equal, or an id does not decode to that worker, contains an instruction of one of these five kinds |
| SnowflakeRace.EachKindIsUnsound | server/src/utils/snowflake.rs:93-140 | each kind alone, with two threads, at any instant inside the 41 bits and for any worker, yields two equal ids or an id of another worker |
| SnowflakeRace.SoundExactlyWithoutStale | server/src/utils/snowflake.rs:93-140 | the exact condition: with instructions of given kinds allowed, in all runs the ids are pairwise different and decode to their worker if and only if no kind is allowed |
| SnowflakeRace.SoundExactlyForOneThread | server/src/utils/snowflake.rs:93-140 | the condition a caller can check: with n threads all runs keep this if and only if n is at most 1 |
| WorkerLease.WorkerTable.TryInsertWorker | server/src/utils/snowflake.rs:232-260 | under the primary key the insert succeeds if and only if the id is free, and otherwise changes nothing |
| WorkerLease.WorkerTable.RegisterWorker | server/src/utils/snowflake.rs:198-229 | hands out the lowest id up to 1023 whose holder has been silent for more than 30 000 ms, if any, and dates its row; refuses if and only if all 1024 are taken; every other live row stays |
| WorkerLease.WorkerTable.Heartbeat | server/src/utils/snowflake.rs:279-294 | dates the row of that worker with the reading, and leaves all other rows alone |
| WorkerLease.WorkerTable.CleanStaleWorkers | server/src/utils/snowflake.rs:263-276 | deletes exactly the rows not heard of for more than 30 000 ms |
| SnowflakeFleetTheorems.AllIdsEverIssuedDiffer | server/src/utils/snowflake.rs:93-140 | over every run of registrations, heartbeats, shutdowns, crashes, clean-ups and turns of any number of processes no id is issued twice, given heartbeats at most 30 s old and a tick between a shutdown and the reuse of its id |
| SnowflakeFleetTheorems.LiveWorkersDiffer | server/src/utils/snowflake.rs:198-309 | in the same runs live processes hold pairwise different worker ids, each with its row |
| SnowflakeFleetTheorems.StepKeepsInv | server/src/utils/snowflake.rs:198-309 | every step of the lease protocol and the generators keeps the invariant that makes freed ids reusable |
| SnowflakeFleetTheorems.StepKeepsMarksDistinct | server/src/utils/snowflake.rs:93-140 | a step from an invariant state adds at most one id, and a new one |
| SnowflakeFleetTheorems.HeartbeatKeepsTheLease | server/src/utils/snowflake.rs:263-294 | over every run: a worker that beats at b keeps its row through all clean-ups read up to b + 30 000 ms, unless a holder of the id shuts down or beats with an older reading, so nobody can register its id |
| SnowflakeFleetTheorems.GenerateIssuesTheNextId | server/src/utils/snowflake.rs:93-140 | a turn of a running process issues sequence 0 in a new millisecond and the next number up to 4094 in the same one, under its own worker id; otherwise it issues nothing |
| SnowflakeFleetTheorems.ReuseWithinTheMillisecondRepeats | server/src/utils/snowflake.rs:297-309 | without the tick the theorem fails: shutdown and new lease within one millisecond repeat an id, for every worker and instant |
| SnowflakeFleetTheorems.LateHeartbeatRepeats | server/src/utils/snowflake.rs:263-276 | without timely heartbeats it fails: 30 001 ms of silence let a successor share the id |
| AuthTables.AuthService.StoreRefreshToken | server/src/services/auth.rs:232-263 | inserts under the UNIQUE hash or changes nothing |
| AuthTables.AuthService.Login | server/src/services/auth.rs:159-196 | a remembered login replaces all rows of the user by one with its own expiry and leaves other users' rows; a failed insert rolls back; an unremembered one leaves all rows alone; it signs the current version |
| AuthTables.AuthService.RotateRefreshToken | server/src/services/auth.rs:350-416 | succeeds exactly for an unexpired row of an existing user and a new hash; then the old row is gone, the new one is stored for the same user until its own expiry, every other row is as before and the current version is signed; otherwise nothing changes |
| AuthTables.AuthService.RevokeAllSessions | server/src/services/auth.rs:311-342 | no refresh row of the user and a version one higher, in one transaction |
| AuthTables.AuthService.ReplacePassword | server/src/services/user.rs:520-575 | the password transaction returns the bumped version and leaves no refresh row |
| AuthTables.AuthService.CleanupExpiredRefreshTokens | server/src/services/auth.rs:424-439 | deletes exactly the expired rows, of whatever user, and reports how many |
| SessionTheorems.RevocationIsFinal | server/src/services/auth.rs:311-342 | after a password change, reset or revocation, and any further calls by anybody, no token at the current version and no refresh row descends from an older session of that user |
| SessionTheorems.SessionCarriesOn | server/src/services/auth.rs:350-416 | over runs: an exchange stores its successor, and unless a later call ends that row its exchange before its expiry signs the version then current for the same session and stores a successor in turn |
| SessionTheorems.RowStaysUnlessEnded | server/src/services/auth.rs:159-439 | a refresh row stays as it is under every call except the ones listed: a remembered login, revocation, password change or reset or deletion of its user, its own exchange, its logout, a clean-up after its expiry |
| SessionTheorems.SignsExactly | server/src/services/auth.rs:159-416 | exactly logins, exchanges of unexpired rows and password replacements sign, at the version then current, for a new session or the one the row descends from |
| SessionTheorems.VersionMovesExactly | server/src/services/user.rs:393-575 | a version is bumped by one by exactly revocation, password change, reset and role change of its user |
| SessionTheorems.EachRefreshTokenExchangedOnce | server/src/services/auth.rs:350-416 | in every run each refresh hash is exchanged successfully at most once, and never while it is still stored |
| SessionTheorems.AtMostOneRememberedRow | server/src/services/auth.rs:171-191 | in every run a user has at most one refresh row, and it descends from a session that asked to be remembered |
| SessionTheorems.RoleChangeEndsSessionsExactly | server/src/services/user.rs:393-432 | in every continuation of fresh calls by anybody whose rotations read a clock from t on, no token at the current version descends from a session before the role change, if and only if no refresh row of the user expires after t |
| SessionTheorems.RoleChangeLeavesRefreshUsable | server/src/services/user.rs:393-432 | a surviving row signs a token at the new version for the old session |
| TokenVersionGate.AcceptedVersionWasRecentlyCurrent | server/src/lib.rs:68-107 | with answers at most D after their database read, an accepted version was the database's at some instant of the last 30 s + D, in every interleaving and whether or not writers invalidate the cache |
| TokenVersionGate.StaleTokenIsRefused | server/src/lib.rs:68-107 | a version replaced or deleted at s is refused after s + 30 s + D |
| TokenVersionGate.CurrentTokenIsAccepted | server/src/lib.rs:68-107 | in every run every answer to a token whose version has been the database's for longer than 30 s + D is an acceptance |
| TokenVersionGate.BoundIsReached | server/src/lib.rs:90-99 | the bound is tight to the millisecond |
| TokenVersionGate.VersionCheck.VerifyTokenVersion | server/src/lib.rs:68-107 | alone, for every cache state and Redis failure: accepts if and only if a readable live entry equals the token, or there is none and the column does; a miss then fills the cache for 30 000 ms if it is writable; and it performs the steps of the gate |
| SessionGate.StepKeepsInv | server/src/lib.rs:68-107 | the version column behind the gate follows the service calls of all users, step by step |
| SessionGate.EndedSessionIsRefused | server/src/lib.rs:68-107 | end to end: after a revocation, password change or reset at s no token of an older session of that user is let through after s + 30 s + D, whatever all users do and even if no cache entry is ever invalidated |
| SessionGate.LiveSessionIsAccepted | server/src/lib.rs:68-107 | end to end: if the user's version has not moved for longer than 30 s + D, whatever happened before, every answer to a token signed at it is an acceptance |
| RedisLockTheorems.LeasesNeverOverlap | server/src/services/lock.rs:84-90 | whatever is acquired, released and left to expire, lease intervals on one key never overlap, and the store names exactly the running lease |
| RedisLockTheorems.ReleaseSparesOtherHolders | server/src/services/lock.rs:84-90 | a late, repeated or foreign release leaves every other running lease stored |
| RedisLockTheorems.EachAcquisitionDeletedOnce | server/src/services/lock.rs:84-90 | each acquisition accounts for at most one effective delete |
| RedisLockTheorems.AcquireTakesAFreeKey | server/src/services/lock.rs:84-90 | an acquisition takes a key exactly when it is absent or expired, for its whole time to live |
| RedisLockTheorems.ReleaseEndsItsOwnLease | server/src/services/lock.rs:84-90 | a release ends the running lease of its own value at once and otherwise does nothing |
| LockClient.TryAcquireWithRetry | server/src/services/lock.rs:151-197 | acquires at the first attempt that finds the key free, with others acting in between; the first failed command ends the loop, and a lost reply may leave the lock set; contended only if every attempt found it taken |
| LockClient.LockGuard.ReleaseLock | server/src/services/lock.rs:208-239 | if the request arrives the key is deleted exactly while it lives and holds the guard's value, whether or not the reply comes back; nothing changes if the request is lost |
| LockClient.LockGuard.Release | server/src/services/lock.rs:473-487 | success empties the guard; failure restores its fields, so that a drop can try again |
| LockClient.LockGuard.Drop | server/src/services/lock.rs:490-523 | releases once if a client and a runtime are left, and disarms the guard |
| LockClient.LockGuard.ReleaseThenDrop | server/src/services/lock.rs:473-523 | over both attempts and any network failures foreign entries survive, and if either request arrives no live entry of this guard is left |
| StampedeCacheTheorems.LockedRecomputesOverlapOnlyAfterExpiry | server/src/services/cache.rs:345-406 | with errors, calls dropped between two commands, lost releases, invalidations and expiries at any moment, two lock-holding calls overlap only if a lease ran out |
| StampedeCacheTheorems.FallbackSucceedsAtMostOnce | server/src/services/cache.rs:329-406 | in every calm run of any number of callers the fallback succeeds at most once and all Ok answers are one value, the cached one if there was one |
| StampedeCacheTheorems.CachedValueStays | server/src/services/cache.rs:329-336 | a value cached before stays, is the only answer, and nothing is computed |
| StampedeCacheTheorems.ExhaustedPollComputesTwice | server/src/services/cache.rs:371-405 | under every configuration, with no other disturbance, a caller that runs out of polls computes beside the first one; both return, each with its own value |
| StampedeCacheTheorems.OnceExactlyWhenUndisturbed | server/src/services/cache.rs:329-406 | the conditions are exact: with disturbances of given kinds allowed (Redis faults, exhausted polls, invalidation, cache expiry, lease expiry, a call dropped with its value not yet stored), the fallback succeeds at most once in all runs if and only if no kind is allowed |
| StampedeCacheTheorems.FailedReadEndsTheCall | server/src/services/cache.rs:329-383 | a failed GET or EXISTS ends the call with an error, uncomputed; under the lock the guard is dropped |
| StampedeCacheTheorems.FailedLockComputesUnlocked | server/src/services/cache.rs:385-405 | a failed lock command makes the caller compute without the lock, store and return its value, and touch no lock |
| StampedeCacheTheorems.UnstoredValueIsReturned | server/src/services/cache.rs:399-405 | a value that cannot be stored is returned all the same, and the lock is given back |
| StampedeCacheTheorems.NoRedisStillAnswers | server/src/services/cache.rs:315-406 | for every number of retries: without any Redis client the call answers with its own fallback, having touched neither cache nor lock |
| CacheService.CacheService.Get | server/src/services/cache.rs:186-205 | yields the value exactly while it has not expired |
| CacheService.CacheService.LookFirst | server/src/services/cache.rs:329-341 | answers with the cached value, else fails on the null marker, else goes on, as moves of the machine |
| CacheService.CacheService.TryAcquire | server/src/services/cache.rs:345-353 | the acquisition loop takes the lock exactly when it is free and an attempt is allowed, as a run of the machine |
| CacheService.CacheService.LookAgain | server/src/services/cache.rs:354-369 | the double check returns a hit and gives the lock back, or goes on to recompute |
| CacheService.CacheService.PollCache | server/src/services/cache.rs:371-383 | the polling loop is a run of the machine, ending with a hit or a recompute without lock |
| CacheService.CacheService.ComputeAndStore | server/src/services/cache.rs:394-405 | returns the fallback's outcome, caches a success, releases its own running lock only, as moves of the machine |
| CacheService.CacheService.GetOrInsertWithLock | server/src/services/cache.rs:315-406 | the whole call is a run of the interleaving machine by this process alone and returns what the machine records; undisturbed, a hit or a null marker answers without the fallback, a success is cached, and no lock of its own stays running |
| AttemptGuard.ClaimsPerIssue | server/src/services/password_reset.rs:328-346 | claims admitted in a run never exceed five per issue plus what the counter had left |
| AttemptGuard.IssuesAreSpaced | server/src/services/password_reset.rs:133-163 | n issues through the cooldown take at least 60 (n - 1) seconds |
| AttemptGuard.GuessBound | server/src/services/password_reset.rs:133-163 | counter and cooldown together: any success-free span of T ms admits at most 5 (floor(T / 60000) + 2) checks |
| AttemptGuard.AtMostFivePerCode | server/src/services/verification.rs:342-360 | between two stored codes the counter rises by exactly the admitted checks, at most to five |
| PasswordReset.UserRow.RequestReset | server/src/services/password_reset.rs:130-166 | the cooldown UPDATE replaces the code exactly when 60 000 ms have passed, for 600 000 ms and with no attempt claimed |
| PasswordReset.UserRow.IncrementFailedAttempts | server/src/services/password_reset.rs:328-346 | claims a check if and only if fewer than five were claimed |
| PasswordReset.UserRow.ConsumeCode | server/src/services/password_reset.rs:269-291 | clears any stored code and bumps the version, or changes nothing |
| PasswordReset.UserRow.ResetPassword | server/src/services/password_reset.rs:198-324 | undisturbed: succeeds exactly for the stored code up to its expiry with fewer than five attempts claimed, then clears the columns and bumps the version; a readable code costs an attempt otherwise, anything else changes nothing |
| PasswordReset.ResetsAreConserved | server/src/services/password_reset.rs:198-324 | in every interleaving of the statements of any number of calls: resets never exceed codes issued, one version bump each, counter in [0, 5], checks within claims |
| PasswordReset.RunIsGuardRun | server/src/services/password_reset.rs:242-247 | refinement: every such interleaving is a run of the counter-and-cooldown guard |
| PasswordReset.GuessesAreBounded | server/src/services/password_reset.rs:242-247 | the guess bound inside the interleaved protocol, from any reachable moment |
| PasswordReset.CodeIsUsableForTenMinutes | server/src/services/password_reset.rs:229-247 | in every interleaving: a call that reads later than 600 000 ms after the stored code was sent, or with none stored, is over without claim, effect or success, whatever follows; one that reads within goes on with the stored code |
| PasswordReset.UndisturbedResetIsAtomic | server/src/services/password_reset.rs:198-324 | refinement: the statements of one call with nobody in between do what ResetPassword says |
| PasswordReset.ConsumesItsOwnCodeExactly | server/src/services/password_reset.rs:269-291 | from any state in which a call reads a usable code, and over any interleaving until its UPDATE succeeds: it consumes the code it was checked against if and only if no request in between passed the cooldown |
| PasswordReset.OldCodeConsumesNewOne | server/src/services/password_reset.rs:269-291 | from every state with a usable code and two attempts left, and for any newer code, that condition can fail: the IS NOT NULL guard lets the checked call consume the newer code |
| EmailVerification.UserRow.ResendCode | server/src/services/verification.rs:362-431 | nothing for a verified user; otherwise a new code exactly when the cooldown is over |
| EmailVerification.UserRow.VerifyEmail | server/src/services/verification.rs:266-331 | undisturbed: verifies exactly an unverified user for the stored code up to its expiry with fewer than five attempts claimed; a readable code costs an attempt otherwise, anything else changes nothing |
| EmailVerification.RunIsGuardRun | server/src/services/verification.rs:308-313 | refinement of the interleaved statements to the same guard |
| EmailVerification.CounterStaysInRange | server/src/services/verification.rs:342-360 | in every interleaving the counter stays in [0, 5] and a verified user stays verified |
| EmailVerification.FiveChecksPerCode | server/src/services/verification.rs:308-313 | from any reachable moment at most the remaining attempts are admitted until a code is stored or confirmed |
| EmailVerification.CodeIsUsableForTenMinutes | server/src/services/verification.rs:288-313 | in every interleaving: a call that reads later than 600 000 ms after the code was sent, with none stored, or of a verified user, is over without claim or effect; any other goes on with the stored code |
| EmailVerification.UndisturbedVerificationIsAtomic | server/src/services/verification.rs:266-331 | refinement: the statements of one call with nobody in between do what VerifyEmail says |
| ReplicaSelection.SelectWeightedIndex | server/src/utils/db_router.rs:399-421 | the loop returns the replica whose weight interval holds the roll; all weights 0 fall back to the counter |
| ReplicaSelection.PositionInInterval | server/src/utils/db_router.rs:412-418 | a roll selects position j if and only if it lies in j's interval of partial sums |
| ReplicaSelection.EachWeightGetsItsRolls | server/src/utils/db_router.rs:399-421 | exact proportionality: over all rolls below the total, position j is chosen exactly weights[j] times |
| ReplicaSelection.TotalFitsU64 | server/src/utils/db_router.rs:400-400 | up to 2^32 weights of 32 bits cannot overflow the 64-bit total |
| ReplicaSelection.RoundRobinIsFair | server/src/utils/db_router.rs:305-308 | among k consecutive counter values each remainder modulo n occurs floor(k / n) times, the next k mod n in turn once more |
| ReplicaRouter.PicksAreFair | server/src/utils/db_router.rs:274-320 | over any run of k round-robin picks while the same n replicas are healthy, each is picked floor(k / n) times, the next k mod n in turn once more |
| ReplicaRouter.HealthyExactly | server/src/utils/db_router.rs:281-298 | the candidates are exactly the replicas neither excluded nor behind an open breaker |
| ReplicaRouter.ExpiredExactly | server/src/utils/db_router.rs:241-253 | the probe collects exactly the replicas whose breaker has run out |
| ReplicaRouter.ConnectionErrorsExactly | server/src/utils/db_router.rs:615-647 | exactly connection and acquire errors, and query errors whose text spells one of the six hints somewhere in any letter case, make a read try on |
| ReplicaRouter.EachReplicaGetsItsWeight | server/src/utils/db_router.rs:399-421 | the healthy replica at position j is picked for exactly as many rolls below the total as its weight |
| ReplicaRouter.AutoRouter.constructor | server/src/utils/db_router.rs:186-212 | starts with a closed breaker for every replica |
| ReplicaRouter.AutoRouter.ProbeReads | server/src/utils/db_router.rs:239-269 | each collected replica is closed or reopened by its own ping, all others untouched |
| ReplicaRouter.AutoRouter.CollectHealthy | server/src/utils/db_router.rs:279-298 | closes expired breakers of the considered replicas and collects the candidates in order |
| ReplicaRouter.AutoRouter.Choose | server/src/utils/db_router.rs:304-317 | returns a candidate: under round-robin the counter's, under random the roll's, under weighted the one in whose weight interval the roll falls |
| ReplicaRouter.AutoRouter.PickNextRead | server/src/utils/db_router.rs:274-320 | a pick is a non-excluded replica with a closed breaker, under weighted the one in whose interval the roll falls; None if and only if there is none |
| ReplicaRouter.AutoRouter.TryEachReplica | server/src/utils/db_router.rs:336-353 | whatever others do to breakers and counter between the steps, phase 1 calls pairwise different replicas, and gives up only when all were tried or its last pick saw every other breaker open; with nobody in between the breakers were closed at the pick and each failed replica is left marked for the break time from its call on |
| ReplicaRouter.AutoRouter.RetryReplicas | server/src/utils/db_router.rs:360-379 | phase 2 walks round the replicas from the number tried, whatever the breakers say and however others change them, and gives up only after all `retry_attempts` calls |
| ReplicaRouter.AutoRouter.ExecuteReadRetry | server/src/utils/db_router.rs:324-387 | whatever others do to breakers and counter between the steps: the last call's outcome is the answer and only replica connection failures precede it. Unless a replica answers, exactly first + `retry_attempts` replica calls are made (none if phase 1 made none), phase 1 having ended only with all replicas tried or every other breaker open; the writer is called if and only if there are no replicas, or none answered and the fallback is on. With nobody in between every failed replica ends marked down until its call's reading plus the break time at least |
| BreakerRuns.LengthAndTime | server/src/utils/db_router.rs:239-320 | in every run the breaker list keeps its length and time does not run back |
| BreakerRuns.BreakerHolds | server/src/utils/db_router.rs:389-394 | marked down while the probe does not hold it, a replica is not picked before the break time has passed, whatever else happens |
| BreakerRuns.BreakerEnds | server/src/utils/db_router.rs:281-298 | in every run without a new failure of the replica, every pick may take it again once the break time has passed |
| BreakerRuns.ProbeCollectsTheExpired | server/src/utils/db_router.rs:239-253 | a probe that is done takes up exactly the replicas whose breaker has run out |
| BreakerRuns.FreshBreakerIsRespectedExactly | server/src/utils/db_router.rs:255-268 | a fresh breaker is respected in every continuation if and only if the probe had not collected the replica |
| SqlScanner.CteMainStmtIsWrite | server/src/utils/db_router.rs:581-604 | the byte loop answers true if and only if some position at clamped depth 0 starts a write keyword |
| SqlScanner.IsWriteStatement | server/src/utils/db_router.rs:545-568 | in terms of the text as written, in any letter case: true exactly when the first visible word is one of the four keywords, or it is WITH and a keyword stands outside all parentheses of what follows |
| SqlScanner.TrimmedExactly | server/src/utils/db_router.rs:550-550 | trimming removes exactly the leading Unicode white space |
| SqlScanner.VerdictBySpelling | server/src/utils/db_router.rs:545-601 | the verdict on a statement visible from position n on, by the spelling of its words in any letter case |
| SqlScanner.CaseIsIgnored | server/src/utils/db_router.rs:550-551 | statements that differ only in ASCII case are scanned as one text |
| SqlScanner.WritesIsPositional | server/src/utils/db_router.rs:590-601 | the recursive reading and the positional one agree on every text and entry depth |
| SqlScanner.ScanInTwoParts | server/src/utils/db_router.rs:586-601 | no keyword crosses a parenthesis, so a text ending in one can be scanned separately |
| SqlScanner.VerdictIsThatOfMain | server/src/utils/db_router.rs:561-566 | for every rendered WITH query with balanced bodies and plain headers the verdict is that of the main statement, whatever the bodies contain |
| SqlScanner.VerdictIsThatOfMainExactly | server/src/utils/db_router.rs:561-601 | for any non-empty list of table expressions, with any headers and bodies: the scanner's verdict on the query is its verdict on the main statement, for every main statement, if and only if the scan of what comes before is back at depth 0 with no keyword met |
| SqlScanner.VerdictIsThatOfMainExactlyWhenShielded | server/src/utils/db_router.rs:576-580 | of one table expression with a plain header: if and only if the scan of its body is back at depth 0 with no keyword met |
| SqlScanner.QuotedParenthesisHidesWrite | server/src/utils/db_router.rs:576-580 | a quoted parenthesis in a body turns a DELETE into a read |
| RateLimiter.RedisRateLimiter.Incr | crates/distributed-ratelimit/src/limiter.rs:100-106 | counts on from a live counter keeping its expiry, or starts at 1 without one |
| RateLimiter.RedisRateLimiter.Check | crates/distributed-ratelimit/src/limiter.rs:85-115 | allowed exactly for the first max requests a live counter has seen; it counts on to its own expiry, and a new one lasts for the window; between scripts no counter is left without an expiry |
| RateLimiter.EachRequestHasItsWindow | crates/distributed-ratelimit/src/limiter.rs:85-115 | for every trace each request lies within W of an opening request, and a window allows exactly its first max requests |
| RateLimiter.WindowsAreDisjoint | crates/distributed-ratelimit/src/limiter.rs:100-106 | two windows of a trace open at least W apart |
| RateLimiter.AnyIntervalIsBounded | crates/distributed-ratelimit/src/limiter.rs:85-115 | for every trace any half-open interval of length W holds at most 2 max - 1 allowed requests (none if max is 0) |
| RateLimiter.BoundIsReached | crates/distributed-ratelimit/src/limiter.rs:85-115 | a burst on either side of a window's end reaches that bound |
| CaptchaKeys.StoredRoundTrip | server/src/services/wechat.rs:283-287 | `code:openid` splits back into its parts for any openid, and for exactly the colon-free codes |
| CaptchaKeys.DerivedKeyAgrees | server/src/services/wechat.rs:188-198 | the script derives the key the index was written under if and only if `:captcha:` does not occur early in the account's prefix |
| CaptchaKeys.AccountNamedCaptcha | server/src/services/wechat.rs:188-198 | an account called `captcha` fails that condition |
| CaptchaKeys.DerivedKeyElsewhere | server/src/services/wechat.rs:188-198 | also when it is wrong, the derived key is never a captcha key or another code's index key of the account |
| CaptchaStore.RedisCaptchaStore.SetNxEx | server/src/services/wechat.rs:93-114 | stores exactly when no live value is there |
| CaptchaStore.RedisCaptchaStore.SetCaptchaNx | server/src/services/wechat.rs:228-255 | on a free key sets captcha and index and clears the attempts; on a taken one changes nothing |
| CaptchaStore.RedisCaptchaStore.ConsumeCaptcha | server/src/services/wechat.rs:257-290 | returns code and openid and removes captcha, attempts and derived index in one step |
| CaptchaStore.RedisCaptchaStore.IncrFailedAttempts | server/src/services/wechat.rs:145-168 | INCR counts on or starts at 1 without an expiry, EXPIRE then gives ten minutes; if that fails the caller gets an error and the count stays; a text is an error and stays |
| CaptchaStore.RedisCaptchaStore.DeleteCaptcha | server/src/services/wechat.rs:318-325 | removes captcha, attempts and index |
| CaptchaStore.CaptchaService.GenerateCode | crates/wechat-api/src/captcha.rs:45-53 | the code spells the drawn characters of the set, one a draw, and so holds no colon |
| CaptchaStore.CaptchaService.Generate | crates/wechat-api/src/captcha.rs:75-89 | stores a new captcha exactly when the openid has none |
| CaptchaStore.CaptchaService.VerifyForOpenid | crates/wechat-api/src/captcha.rs:95-138 | undisturbed: Ok exactly for a live code of the same length and letters up to case; a miss counts one attempt, fewer than the limit, for ten minutes and changes nothing else; the last attempt and a success leave neither captcha nor counter |
| CaptchaStore.EqualUpToCaseExactly | crates/wechat-api/src/captcha.rs:104-104 | a guess matches if and only if it has the same length and at every position the same character, or the same letter in the other case |
| CaptchaTheorems.RunKeepsAgreement | server/src/services/wechat.rs:228-325 | for every account, in every serial run with new codes, index writes succeeding and no openid ending in `:attempts`, each live captcha has an index entry to its openid that lives as long |
| CaptchaTheorems.LiveCodeLogsIn | crates/wechat-api/src/captcha.rs:95-138 | after any such run the index leads from a live code to its openid, verification succeeds in any letter case, the captcha is gone, and its index entry too if and only if the account's prefix allows it |
| CaptchaTheorems.ConsumeRemovesIndexExactly | server/src/services/wechat.rs:182-202 | consume removes the captcha, and its index if and only if the account's prefix allows it |
| CaptchaTheorems.DeleteRemovesIndex | server/src/services/wechat.rs:318-325 | delete removes both for every account |
| CaptchaTheorems.UndisturbedCallIsAtomic | crates/wechat-api/src/captcha.rs:75-138 | refinement: command by command with nobody in between, generate and verify leave exactly the store the serial model says |
| CaptchaTheorems.VerifiedNeverExceedGenerated | crates/wechat-api/src/captcha.rs:75-138 | in every interleaving of the Redis commands of any number of calls, with any expiries, any keys, and commands failing before or after their effect, successful verifications of an openid plus its stored captcha never exceed those generated for it |
| CaptchaGuesses.EventBalance | crates/wechat-api/src/captcha.rs:104-119 | under all settings each Redis command of any call, answered or failed, keeps the account of wrong guesses: a comparison becomes pending, and a pending one is counted, deletes the captcha, or is paid for by a reset or expiry of the counter or a failure |
| CaptchaGuesses.GuessesWithOverlap | crates/wechat-api/src/captcha.rs:104-119 | under all settings, over every interleaving of all users' commands, no openid ending in `:attempts`: wrong guesses at one captcha are at most (c + 1)(limit - 1) + k + f, with c resets or expiries of the counter while the captcha lives, k calls of its openid in flight at most, and f failed bookkeeping commands |
| CaptchaGuesses.GuessesOnceSettled | crates/wechat-api/src/captcha.rs:104-119 | under all settings, once no reset is on its way and Redis answers: at most (l + 1)(limit - 1) + k, with l expiries of the counter while the captcha lives |
| CaptchaGuesses.GuessesWithoutOverlap | crates/wechat-api/src/captcha.rs:75-119 | under all settings, from its generation on, over every interleaving with other users, as long as the calls of its openid do not overlap and Redis answers: at most (l + 1)(limit - 1) + 1; l is 0 when captchas live at most ten minutes |
| CaptchaGuesses.AllowanceIsKept | crates/wechat-api/src/captcha.rs:75-119 | hence a captcha takes at most `max_failed_attempts` wrong guesses (one if that is 0), when captchas live at most ten minutes or the limit is at most 1 |
| CaptchaGuesses.OverlapBreaksTheLimit | crates/wechat-api/src/captcha.rs:104-110 | under all settings k overlapping calls compare before any of them counts and reach limit - 1 + k |
| CaptchaGuesses.LateResetReachesTheBound | server/src/services/wechat.rs:253-254 | the late reset of the generating call doubles what is allowed, reaching the bound on every run |
| CaptchaGuesses.PauseResetsTheCounter | server/src/services/wechat.rs:159-166 | with captchas living longer than ten minutes a pause grants one wrong guess more than the limit, one call at a time |
| CaptchaGuesses.AllowanceIsKeptExactly | crates/wechat-api/src/captcha.rs:104-119 | with at most k calls of the openid in flight, the limit holds in all interleavings if and only if k is 1 and captchas live at most ten minutes or the limit is at most 1 |
| TemplateFormat.Tf | crates/i18n/src/tf.rs:15-30 | for every reading of the template as tokens the loop yields the one-pass substitution; without arguments the template comes back, escapes included |
| TemplateFormat.FormattingIsSubstitution | crates/i18n/src/tf.rs:19-29 | replacing argument after argument equals simultaneous substitution whenever no value reopens a hole of a later argument; unknown holes stay and escaped braces come back as braces |
| TemplateFormat.OneHoleIsFilled | crates/i18n/src/tf.rs:15-30 | in a text without backslashes or other opening braces `{key}` is replaced by any value of `key`, and the rest stays |
| TemplateLaw.LawHoldsExactly | crates/i18n/src/tf.rs:19-29 | for the last argument whose value holds a brace, those before it reopening nothing: the law holds for every template if and only if none of its braces begins a later argument's hole, alone or with text after it |
| TemplateLaw.LawForTwoExactly | crates/i18n/src/tf.rs:19-29 | for any two arguments the law holds for every template if and only if the earlier value reopens nothing |
| TemplateLaw.ChangesCanCancelOut | crates/i18n/src/tf.rs:25-27 | for three arguments it is not necessary: a reopened hole can turn into another one whose value restores the text, in every template |
| TemplateFormat.ArgumentOrderIsIrrelevant | crates/i18n/src/tf.rs:23-27 | with distinct keys any order of the arguments gives the same text |
| TemplateFormat.SortedByKeyLength | crates/i18n/src/tf.rs:23-24 | the sort is a permutation by descending key length that keeps keys of one length in their order |
| TemplateFormat.OpenEscapes | crates/i18n/src/tf.rs:21-21 | replacing `\{` touches exactly the escaped opening braces |
| TemplateFormat.CloseEscapes | crates/i18n/src/tf.rs:22-22 | replacing `\}` touches exactly the escaped closing braces |
| TemplateFormat.ReplaceIsFill | crates/i18n/src/tf.rs:26-26 | one replacement fills exactly the holes of its own key, `{total}` never part of `{total_pages}` |
| TemplateLaw.ReopenedHoleIsReplaced | crates/i18n/src/tf.rs:25-27 | an earlier value that spells a later hole is replaced in turn, so order matters there |

## Left out

- AllIdsEverIssuedDiffer: conditions on the clock and on heartbeats are assumptions about the deployment, both shown necessary by witnesses; and a process is assumed to issue nothing after its deregistration, although in the source the generator can outlive the handle that deregisters
- IdsStrictlyIncrease: one loop turn is atomic; instruction-level interleavings are treated in SnowflakeRace
- LawHoldsExactly: asks that braces after the i-th value come from at most one further argument; beyond that changes can cancel out, as ChangesCanCancelOut shows, so the condition is then sufficient only
- GuessesAreBounded: an issue takes effect at the instant it stores, as one statement
- Tf: the sentinels are symbols of their own, so texts that spell `__ESC_OPEN_7F3A__` are not modelled; key length counts characters, not UTF-8 bytes
- RunKeepsAgreement: calls run one after the other, and an openid ending in `:attempts` is excluded because its captcha key is another openid's attempts key
- GuessesWithOverlap: excludes such openids too
- VerifyForOpenid: one call uses one instant for all its commands; interleavings and failing commands are covered by the theorems over runs of CaptchaTheorems and CaptchaGuesses
- ExecuteReadRetry: closed breakers at the picks and surviving marks are stated for the case that nobody acts in between; with interleaving they are the subject of PickNextRead and BreakerRuns
- OnceExactlyWhenUndisturbed: a call is dropped between two commands, not while one is on its way to Redis
- PicksAreFair: the wrap of the counter at 2^64 and a changing healthy set are not part of the bound
- EndedSessionIsRefused: service calls take effect at one instant, and answers come within D of their database read
- overflow of `AtomicI64` after 2^63 claims, of the u32 scan depth and attempt counts, of the i32 token version, and the debug-mode overflow panic before the custom epoch
- a Redis client that was never configured, for the captcha store and the rate limiter, and Redis refusing a captcha TTL of 0
- more than one user at the version check, in PasswordReset and in EmailVerification, and more than one key in StampedeCache: the keys do not interact
- races inside one service call of login, rotation, revocation and registration, which run as transactions and are single steps here
- randomness of tokens, UUIDs, salts and user ids: taken as never repeated
- `is_locking_select`, balance updates, `get_or_insert`, list and pagination queries, `set_captcha`, `matches_trigger`, the in-memory stores: would only add easy members
- Argon2, SHA-256, JWT signing, SMTP, HTTP handlers, logging, configuration and the user interface
