# Identyx API: verified state machines

A Dafny model of the stateful parts of the Identyx authentication services, with proofs of what they
guarantee over whole runs.

| file | models |
|---|---|
| `SlidingWindow.dfy`, `RateLimit.dfy` | the gateway's two sliding-window rate limiters over Redis sorted sets |
| `Sessions.dfy`, `SessionRuns.dfy` | the session table, its service, and serialised runs of it: limit, eviction, rotation chains |
| `SessionProtocol.dfy`, `SessionLimits.dfy` | the same table under interleaved requests: single use, revocation, the limit |
| `Refresh.dfy` | the refresh protocol of auth-service |
| `ApiKeys.dfy`, `ApiKeyCache.dfy` | API-key resolution behind its cache, serialised and interleaved |
| `Origins.dfy`, `Cors.dfy` | ownership of browser origins; the preflight and request decisions of the gateway |
| `BruteForce.dfy`, `LockoutRuns.dfy` | the login failure counters and the bounds they give |
| `Users.dfy` | user-service: profiles, one-time token rows, commit and rollback |
| `TokenFormat.dfy`, `OneTimeTokens.dfy` | the signed dotted token, and its life from minting to redemption |
| `Blacklist.dfy` | access-token decoding and the revocation blacklist |

Each service is a class whose methods work step by step on its tables; their contracts tie the new state to a
function of the old one. The theorems are about these functions: about every run, every interleaving of steps,
or every input. `dafny verify dfyconfig.toml` checks everything.

Time is in whole microseconds and passed in. Stored hashes stand for the tokens they were made of. Signature,
hash and string operations (`mac`, `sha`, `lower`, `strip`, address validation) are arbitrary functions; where a
theorem needs a law of them it says so (`PrintsWithoutDots`, `CollisionFree`, `Lawful`). Row ids, tokens and key
pairs come in as parameters, fresh where the theorem says so. Redis and the databases are reachable.

Where the code departs from what it promises, the model follows the code:

- The session limit has three leaks: a rotation at the exact expiry instant revives a session no longer counted
  (`SessionRuns.RotateGrowsActiveIff`); so does one that read its row in time and writes it after the expiry
  (`SessionLimits.LateRotationExceedsLimit`); and logins that overlap count the same sessions and may push out the
  same one (`SessionProtocol.InterleavedLoginsExceedLimit`). Without the three it holds under any interleaving
  (`SessionLimits.CarefulRunsKeepTheLimit`), and `SessionLimits.WithinIffRoom` says exactly when it does.
- "Each refresh token can only be used once" holds for serialised rotations; an interleaved run keeps it if and only
  if every rotation overwrites the hash it read (`SessionProtocol.SingleUseIffNoStaleWrites`).
- A revoked API key "dies immediately", once its entry is deleted, if and only if no verification of it is past its
  key read with time left to store (`ApiKeyCache.DiesAtOnceIff`); otherwise within TTL plus delay.
- Reactivating an application without naming its origins skips the uniqueness check; it does harm exactly when
  another active application has claimed one of them (`Origins.OwnershipAlwaysIff`).
- "After each failed login" the counters grow, but not for an address without a profile, for a refused login, or
  with a lockout of zero (`LockoutRuns.FailureCountsIff`).
- auth-service does not look at the answer of a confirmation or a rotation, so it reports some successes that did
  not happen (`OneTimeTokens.ReportedSuccessIsRealIff`, `Refresh.RefreshHandsOverIff`).
- Reset and deletion tokens of a user whose profile is gone change or erase the credential and stay unspent
  (`OneTimeTokens.EffectSpendsTokenIff`). The reset token works again and again until it expires; the deletion token
  finds nothing left (`OneTimeTokens.FreshIdsLeaveOnlyResets`, `OneTimeTokens.ResetTakesEffectTwice`).
- `is_verified` "is used internally", but the owner's PATCH carries it too: a profile can be verified without a token
  (`Users.PatchVerifiesWithoutToken`), on exactly the runs `Users.TokensAloneVerifyIff` names.

## Model

| member | source | states |
|---|---|---|
| `SlidingWindow.DelayedWindowBound` | gateway/app/middleware/rate_limit.py:97-111 | whatever the delays up to d between stamp and pipeline, in any stamp order and with other paths in the bucket, accepted stamps in a window of 60 s - d number at most the limit |
| `SlidingWindow.WindowCannotBeWidened` | gateway/app/middleware/rate_limit.py:99-106 | one microsecond more than 60 s - d and two requests limited to one are both accepted |
| `SlidingWindow.Retained` | gateway/app/middleware/rate_limit.py:103-106 | until the window is over neither a purge nor the key expiry loses a stamp |
| `SlidingWindow.AcceptedIffLogWithinLimit` | gateway/app/middleware/rate_limit.py:97-111 | without delay a request is accepted if and only if the requests of its bucket in the last 60 s, refused ones included, are within the limit |
| `SlidingWindow.SilenceReadmits` | gateway/app/middleware/rate_limit_by_key.py:64-76 | after 60 s in which no pipeline of the bucket ran, a request is accepted |
| `SlidingWindow.SortedSets.RunPipeline` | gateway/app/middleware/rate_limit.py:102-109 | the four commands together are one update of the bucket, and the count is its size |
| `RateLimit.LimitersNeverShareABucket` | gateway/app/middleware/rate_limit_by_key.py:61 | the buckets of the two limiters, which share a Redis database, are disjoint |
| `RateLimit.KeyBucketsApart` | gateway/app/middleware/rate_limit_by_key.py:60-61 | two applications, or two path groups, never share a per-key bucket |
| `RateLimit.IpBucketsApart` | gateway/app/middleware/rate_limit.py:94-95 | nor two addresses a per-address bucket, if the addresses or the paths have no colon |
| `RateLimit.ColonsMixAddresses` | gateway/app/middleware/rate_limit.py:94-95 | two IPv6 addresses share one through a path with a colon |
| `RateLimit.PlainPathsApart` | gateway/app/middleware/rate_limit.py:94 | plain paths are told apart; only "/" shares the group of "/root" |
| `RateLimit.LimitForPathHolds` | gateway/app/middleware/rate_limit.py:46-60 | each listed path, each session path and every other path is held to the limit of its group |
| `RateLimit.LoginsAreLimited` | gateway/app/middleware/rate_limit.py:47-48 | without delay a login is accepted if and only if its bucket holds at most the login limit of requests of the last 60 s |
| `RateLimit.RateLimiter.LimitByIp` | gateway/app/middleware/rate_limit.py:84-140 | counts every request under its address and path group, held to the limit of its group of paths, and answers as the log says |
| `RateLimit.RateLimiter.LimitByKey` | gateway/app/middleware/rate_limit_by_key.py:47-93 | counts only requests authenticated by key with an application id; the others pass uncounted |
| `Sessions.SessionRepository.GetOldestActiveByUser` | services/session-services/app/repositories/session_repo.py:88-107 | returns a session no active one of the user and tenant is older than, or none when there is none |
| `Sessions.SessionRepository.RevokeAllByUser` | services/session-services/app/repositories/session_repo.py:136-146 | row by row: the user's rows end revoked, all others are untouched, and the count is that of the rows that changed |
| `Sessions.SessionRepository.UpdateTokenHash` | services/session-services/app/repositories/session_repo.py:148-161 | rewrites hash and expiry of one row unless another row holds the hash |
| `Sessions.SessionService.CreateSession` | services/session-services/app/services/session_service.py:40-76 | pushes out one oldest active session at the limit, then inserts, reading the clock for the count, the choice and the row; a duplicate hash leaves the table untouched |
| `Sessions.CreatedRows` | services/session-services/app/services/session_service.py:64-75 | a login adds its row and changes no other, but for the oldest session, revoked, when the limit is reached |
| `Sessions.SessionService.ValidateSession` | services/session-services/app/services/session_service.py:78-106 | answers with a session exactly when a row holds the hash, unrevoked and not past its expiry |
| `Sessions.SessionService.RevokeSessionById` | services/session-services/app/services/session_service.py:120-143 | 404, 403 or the revocation of that one row |
| `Sessions.SessionService.RevokeSession` | services/session-services/app/services/session_service.py:108-118 | revokes whatever row holds the hash, silently when none does, and leaves every other row alone |
| `Sessions.SessionService.RevokeAllSessions` | services/session-services/app/services/session_service.py:145-153 | row by row: revokes the user's sessions and nobody else's, and reports how many it changed |
| `Sessions.SessionService.RotateSession` | services/session-services/app/services/session_service.py:167-223 | succeeds exactly for a stored, unrevoked, unexpired token and then rewrites that row only |
| `SessionRuns.Serve` | services/session-services/app/services/session_service.py:40-223 | the service serves every request of a run exactly as the run says |
| `SessionRuns.SessionLimit` | services/session-services/app/services/session_service.py:54-76 | over every serialised run the active sessions per user and tenant number at most max(1, limit) plus the rotations at an exact expiry instant |
| `SessionRuns.RotateGrowsActiveIff` | services/session-services/app/services/session_service.py:201-217 | a rotation adds an active session if and only if it hits the expiry instant and asks for a later expiry |
| `SessionRuns.BoundaryRotationExceedsLimit` | services/session-services/app/services/session_service.py:206-217 | a run of three requests with a limit of one and two active sessions |
| `SessionRuns.EvictedIsNeverNewer` | services/session-services/app/repositories/session_repo.py:88-107 | a session pushed out by the limit is never newer than any of the same user and tenant active then or later |
| `SessionRuns.LatestLoginsSurvive` | services/session-services/app/services/session_service.py:64-75 | with logins only and no expiry the active sessions are exactly the latest ones, as many as the limit |
| `SessionRuns.TokenRotatedOnce` | services/session-services/app/services/session_service.py:28-35 | in every serialised run no refresh token is rotated successfully twice |
| `SessionRuns.ChainLink` | services/session-services/app/services/session_service.py:212-217 | a session changes its hash only by a rotation that presented the current one |
| `SessionRuns.ChainIsLinear` | services/session-services/app/services/session_service.py:167-217 | the hashes of a session form one chain without repetition that ends in the stored hash |
| `SessionRuns.ChainsAreDisjoint` | services/session-services/app/services/session_service.py:167-217 | no hash is ever held by two sessions |
| `SessionProtocol.InvIsInductive` | services/session-services/app/services/session_service.py:184-217 | every interleaved step keeps stored hashes distinct and tokens in transit unstored |
| `SessionProtocol.OneTokenPerSession` | services/session-services/app/services/session_service.py:90-106 | in every such state two tokens that validate to one session are equal, and a token validates to one session |
| `SessionProtocol.RevokedNeverValidates` | services/session-services/app/repositories/session_repo.py:148-161 | a revoked session never validates again, whatever late rotate-writes land on its row |
| `SessionProtocol.LogoutIsFinal` | services/session-services/app/services/session_service.py:108-118 | after a logout its token never validates, even if a rotation already under way writes the row later |
| `SessionProtocol.RevokeAllStep` | services/session-services/app/repositories/session_repo.py:136-146 | among interleaved requests, revoking all touches the user's rows, all of them, and nobody else's |
| `SessionProtocol.RevokeAllIsFinal` | services/session-services/app/services/session_service.py:145-153 | no session the user had then validates ever again, by any token, whatever requests were under way |
| `SessionProtocol.ReplacedNeverValidates` | services/session-services/app/services/session_service.py:167-183 | a replaced token never validates again, under any interleaving |
| `SessionProtocol.WriteTakesEffect` | services/session-services/app/repositories/session_repo.py:148-161 | the unique constraint never refuses a rotate-write |
| `SessionProtocol.WriteHandsOverIff` | services/session-services/app/repositories/session_repo.py:148-161 | the token of a rotation validates once written if and only if the session is unrevoked at that moment |
| `SessionProtocol.SecondSpendIsStale` | services/session-services/app/services/session_service.py:184-217 | of any two completed rotations of one token, the later one overwrote a hash other than the one it had read |
| `SessionProtocol.StaleWriteSpendsTwice` | services/session-services/app/services/session_service.py:184-217 | conversely, a run with such a stale write has a token that completed two rotations by then |
| `SessionProtocol.SingleUseIffNoStaleWrites` | services/session-services/app/repositories/session_repo.py:155-157 | on every run, however interleaved, tokens are single-use if and only if no rotation is written over another hash than it read |
| `SessionProtocol.SpendingRetires` | services/session-services/app/services/session_service.py:184-217 | a completed rotation, stale or not, leaves the token it presented stored nowhere for good |
| `SessionProtocol.InterleavedRefreshesBothComplete` | services/session-services/app/services/session_service.py:184-217 | from every state two interleaved refreshes of one token both complete, and the first one returns a dead token |
| `SessionProtocol.InterleavedLoginsExceedLimit` | services/session-services/app/services/session_service.py:54-76 | from every state with one free place two interleaved logins leave one session too many |
| `SessionLimits.AddsSessionIff` | services/session-services/app/services/session_service.py:54-76 | under interleaving a step adds a session exactly if it is a login write whose victim is missing or no longer active, or a rotation written to an unrevoked row that has expired meanwhile |
| `SessionLimits.WithinIffRoom` | services/session-services/app/services/session_service.py:59-75 | on every interleaved run the active sessions stay within a bound if and only if no step adds one while the bound is reached |
| `SessionLimits.CarefulRunsKeepTheLimit` | services/session-services/app/services/session_service.py:54-76 | when no two logins of a user and tenant overlap and no rotation is written to an expired row, at most max(1, limit) sessions are active, whatever else interleaves |
| `SessionLimits.LateRotationExceedsLimit` | services/session-services/app/services/session_service.py:185-217 | a run without overlapping logins: read for rotation before the expiry, written after a login no longer counted it, two sessions active with a limit of one |
| `SessionProtocol.RotationBackToBack` | services/session-services/app/services/session_service.py:184-217 | read and write run back to back are the serialised rotation |
| `SessionProtocol.LoginBackToBack` | services/session-services/app/services/session_service.py:54-76 | count, pick and write run back to back are the serialised login |
| `SessionLimits.SingleSteps` | services/session-services/app/services/session_service.py:108-153 | logout and the two revocations, one step each, are the serialised requests |
| `Refresh.RefreshTokens` | services/auth-services/app/services/auth_service.py:1238-1273 | answers 200 on the validation alone, whatever the rotation answered |
| `Refresh.RefreshHandsOverIff` | services/auth-services/app/services/auth_service.py:795-818 | whatever happened since the validation, the returned token validates if and only if the presented one still did when it was rotated; the presented one does not from then on |
| `Refresh.UninterruptedHandsOverIff` | services/auth-services/app/services/auth_service.py:1238-1273 | in an uninterrupted refresh that answered 200 that is if and only if the session had not expired when it was rotated |
| `Refresh.LogoutInBetween` | services/auth-services/app/services/auth_service.py:1238-1273 | with a logout between the two calls the answer is 200 and neither token validates |
| `Origins.CreateKeepsOwnership` | services/application-services/app/services/application_service.py:66-70 | registering an application keeps every non-empty origin with one active application |
| `Origins.UpdateKeepsOwnershipIff` | services/application-services/app/services/application_service.py:298-312 | an update keeps it if and only if it is no unchecked reactivation, or nobody active claims the origins coming back |
| `Origins.OwnershipAlwaysIff` | services/application-services/app/services/application_service.py:85-108 | origins stay owned all along a run if and only if every unchecked reactivation found its origins unclaimed |
| `Origins.ReactivationSharesAnOrigin` | services/application-services/app/services/application_service.py:304-308 | suspend, register elsewhere, reactivate: two active owners |
| `Origins.FindActiveByOrigins` | services/application-services/app/repositories/application_repo.py:54-85 | returns exactly the active applications that list one of the non-empty origins |
| `Origins.EnsureOriginsAvailable` | services/application-services/app/services/application_service.py:85-108 | accepts exactly when no other active application claims one of the origins |
| `Cors.PreflightAgrees` | gateway/app/middleware/dynamic_cors.py:93-95 | an origin allowed on a keyed request of an active application with clean origins was allowed at preflight |
| `Cors.ResolvesToTheOwner` | services/application-services/app/services/application_service.py:283-291 | under ownership a non-static origin resolves to exactly the application it was allowed for |
| `Cors.ResolvedIsAllowed` | gateway/app/middleware/dynamic_cors.py:120-135 | an origin that resolves to an application is allowed on its requests |
| `Cors.CleanIffSeenAtPreflight` | gateway/app/middleware/dynamic_cors.py:39-40 | clean spelling is exactly the condition on a stored origin for preflight to see what requests allow |
| `Cors.PreflightAllowsIff` | services/application-services/app/services/application_service.py:283-291 | preflight allows exactly the static origins and those some active application lists as looked up |
| `Cors.NormalizeIs` | gateway/app/middleware/dynamic_cors.py:39-40 | the normal form drops the trailing slashes and nothing else |
| `Cors.HandlePreflight` | gateway/app/middleware/dynamic_cors.py:93-101 | 200 with the origin echoed, or 400 without |
| `Cors.HandleActual` | gateway/app/middleware/dynamic_cors.py:120-138 | echoes the origin exactly when it is static or, with a key, among its application's origins |
| `ApiKeys.CacheRefinesDatabase` | services/application-services/app/services/application_service.py:195-247 | while live entries match the database the cache changes no answer and stays matching |
| `ApiKeys.DatabaseAnswerIff` | services/application-services/app/services/application_service.py:215-235 | an answer from the database accepts if and only if key row and application row are active and as answered, and the secret is of this key and has its hash |
| `ApiKeys.CachedAnswerIff` | services/application-services/app/services/application_service.py:195-213 | a live entry with a hash accepts if and only if it is active and the secret is of this key and has that hash; all else goes to the database |
| `ApiKeys.KeyIdIs` | services/application-services/app/security/key_generation.py:55-65 | a key id is the prefix and the next eight characters; a key of no known prefix has none |
| `ApiKeys.IssuedKeysVerify` | services/application-services/app/services/application_service.py:110-124 | both keys of a new pair are accepted at once, each as its own type, for their application and tenant |
| `ApiKeys.KeyRowsOnlyDie` | services/application-services/app/repositories/api_key_repo.py:56-63 | no call removes, rehashes or revives a key row, and only its own revocation kills it |
| `ApiKeys.TiedIsInductive` | services/application-services/app/services/application_service.py:171-175 | serialised calls keep every cached entry tied to an active row with the same hash |
| `ApiKeys.RevokedNeverAccepted` | services/application-services/app/services/application_service.py:156-175 | with serialised calls a revoked key is rejected ever after |
| `ApiKeys.StaleEntryStillChecksSecret` | services/application-services/app/security/key_generation.py:68-84 | an accepted secret always has the stored hash, stale entry or not |
| `ApiKeys.SuspensionWaitsForTheCache` | services/application-services/app/services/application_service.py:298-312 | a suspended application stays accepted from the cache exactly until the entry expires |
| `ApiKeys.ApplicationService.VerifyKey` | services/application-services/app/services/application_service.py:183-247 | answers from a live entry, else from the two rows, and stores a success |
| `ApiKeys.ApplicationService.RevokeKey` | services/application-services/app/services/application_service.py:156-175 | revokes the row and deletes the entry, or answers 404 and changes nothing |
| `ApiKeys.ApplicationService.CreateKey` | services/application-services/app/services/application_service.py:126-152 | stores both keys of a pair or neither; 404 and 409 as the application is missing or suspended |
| `ApiKeys.ApplicationService.CreateApplication` | services/application-services/app/services/application_service.py:66-83 | registers the application with its key pair, or changes nothing |
| `ApiKeys.ApplicationService.UpdateApplication` | services/application-services/app/services/application_service.py:298-312 | commits the named fields when the origins are available and leaves the cache alone |
| `ApiKeyCache.BoundedStaleness` | services/application-services/app/services/application_service.py:195-247 | in any interleaving every accepting answer was true of the key row, and then of the application row at most the read-to-set delay later, both less than TTL plus delay before the answer |
| `ApiKeyCache.RevokedDiesInTime` | services/application-services/app/cache/redis.py:75-94 | a revoked key is accepted for less than TTL plus delay after the commit, in any interleaving |
| `ApiKeyCache.WrongSecretNeverAccepted` | services/application-services/app/security/key_generation.py:68-84 | no interleaving accepts a secret whose hash is not the stored one |
| `ApiKeyCache.DiesAtOnceIff` | services/application-services/app/services/application_service.py:171-175 | from any reachable state in which a key is revoked, every continuation refuses it after its entry is deleted if and only if no verification is past its key read with time left to store |
| `ApiKeyCache.VerificationBackToBack` | services/application-services/app/services/application_service.py:183-247 | lookup, the two reads and the store, run back to back, are exactly the serialised answer and cache |
| `ApiKeyCache.RevocationBackToBack` | services/application-services/app/services/application_service.py:168-175 | commit and deletion, run back to back, are the serialised revocation |
| `ApiKeyCache.LateStoreOutlivesInvalidation` | services/application-services/app/services/application_service.py:229-247 | on any run, a verification that has read both rows and stores after revocation and deletion leaves an entry that accepts the key for a whole TTL |
| `BruteForce.LoginGuard.CheckBruteForce` | services/auth-services/app/security/brute_force.py:39-92 | refuses exactly when the unexpired counter of the account has reached max_attempts, or that of the address three times as many, with the time left |
| `BruteForce.LoginGuard.RecordFailedAttempt` | services/auth-services/app/security/brute_force.py:114-125 | bumps both counters and restarts both expiries |
| `LockoutRuns.ServeLogin` | services/auth-services/app/services/auth_service.py:968-1027 | 429, 200 or 401, and what one login does to the counters; an address without a profile is not recorded |
| `LockoutRuns.FailureCountsIff` | services/auth-services/app/security/brute_force.py:114-125 | a login without success counts against account and address if and only if it was not refused, had a profile, and the lockout is not zero |
| `LockoutRuns.CounterIsLatestRun` | services/auth-services/app/security/brute_force.py:120-125 | the counter is the length, and the only possible one, of the latest run of failures with gaps below the lockout since the last reset |
| `LockoutRuns.RefusedIffLongRun` | services/auth-services/app/security/brute_force.py:59-92 | after any log a login is refused if and only if the account has an unexpired latest run of at least max_attempts failures, or the address one of three times as many |
| `LockoutRuns.LoginBackToBack` | services/auth-services/app/services/auth_service.py:968-1027 | the two checks and the outcome, run back to back, are the serialised login |
| `LockoutRuns.FailuresPerWindow` | services/auth-services/app/security/brute_force.py:59-92 | with serialised logins and no success, N lockouts hold at most N * max_attempts recorded failures of an account and N * 3 * max_attempts of an address, 0 counting as 1 |
| `LockoutRuns.OvershootBound` | services/auth-services/app/security/brute_force.py:76-92 | with k logins in flight the counter of an account stays within max_attempts - 1 + k, that of an address within 3 * max_attempts - 1 + k, 0 counting as 1 |
| `Users.UserService.Handle` | services/user-services/app/db/session.py:45-53 | a failed request leaves the database as it found it, a successful one commits all its changes |
| `Users.UserService.CreateUser` | services/user-services/app/services/user_service.py:24-40 | inserts the normalised profile, or answers with the conflict |
| `Users.UserService.UpdateUser` | services/user-services/app/services/user_service.py:61-81 | checks only what changes, then stores exactly the named fields: normalised address, stripped name, verified flag |
| `Users.BecomesVerifiedIff` | services/user-services/app/repositories/user_repo.py:53-63 | a profile becomes verified exactly by a confirmed verification or address change, or by a PATCH that says so |
| `Users.VerifiedWasGranted` | services/user-services/app/schemas/user.py:43-76 | every verified profile of a run was verified by such a request of the run |
| `Users.TokensAloneVerifyIff` | services/user-services/app/services/user_service.py:61-81 | only token confirmations verify on a run if and only if every committed PATCH of the flag finds it set |
| `Users.PatchVerifiesWithoutToken` | services/user-services/app/schemas/user.py:53-76 | create, then PATCH the flag: verified without any token |
| `Users.UserService.CheckToken` | services/user-services/app/services/user_service.py:233-269 | valid exactly for a row of this user, unused and unexpired |
| `Users.UserService.ConfirmEmailVerification` | services/user-services/app/services/user_service.py:271-313 | marks the row used and the user verified |
| `Users.UserService.ConfirmPasswordReset` | services/user-services/app/services/user_service.py:375-408 | marks the row used for a user that exists |
| `Users.UserService.ConfirmDeletion` | services/user-services/app/services/user_service.py:469-522 | marks the row used and removes the profile |
| `Users.UserService.ConfirmEmailChange` | services/user-services/app/services/user_service.py:585-647 | marks the row used and applies the pending address unless it is taken |
| `Users.CreateKeepsIdentities` | services/user-services/app/repositories/user_repo.py:19-32 | a created profile clashes with nobody |
| `Users.UpdateKeepsIdentities` | services/user-services/app/services/user_service.py:68-80 | an update keeps addresses and names unique, also where it skips a check |
| `Users.IdentitiesAlways` | services/user-services/app/services/user_service.py:29-39 | after every serialised run addresses are normal and unique per tenant, names unique everywhere, without database constraints |
| `Users.LookupsYieldOneRow` | services/user-services/app/repositories/user_repo.py:40-51 | every lookup by address in a tenant or by name yields at most one row |
| `Users.ConflictsAreReported` | services/user-services/app/services/user_service.py:29-39 | with identities unique a taken address or name is answered 409, and the error of an ambiguous lookup never occurs |
| `Users.AppliedIffCommitted` | services/user-services/app/services/user_service.py:610-642 | a confirmation applies its effect if and only if its transaction commits |
| `Users.UsedIffApplied` | services/user-services/app/repositories/email_change_repo.py:60-69 | a token row is used if and only if some request confirmed it and committed its effect with it |
| `Users.SecondConfirmCommitsIff` | services/user-services/app/services/user_service.py:295-308 | a second confirmation commits exactly for verification and password-reset tokens |
| `TokenFormat.JoinUndoesSplit` | services/auth-services/app/security/verification.py:83 | joining undoes splitting for every string |
| `TokenFormat.SplitUndoesJoin` | services/auth-services/app/security/verification.py:83 | splitting undoes joining for dot-free parts |
| `TokenFormat.RoundTripIff` | services/auth-services/app/security/verification.py:53-62 | a generated token verifies as its user if and only if the id has no dot |
| `TokenFormat.AcceptedShape` | services/auth-services/app/security/verification.py:82-104 | an accepted string is user.purpose.timestamp.signature in one way only |
| `TokenFormat.OnePurposeOneUser` | services/auth-services/app/security/verification.py:89-104 | no string is accepted for two purposes or two users |
| `TokenFormat.GenerateInjective` | services/auth-services/app/security/verification.py:53-62 | different users, purposes or seconds give different tokens |
| `TokenFormat.DigitsAreDecimal` | services/auth-services/app/security/verification.py:53 | the timestamp prints in decimal without leading zeros |
| `OneTimeTokens.ChangesIffTakesEffect` | services/auth-services/app/services/auth_service.py:1400-1433 | a redemption changes anything in either service if and only if it takes effect, resetting a password to itself without a profile apart |
| `OneTimeTokens.EffectSpendsTokenIff` | services/auth-services/app/services/auth_service.py:1548-1564 | a redemption that takes effect spends its token unless it is a password reset or a deletion for a user without a profile |
| `OneTimeTokens.RepeatTakesEffectIff` | services/auth-services/app/services/auth_service.py:1418-1433 | redeemed again next, a token takes effect again exactly if it resets the password of a user without a profile and has not expired |
| `OneTimeTokens.TakesEffectOnce` | services/auth-services/app/services/auth_service.py:1287-1315 | no token takes effect twice in a run, unless the first time was a reset or a deletion for a user without a profile |
| `OneTimeTokens.FreshIdsLeaveOnlyResets` | services/auth-services/app/services/auth_service.py:1548-1564 | with fresh user ids a deletion token takes effect once all the same; only resets are left |
| `OneTimeTokens.OrphanedTokenStaysUnspent` | services/auth-services/app/services/auth_service.py:1554-1564 | register, mint, remove the profile, redeem: the credential is changed or erased and the token stays unspent |
| `OneTimeTokens.ResetTakesEffectTwice` | services/auth-services/app/services/auth_service.py:1418-1433 | such a run on which one reset token sets two passwords |
| `OneTimeTokens.TakesEffectOnlyAsMinted` | services/auth-services/app/services/auth_service.py:1539-1564 | a token takes effect only for the user and purpose it was minted for, unused and in its lifetime |
| `OneTimeTokens.MintedIsAdmitted` | services/user-services/app/services/user_service.py:214-231 | a fresh token is admitted exactly until its lifetime ends, one hour for a password reset and a day for the others |
| `OneTimeTokens.ReportedSuccessIsRealIff` | services/auth-services/app/services/auth_service.py:545-571 | when the confirmation behind an answer of 200 was committed, and when rolled back; a 500 of user-service fails an address change |
| `OneTimeTokens.RolledBackStillActsIff` | services/auth-services/app/services/auth_service.py:1554-1564 | rolled back in user-service, a redemption still takes effect in auth-service exactly for a reset and for the deletion of an existing credential |
| `OneTimeTokens.AuthService.MintToken` | services/auth-services/app/services/auth_service.py:632-645 | signs a token and has its hash stored, whatever that answers |
| `OneTimeTokens.AuthService.VerifyEmail` | services/auth-services/app/services/auth_service.py:1277-1322 | signature, check, confirmation |
| `OneTimeTokens.AuthService.ResetPassword` | services/auth-services/app/services/auth_service.py:1376-1440 | the password changes before the token is confirmed |
| `OneTimeTokens.AuthService.ConfirmDeletion` | services/auth-services/app/services/auth_service.py:1521-1575 | confirmation, then removal of the credential whatever it answered |
| `OneTimeTokens.AuthService.ConfirmEmailChange` | services/auth-services/app/services/auth_service.py:1659-1705 | profile lookup, then confirmation |
| `OneTimeTokens.AuthService.Serve` | services/auth-services/app/services/auth_service.py:1277-1720 | the two services serve every event of a run exactly as the run says |
| `Blacklist.AudienceNeverMatters` | services/token-services/app/security/jwt.py:79-117 | the two decoding attempts accept exactly signed, unexpired, own access tokens, of any audience |
| `Blacklist.EntryEndsInLastSecond` | services/token-services/app/services/token_service.py:106-112 | a blacklist entry ends in the last second before the token expires |
| `Blacklist.UnrevokedVerifiesIff` | services/token-services/app/services/token_service.py:63-83 | whatever else was revoked, a token never revoked in time verifies if and only if it is signed, own, unexpired, an access token, with id and subject |
| `Blacklist.RevokedUntilLastSecond` | services/token-services/app/services/token_service.py:63-75 | after any number of revocations the token verifies again exactly between its entry end and the decoder cut-off |
| `Blacklist.RevocationTakesHoldIff` | services/token-services/app/services/token_service.py:106-115 | a revocation blocks a valid token at once if and only if it has a second or more to live; otherwise the token verifies until the decoder cut-off |
| `Blacklist.TokenService.Verify` | services/token-services/app/services/token_service.py:51-83 | valid exactly for a decodable token with id and subject that is not listed now; without a revocation in time, for every decodable one |
| `Blacklist.TokenService.Revoke` | services/token-services/app/cache/redis.py:43-56 | lists the id for the whole seconds the token has left |

## Left out

- SessionProtocol: a row lock and the transaction around a login make its revocation and insertion one step; a `revoke_by_id` is one step, since a row never changes its user.
- Sessions: device info, update times and session listing carry no guarantee of their own.
- SlidingWindow: the branch that lets requests through when Redis is unavailable; two requests with the same stamp are one member, so the bound counts distinct stamps.
- RateLimit: the buckets of different addresses are apart only as `RateLimit.IpBucketsApart` says; the address behind a trusted proxy is taken as given.
- ApiKeys: cache errors, the public introspection answer, key scopes, names and webhooks; a key format beyond prefix and length is not examined.
- ApiKeyCache.BoundedStaleness: the two rows are justified at two moments, at most the delay apart, since the code reads them in two selects.
- Cors: the other response headers; blanks are space, tab and line ends.
- BruteForce: the branch that lets logins through when Redis is unavailable.
- Blacklist: the decoder's reading of `exp` is a parameter; a delay between computing the time to live and the SET only lengthens the entry.
- Users: avatar storage, listing, and the address normalisation of the e-mail validator, which is taken as the identity.
- OneTimeTokens: minting is possible for any user at any time, so the checks before it (profile exists, address free) only exclude runs; session revocation after a reset or a deletion is the `RevokeAll` step of the session models; best-effort deletes are taken to succeed.
- Registration rollback: best effort in the code, and no guarantee follows from it.
- HTTP transport, events, e-mail sending, metrics and configuration.
