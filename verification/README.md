# Verification of the coordination, social and account services

A Dafny model of the parts of the repository that keep state in several places at once, with proofs
about whole runs of their operations.

- `RedisModel`, `KeyBuilder`: the Redis server as a map with a clock, and the names of the keys.
- `TagIndex`, `RateLimiter`, `LockProtocol`, `RedisService`: the tag-indexed cache, the fixed-window
  limiter and the lease lock. The first three hold specifications and theorems; the last one holds the
  classes whose methods and loops are proved against them.
- `UserCache`, `CachingService`: one user cached under up to four keys.
- `FollowGraph`, `FollowRuns`, `FollowEffects`, `FollowCounters`, `FollowDrift`, `FollowsService`: edges, counters, cooldowns and
  the cached follow status; every run one request at a time, and every interleaving of the counter updates.
- `Sorting`, `Ranking`: mutual-connection counts and follow suggestions.
- `Csv`: the export and an RFC 4180 reader (section 2, rules 5 to 7, with LF as record separator).
- `Cutting`, `Sanitization`, `NameSanitization`, `ObjectSanitization`: the string and object sanitizers.
- `Pkce`: base64url (section 5 of RFC 4648) and code challenges (sections 4.1 and 4.2 of RFC 7636).
- `Accounts`, `Twofa`, `TwofaEffects`, `TwofaService`, `Login`, `AuthService`: two-factor authentication and two-stage login.
- `Comments`, `CommentsService`: the comment forest and its counters.
- `Storage`, `Uploads`, `UploadService`: file keys, post types and the upload saga.

A module named `...Service` contains classes with the fields of the source's services and stores; each
method's `ensures` ties the new state to a function of the old one that is defined in the module beside
it, and the theorems are about those functions.

Conventions of the model: the clock is a parameter that only moves in explicit steps; Redis commands
succeed; bcrypt, TOTP, SHA-256, encryption, random bytes, upper- and lower-casing are function parameters.
"Exact comparison" means that a bcrypt hash matches one text only. Acting users have colon-free ids
(UUIDs) and the configured key prefix is colon-free.

Where the code keeps less than its comments suggest, the project states when exactly it does:

- Tags are forgotten when lifetimes are mixed: `TagIndex.CacheSetKeepsIndexIff`, `TagIndex.MixedLifetimesLoseEntries`.
- The limiter allows up to 2 * limit - 1 requests in an interval of one window length: `RateLimiter.SlidingBoundIsTight`.
- The lock excludes by lease, not by completion: `LockProtocol.OverlapsIffLeaseOver`.
- Follow counters drift when connected users are deleted, or a pair is unfollowed twice at once:
  `FollowDrift.CounterStaysExactIff`, `FollowCounters.ExactIffOneUnfollowAtATime`.
- commentsCount ignores replies removed by cascade: `Comments.CountIsExactIff`.
- An export with a quote outside a bio is not read back: `Csv.ExportReadsBackIff`.
- Arrays inside arrays change shape when sanitized: `ObjectSanitization.ShapeIsKeptIff`.
- The last backup code cannot buy new ones: `Twofa.RenewWithCodeNeedsAnother`.
- A ban between the two login stages is not noticed: `Login.BannedUserEntersIff`.
- A rollback deletes an older object that an upload of the same name replaced: `Uploads.RollbackRestoresIff`.

`dafny verify dfyconfig.toml` checks everything.

## Model

| member | source | states |
|---|---|---|
| `KeyBuilder.BuildOne` | libs/redis/src/utils/key-builder.util.ts:14-17 | joining a namespace, one part and missing parts gives prefix, namespace and part separated by single colons: missing parts leave no trace |
| `KeyBuilder.BuildTwo` | libs/redis/src/utils/key-builder.util.ts:14-17 | the same for two parts |
| `KeyBuilder.BuildThree` | libs/redis/src/utils/key-builder.util.ts:14-17 | the same for three parts |
| `KeyBuilder.UserCacheKeyIsBuilt` | libs/caching/src/caching.service.ts:468-473 | so the short form of user cache keys used here is what `build` makes of its three parts |
| `KeyBuilder.ShortKeysAreBuilt` | libs/redis/src/utils/key-builder.util.ts:43-66 | the keys of tags, tag lists, locks and counters are what `build` makes of their parts |
| `KeyBuilder.NamespacesApart` | libs/redis/src/utils/key-builder.util.ts:43-66 | tag keys and tag-list keys are injective in their last part, never equal to each other, and never equal to a data key |
| `KeyBuilder.BuiltKeysAreDataKeys` | libs/redis/src/utils/key-builder.util.ts:43-59 | lock, rate-limit and cached-user keys lie outside the two namespaces of the tag index |
| `KeyBuilder.ForeignKeyIsDataKey` | libs/redis/src/utils/key-builder.util.ts:14-17 | so does every key whose second segment is neither `tag` nor `cache`, whatever its other parts hold |
| `RedisService.Redis.GetParsed` | libs/redis/src/redis.service.ts:196-224 | the value of a live entry; nothing for a missing or expired one and for a stored JSON null |
| `RedisService.Redis.CacheSet` | libs/redis/src/redis.service.ts:971-993 | the loop over the tags has the effect of the specification on which the index theorems rest |
| `RedisService.Redis.InvalidateByTags` | libs/redis/src/redis.service.ts:999-1021 | the two nested loops have the effect of the specification, and `deleted` is the sum of the DEL replies |
| `RedisService.Redis.GetOrSet` | libs/redis/src/redis.service.ts:1042-1058 | a live entry other than null is returned and nothing changes; otherwise the fetched value, possibly null, is returned and cached under its tags |
| `RedisService.Redis.CheckRateLimit` | libs/redis/src/redis.service.ts:906-948 | one call is one step of the counter; verdict, remaining and reset time come from it |
| `RedisService.Redis.AcquireLock` | libs/redis/src/redis.service.ts:826-845 | the retry loop does what its specification says under any interference; a free key is taken at the first attempt with a full lease; attempts are at most ceil(timeout / delay), and a returned identifier is the one stored |
| `RedisService.Redis.ReleaseLock` | libs/redis/src/redis.service.ts:852-869 | succeeds exactly when the stored identifier is the given one, and otherwise changes nothing |
| `RedisService.Throttle.CheckRateLimit` | libs/throttle/src/throttle.service.ts:19-37 | the reported figures belong to this very step, and `current` is min(count, limit) |
| `RedisService.Throttle.ResetRateLimit` | libs/throttle/src/throttle.service.ts:59-62 | removes the counter; the limiter is then in the state without a window |
| `TagIndex.CacheSetEffect` | libs/redis/src/redis.service.ts:971-993 | the effect of `cacheSet` key by key: the entry, each of its tag sets with their new expiry, and every other data key and tag set unchanged |
| `TagIndex.CacheSetRecordsTags` | libs/redis/src/redis.service.ts:980-982 | the list of tags is stored beside the entry with the same lifetime |
| `TagIndex.CacheSetKeepsIndexIff` | libs/redis/src/redis.service.ts:971-993 | `cacheSet` keeps every live entry listed under each of its tags for at least its own lifetime if and only if the new lifetime does not undercut the entries that share a tag |
| `TagIndex.InvalidateIsExact` | libs/redis/src/redis.service.ts:999-1021 | an entry survives exactly when it was live and listed under none of the tags; survivors keep value and lifetime |
| `TagIndex.InvalidateDropsTagLists` | libs/redis/src/redis.service.ts:1008-1013 | the stored tag list of every listed entry goes with it |
| `TagIndex.InvalidateKeepsIndex` | libs/redis/src/redis.service.ts:999-1021 | invalidation keeps the index complete and sound |
| `TagIndex.DeletedCountsRemovedEntries` | libs/redis/src/redis.service.ts:999-1021 | the returned number is the number of live entries removed, each counted once however many of the tags it carried |
| `TagIndex.StepKeeps` | libs/redis/src/redis.service.ts:971-1021 | every single operation with one positive lifetime keeps the index complete and sound |
| `TagIndex.InvalidationAfterAnyRun` | libs/redis/src/redis.service.ts:971-1021 | over all runs with one positive lifetime: after invalidating some tags no live entry last cached under one of them remains, and entries never put under them are untouched |
| `TagIndex.MixedLifetimesLoseEntries` | libs/redis/src/redis.service.ts:971-993 | with two lifetimes the promise fails: an entry outlives its tag set and survives the invalidation |
| `RateLimiter.HitRefinesWindow` | libs/redis/src/redis.service.ts:916-931 | one run of the script on the store is one step of the abstract fixed-window counter |
| `RateLimiter.WindowAllowsExactlyLimit` | libs/redis/src/redis.service.ts:906-948 | a window that receives n requests allows exactly min(n, limit) of them |
| `RateLimiter.SlidingIntervalIsBounded` | libs/redis/src/redis.service.ts:906-948 | over every timestamped run, any half-open interval of one window length contains at most 2 * limit - 1 allowed requests (none for a limit of 0) |
| `RateLimiter.SlidingBoundIsTight` | libs/redis/src/redis.service.ts:906-948 | a run that reaches this bound |
| `RateLimiter.ReportedCurrent` | libs/throttle/src/throttle.service.ts:31-37 | every reported field in terms of the requests the window received: allowed, remaining, current = min(count, limit), limit, and the end of the window as reset time |
| `LockProtocol.AcquireOutcome` | libs/redis/src/redis.service.ts:826-845 | against any sequence of rival commands the loop ends after at most ceil(timeout / delay) attempts, gives up only when the time is over, and on success leaves a full lease with its own identifier |
| `LockProtocol.AcquireAtFirstFree` | libs/redis/src/redis.service.ts:831-842 | the loop sends one attempt at each instant that the waits make due, takes the lock at the first of them at which the key is free, with that many attempts and the store written, and gives up at the first one after the timeout |
| `LockProtocol.GivesUpIff` | libs/redis/src/redis.service.ts:831-844 | it returns null if and only if the key was in use at every instant before the timeout at which an attempt was due |
| `LockProtocol.StepIsSafe` | libs/redis/src/redis.service.ts:826-893 | every step of N clients keeps the protocol invariant |
| `LockProtocol.MutualExclusion` | libs/redis/src/redis.service.ts:826-893 | in every reachable state at most one client holds an unexpired lease, and the stored lock is its own |
| `LockProtocol.StaleReleaseIsHarmless` | libs/redis/src/redis.service.ts:852-869 | a release by a client whose lease has expired never removes the lock of another client |
| `LockProtocol.RunLeavesNoOrphan` | libs/redis/src/redis.service.ts:826-893 | in every reachable state a stored lock is some client's running lease: no orphaned lock blocks the protocol |
| `LockProtocol.EntersIffNoLease` | libs/redis/src/redis.service.ts:831-836 | in every reachable state an attempt succeeds if and only if no lease is running |
| `LockProtocol.OverlapsIffLeaseOver` | libs/redis/src/redis.service.ts:877-893 | a client joins another one that is still inside if and only if everybody inside has overstayed the lease |
| `LockProtocol.SlowClientOverlaps` | libs/redis/src/redis.service.ts:877-893 | a run that reaches such an overlap |
| `CachingService.Caching.CacheUser` | libs/caching/src/caching.service.ts:28-67 | the four conditional writes, with the default lifetime and tags when none are given |
| `CachingService.Caching.GetOrSetUser` | libs/caching/src/caching.service.ts:164-194 | for any lifetime and tags: the cached user if there is one; otherwise the fetched user, cached under all its keys and the looked-up one; null is remembered for a user that is not found; a fetch that throws changes nothing |
| `CachingService.Caching.InvalidateUser` | libs/caching/src/caching.service.ts:208-211 | drops the tags `user` and `user:<id>` |
| `UserCache.CachedUserIsFound` | libs/caching/src/caching.service.ts:28-56 | for the whole lifetime, and no longer, a cached user is found under the id, and under username, e-mail and websocket id where present |
| `UserCache.FetchedUserIsReturned` | libs/caching/src/caching.service.ts:164-189 | a look-up without a cached user returns the fetched one, and every later look-up within the lifetime returns it again, also by id |
| `UserCache.MissingUserIsNotFound` | libs/caching/src/caching.service.ts:174-189 | a user that is not found answers null and is looked for again; a fetch that throws leaves the store alone |
| `UserCache.CachedUserIsReturned` | libs/caching/src/caching.service.ts:174-189 | a cached user is returned without asking the database |
| `UserCache.AuthorIsKnownIff` | src/rest/api/users/services/posts/posts.service.ts:471-490 | an acting user is known if cached or else if the database has the row |
| `UserCache.InvalidationEmptiesTags` | libs/caching/src/caching.service.ts:208-211 | nothing stays listed under `user` and `user:<id>` |
| `UserCache.NoAliasSurvives` | libs/caching/src/caching.service.ts:28-67 | after any run of caching, lookups and invalidations whose callers name `user` among their tags, `invalidateUser` leaves no live alias key of the user, nor of any other user |
| `UserCache.AliasWithoutTagSurvives` | libs/caching/src/caching.service.ts:28-67 | an alias cached under another tag only does survive |
| `FollowGraph.StatusKeysApart` | src/rest/api/users/services/follows/follows.service.ts:234-236 | status and cooldown keys are injective in the pair |
| `FollowsService.Follows.FollowUser` | src/rest/api/users/services/follows/follows.service.ts:46-153 | the checks in their order, the edge, both counters and the cache invalidation |
| `FollowsService.Follows.UnfollowUser` | src/rest/api/users/services/follows/follows.service.ts:158-227 | the error for a missing edge; otherwise edge, counters, cooldown and invalidation |
| `FollowsService.Follows.IsFollowing` | src/rest/api/users/services/follows/follows.service.ts:232-274 | cache-aside answer, and what is then remembered |
| `FollowsService.Follows.BatchFollowStatus` | src/rest/api/users/services/follows/follows.service.ts:279-358 | the two loops over the first 100 ids answer each id from the cache or the table and cache what was missing |
| `FollowsService.Follows.DeleteUser` | src/rest/api/users/users.service.ts:873-889 | removes the user with all edges and invalidates the cache |
| `FollowEffects.FollowIsRefusedIff` | src/rest/api/users/services/follows/follows.service.ts:49-88 | when a follow is refused and with which error: same user, existing edge, missing follower, missing user, running cooldown with its minutes; otherwise never |
| `FollowEffects.FollowTakesEffect` | src/rest/api/users/services/follows/follows.service.ts:91-116 | in every good state a follow that is not refused adds this edge and no other, counts one on each side and on no other row, and empties the tags of the pair, the cached answer and the suggestions |
| `FollowEffects.RefusedFollowChangesNothing` | src/rest/api/users/services/follows/follows.service.ts:49-88 | a refused follow changes nothing |
| `FollowEffects.UnfollowTakesEffect` | src/rest/api/users/services/follows/follows.service.ts:160-189 | an unfollow removes this edge and no other, takes one off on each side and on no other row, empties the tags and the cached answer, and starts a cooldown of 300 seconds |
| `FollowEffects.UnfollowWithoutEdgeChangesNothing` | src/rest/api/users/services/follows/follows.service.ts:160-166 | without the edge nothing changes |
| `FollowEffects.RefollowIffCooledDown` | src/rest/api/users/services/follows/follows.service.ts:76-88 | after an unfollow the pair may be followed again if and only if 300 seconds have passed; before that the error names the remaining minutes |
| `FollowEffects.ClearedCooldownAllowsFollow` | src/rest/api/users/services/follows/follows.service.ts:1049-1053 | clearing the cooldown allows the follow at once |
| `FollowEffects.DeletionTakesEffect` | src/rest/api/users/users.service.ts:873-889 | a deletion removes the user and exactly the user's edges, and empties the two tags |
| `FollowEffects.OtherOperationsKeepTables` | src/rest/api/users/services/follows/follows.service.ts:232-358 | no other operation touches users or edges |
| `FollowEffects.AnswerIsRemembered` | src/rest/api/users/services/follows/follows.service.ts:244-258 | an answer read from the table is cached for 300 seconds under the three tags of the pair |
| `FollowEffects.SuggestionsAreRemembered` | src/rest/api/users/services/follows/follows.service.ts:898-902 | suggestions are cached for 300 seconds under the two tags that a follow or unfollow of the user empties |
| `FollowEffects.BatchRemembersAnswers` | src/rest/api/users/services/follows/follows.service.ts:283-340 | a batch answers the first 100 ids, leaves each of them cached and changes no other pair's entry |
| `FollowRuns.StepIsGood` | src/rest/api/users/services/follows/follows.service.ts:46-358 | every operation keeps cached answers in agreement with the edges, the tag index complete and edges between existing users |
| `FollowRuns.ForeignStep` | src/rest/api/users/services/follows/follows.service.ts:898-902 | caching users or suggestions under the shared tags of users keeps all this, and the cooldowns |
| `FollowRuns.StatusAgreesWithTable` | src/rest/api/users/services/follows/follows.service.ts:232-340 | in every reachable state `isFollowing` and each entry of `batchFollowStatus` equal the presence of the edge, with user deletion, clock ticks, cached users and cached suggestions in the same store interleaved |
| `FollowRuns.FollowsAreSpaced` | src/rest/api/users/services/follows/follows.service.ts:70-88 | without `clearCooldown`, two successful follows of one pair are at least 300 seconds apart over every run, including deletions of users |
| `FollowCounters.CountersAreConserved` | src/rest/api/users/services/follows/follows.service.ts:53-102 | under every interleaving of the statements of concurrent requests: edges = counter + due increments - due decrements + deletions that missed their row |
| `FollowCounters.FollowAlone` | src/rest/api/users/services/follows/follows.service.ts:90-102 | a follow that nothing interrupts adds its row and one to each of its counters, in either order of the updates |
| `FollowCounters.UnfollowAlone` | src/rest/api/users/services/follows/follows.service.ts:168-178 | an unfollow that nothing interrupts removes its row and takes one from each of its counters |
| `FollowCounters.ExactIffOneUnfollowAtATime` | src/rest/api/users/services/follows/follows.service.ts:160-178 | whenever all requests have finished, all counters are exact if and only if no request started to unfollow a pair while another one was still about to delete it |
| `FollowCounters.RunMissesNothing` | src/rest/api/users/services/follows/follows.service.ts:160-178 | with at most one unfollow in flight per pair no deletion misses |
| `FollowCounters.TotalsAgreeAtRest` | src/rest/api/users/services/follows/assets/entities/follow.entity.ts:6 | then, at rest, both columns sum to the number of edges, which are unique per pair |
| `FollowCounters.TwoUnfollowsMiss` | src/rest/api/users/services/follows/follows.service.ts:160-178 | two concurrent unfollows of one pair do miss |
| `FollowDrift.DriftIsLostEdges` | src/rest/api/users/users.service.ts:873-889 | over every sequential run a counter exceeds its edges by exactly the edges that deletions of other users took along |
| `FollowDrift.CounterStaysExactIff` | src/rest/api/users/users.service.ts:873-889 | an exact counter stays exact if and only if no user connected on that side is deleted |
| `Ranking.CountConnections` | src/rest/api/users/services/follows/follows.service.ts:490-495 | the Map holds for each id its number of occurrences, and its insertion order is that of first occurrence |
| `Ranking.MutualCounts` | src/rest/api/users/services/follows/follows.service.ts:466-504 | for every listed user the count is the size of following(current) ∩ followers(user), for any edge set and any row order |
| `Ranking.QueryCounts` | src/rest/api/users/services/follows/follows.service.ts:478-495 | the number of rows of a target is the number of its followers inside the scope |
| `Ranking.Rank` | src/rest/api/users/services/follows/follows.service.ts:850-866 | the two loops, filter, sort and cut compute the ranking that the next lemma speaks about |
| `Ranking.RankingIsBest` | src/rest/api/users/services/follows/follows.service.ts:837-866 | the ranked list has no duplicates, holds only candidates (never the user or someone already followed), is non-increasing in mutual count, is full unless candidates run out, and leaves out no candidate with a higher count |
| `Ranking.ResortRestoresRanking` | src/rest/api/users/services/follows/follows.service.ts:889-894 | sorting the fetched users by index restores exactly this order for any fetch order |
| `Sorting.SortIsStable` | src/rest/api/users/services/follows/follows.service.ts:862-866 | candidates with equal counts keep their order of first occurrence |
| `Sorting.SortByIndexRestores` | src/rest/api/users/services/follows/follows.service.ts:889-894 | sorting a permutation of a duplicate-free list by index gives the list |
| `Csv.EscapedCellReadsBack` | src/rest/api/users/services/follows/follows.service.ts:1126-1132 | an RFC 4180 reader recovers a quoted cell with doubled quotes, whatever it holds |
| `Csv.FileReadsBackIff` | src/rest/api/users/services/follows/follows.service.ts:1130-1135 | a printed table reads back as the meant table if and only if every cell was printed with its quotes doubled |
| `Csv.ExportReadsBackIff` | src/rest/api/users/services/follows/follows.service.ts:1111-1135 | the export reads back as the table if and only if no cell other than a bio contains a quote |
| `Csv.ColumnsAreLabelled` | src/rest/api/users/services/follows/follows.service.ts:1111-1128 | what is read back has one line per person, with each value under the header that names it |
| `NameSanitization.SanitizedNamesReadBack` | src/rest/api/users/services/follows/follows.service.ts:1183-1207 | exports whose names come from the sanitizers read back for every bio |
| `Sanitization.StripTagsIsTagless` | src/utils/sanitization.util.ts:15 | after tag stripping no `<` has a later `>` |
| `Sanitization.StripTagsFixpoint` | src/utils/sanitization.util.ts:15 | exactly the texts without a tag are left alone; stripping is idempotent |
| `Sanitization.StripTagsKeepsRest` | src/utils/sanitization.util.ts:15 | the text is a sequence of kept pieces and dropped tags, no tag starts inside a kept piece, and the result is the kept pieces in order |
| `Sanitization.PassesAreOneMap` | src/utils/sanitization.util.ts:18-24 | escape passes with the ampersand first equal one character-wise map |
| `Sanitization.AmpersandMustComeFirst` | src/utils/sanitization.util.ts:18-24 | the passes equal the character-wise map on every text if and only if no pass but the first is the ampersand's |
| `Sanitization.DecodeUndoesEscape` | src/utils/sanitization.util.ts:18-24 | a one-pass entity decoder recovers the text that was escaped |
| `Sanitization.EntityTexts` | src/utils/sanitization.util.ts:18-24 | the six replacement texts |
| `Sanitization.NoTokenInEntity` | src/utils/sanitization.util.ts:27-30 | no removable token starts inside an entity |
| `Sanitization.TokenLengthIff` | src/utils/sanitization.util.ts:27-30 | what is matched: one of the literals in any case, or "on", word characters, spaces and "="; a text starts with at most one match |
| `Sanitization.SpaceCharacters` | src/utils/sanitization.util.ts:28 | what counts as white space |
| `Sanitization.WordCharacters` | src/utils/sanitization.util.ts:28 | what counts as a word character |
| `Sanitization.CaseIsIgnored` | src/utils/sanitization.util.ts:28 | which letters match in either case |
| `Sanitization.RemovesNothingIff` | src/utils/sanitization.util.ts:27-30 | a text is left alone if and only if no token starts in it |
| `Sanitization.RemovesFirstToken` | src/utils/sanitization.util.ts:27-30 | otherwise the text before the first token stays, the token goes, and the rest is treated likewise |
| `Sanitization.RemoveTokensKeepsRest` | src/utils/sanitization.util.ts:27-30 | the text is a sequence of kept pieces and dropped tokens, leftmost first, and the result is the kept pieces in order |
| `Sanitization.RemoveTokensKeepsEscaping` | src/utils/sanitization.util.ts:27-30 | token removal leaves entities whole |
| `Sanitization.SanitizedIsWellEscaped` | src/utils/sanitization.util.ts:9-36 | the output is made of entities and characters outside & < > " ' / only, and has no space at either end |
| `Sanitization.TrimParts` | src/utils/sanitization.util.ts:33 | trimming takes spaces from both ends and nothing else |
| `Sanitization.SanitizedPieces` | src/utils/sanitization.util.ts:9-36 | end to end: the output is, trimmed, what remains of the escaped, tag-free input without its leftmost tokens |
| `Sanitization.SanitizedDecodes` | src/utils/sanitization.util.ts:9-36 | when no token occurs, decoding the output gives the input without tags, trimmed |
| `Sanitization.WellEscapedCharacters` | src/utils/sanitization.util.ts:9-36 | in such text no special character stands alone, and each ampersand begins an entity |
| `NameSanitization.UsernameIsClean` | src/utils/sanitization.util.ts:78-90 | letters, digits, _ and - only; left alone exactly when already so; idempotent; free of quotes |
| `NameSanitization.UsernameIsFiltered` | src/utils/sanitization.util.ts:84 | the output is the allowed characters of the input, all of them and in order |
| `NameSanitization.DisplayNameIsClean` | src/utils/sanitization.util.ts:95-124 | none of the removed characters, no quote or apostrophe, ampersands only at entities, single inner spaces and none at the ends |
| `NameSanitization.DisplayNamePieces` | src/utils/sanitization.util.ts:95-124 | end to end: the output is, trimmed and collapsed, what remains of the filtered and escaped input without its leftmost tokens |
| `NameSanitization.CollapseIsWordwise` | src/utils/sanitization.util.ts:121 | words stay as they are and in order, and each run of spaces becomes one |
| `NameSanitization.CollapseNormalises` | src/utils/sanitization.util.ts:121 | what whitespace normalisation leaves |
| `ObjectSanitization.Sanitize` | src/utils/sanitization.util.ts:150-187 | the recursive loop over the fields computes the specified value, and throws exactly when an object it reaches has a field named `hasOwnProperty` |
| `ObjectSanitization.SanitizedIsClean` | src/utils/sanitization.util.ts:150-187 | every string inside an object or array is sanitized at any depth; only a bare string argument is handed back unchanged |
| `ObjectSanitization.SanitizesStringsOnlyIff` | src/utils/sanitization.util.ts:159-184 | each string is replaced by its sanitized form, each customised field by what its sanitizer returns, and nothing else changes, if and only if no array lies directly inside an array |
| `ObjectSanitization.NestedArrayBecomesObject` | src/utils/sanitization.util.ts:156-184 | such an array becomes an object whose keys are the decimal positions of its elements |
| `ObjectSanitization.ShapeIsKeptIff` | src/utils/sanitization.util.ts:159-184 | structure, keys and other values are kept if and only if no array lies directly inside an array (it would come back as an object with numbered keys) and custom sanitizers keep the shape of what they are given |
| `Pkce.EncodingIsUrlSafe` | src/security/auth/services/pkce.service.ts:62-68 | the three replacements turn padded base64 into the URL-safe alphabet without padding |
| `Pkce.DecodeInvertsEncode` | src/security/auth/services/pkce.service.ts:62-68 | decoding inverts encoding for every byte string, and a text decodes to b only if it is the encoding of b |
| `Pkce.EncodingLength` | src/security/auth/services/pkce.service.ts:62-68 | n bytes give ceil(4n/3) URL-safe characters |
| `Pkce.VerifierIsWellFormed` | src/security/auth/services/pkce.service.ts:11-19 | a verifier is returned exactly for lengths 43 to 128, with that many unreserved characters |
| `Pkce.ChallengeDecodesToHash` | src/security/auth/services/pkce.service.ts:51-54 | a challenge accepts a verifier if and only if it decodes to the verifier's hash |
| `Pkce.ChallengeAcceptsIffHashesAgree` | src/security/auth/services/pkce.service.ts:26-54 | so two verifiers share a challenge exactly when their hashes agree |
| `TwofaService.TwoFactor.CheckRateLimit` | src/rest/api/users/security/twofa/twofa.service.ts:179-188 | refuses exactly at five recorded attempts |
| `TwofaService.TwoFactor.IncrementRateLimit` | src/rest/api/users/security/twofa/twofa.service.ts:193-197 | one more attempt, kept for 900 seconds from now |
| `TwofaService.TwoFactor.GenerateBackupCodes` | src/rest/api/users/security/twofa/twofa.service.ts:118-125 | ten codes in upper-case hexadecimal |
| `TwofaService.TwoFactor.VerifyBackupCode` | src/rest/api/users/security/twofa/twofa.service.ts:139-149 | true exactly when some stored hash matches |
| `TwofaService.TwoFactor.RemoveBackupCode` | src/rest/api/users/security/twofa/twofa.service.ts:154-170 | the loop with the `found` flag removes the first match and keeps the order of the rest |
| `TwofaService.TwoFactor.SetupTwoFactor` | src/rest/api/users/security/twofa/twofa.service.ts:214-287 | error branches in order; on success only the temporary secret changes |
| `TwofaService.TwoFactor.EnableTwoFactor` | src/rest/api/users/security/twofa/twofa.service.ts:302-383 | error branches in order, counted failure, new record, cleared counter and the returned codes |
| `TwofaService.TwoFactor.VerifyTwoFactor` | src/rest/api/users/security/twofa/twofa.service.ts:411-509 | every branch: refused, counted failure or accepted, with the resulting record and counter |
| `TwofaService.TwoFactor.DisableTwoFactor` | src/rest/api/users/security/twofa/twofa.service.ts:540-592 | error branches in order; the record is cleared and the counter reset |
| `TwofaService.TwoFactor.GetBackupCodes` | src/rest/api/users/security/twofa/twofa.service.ts:620-667 | verification first, then new codes if any are left |
| `Twofa.RemoveFirstTakesOne` | src/rest/api/users/security/twofa/twofa.service.ts:154-170 | exactly one hash, the first that matches, is taken out and the others stay in order |
| `Twofa.StepHolds` | src/rest/api/users/security/twofa/twofa.service.ts:179-205 | without a reset every operation keeps the recorded failures until their horizon and adds the new one |
| `TwofaEffects.CountTakesEffect` | src/rest/api/users/security/twofa/twofa.service.ts:193-197 | a counted failure adds one for this user only and is forgotten after 900 seconds |
| `TwofaEffects.LockoutEnds` | src/rest/api/users/security/twofa/twofa.service.ts:179-197 | the lockout ends 900 seconds after the last counted failure, and not before |
| `Twofa.AtMostFiveFailures` | src/rest/api/users/security/twofa/twofa.service.ts:179-205 | after any history, in any half-open interval of 900 seconds without a reset at most five verification failures are counted |
| `Twofa.FifthFailureLocksOut` | src/rest/api/users/security/twofa/twofa.service.ts:411-509 | after the failure that reaches the limit, every attempt of the next 900 seconds is refused without any change, unless the counter is reset |
| `TwofaEffects.JudgeIff` | src/rest/api/users/security/twofa/twofa.service.ts:415-490 | when a code is accepted, counted as a failure or refused, and with which error |
| `TwofaEffects.VerifyTakesEffect` | src/rest/api/users/security/twofa/twofa.service.ts:451-509 | what each outcome leaves in record and counter: an acceptance notes the time, changes no other field but the codes, and clears the counter |
| `TwofaEffects.VerifySparesOthers` | src/rest/api/users/security/twofa/twofa.service.ts:179-205 | an attempt touches no other user's record or counter |
| `TwofaEffects.SetupTakesEffect` | src/rest/api/users/security/twofa/twofa.service.ts:220-267 | when setup succeeds and with which error it fails; only the temporary secret changes |
| `TwofaEffects.EnableTakesEffect` | src/rest/api/users/security/twofa/twofa.service.ts:307-359 | when enabling succeeds; the whole new record, the cleared counter, and the counted failure of a wrong code |
| `TwofaEffects.DisableTakesEffect` | src/rest/api/users/security/twofa/twofa.service.ts:545-577 | when disabling succeeds, with the right password only; every two-factor field is cleared and no other changes |
| `TwofaEffects.DisabledAcceptsNothing` | src/rest/api/users/security/twofa/twofa.service.ts:425-427 | after that no code is accepted |
| `TwofaEffects.RenewTakesEffect` | src/rest/api/users/security/twofa/twofa.service.ts:624-648 | renewal replaces the codes of a verified user and notes the time, nothing else |
| `Twofa.BackupCodesAreConserved` | src/rest/api/users/security/twofa/twofa.service.ts:434-469 | between regenerations, accepted plus remaining codes are the generated ones as multisets, and each acceptance shrinks the list by one |
| `Twofa.CodesAreSingleUse` | src/rest/api/users/security/twofa/twofa.service.ts:434-469 | a code is accepted at most as often as it was generated |
| `TwofaEffects.HexRoundTrip` | src/rest/api/users/security/twofa/twofa.service.ts:118-125 | a code is the hexadecimal text of its bytes: an independent reader recovers them |
| `TwofaEffects.NewCodesAreHex` | src/rest/api/users/security/twofa/twofa.service.ts:118-125 | ten codes of eight characters, one per four random bytes |
| `Twofa.BackupCodeAcceptedIff` | src/rest/api/users/security/twofa/twofa.service.ts:434-452 | a code of eight characters is accepted if and only if it is among the remaining ones |
| `Twofa.NewCodesAreAccepted` | src/rest/api/users/security/twofa/twofa.service.ts:338-351 | right after enabling each of the ten codes is accepted |
| `Twofa.EnabledSecretIsUsed` | src/rest/api/users/security/twofa/twofa.service.ts:326-351 | after enabling, a TOTP code is accepted if and only if it is valid for the secret that was set up |
| `Twofa.RenewWithCodeNeedsAnother` | src/rest/api/users/security/twofa/twofa.service.ts:624-648 | renewal paid with a backup code yields new codes if and only if another code was left; otherwise the last code is spent for nothing |
| `AuthService.Auth.LogIn` | src/security/auth/auth.service.ts:241-384 | all branches of the first stage and their effect on the session |
| `AuthService.Auth.VerifyLogin2fa` | src/security/auth/auth.service.ts:389-503 | all branches of the second stage, including which of them drop the pending login |
| `Login.PendingHasOrigin` | src/security/auth/auth.service.ts:285-296 | every pending login stems from a password check in the same session with 2FA on, at its creation time |
| `Login.EntryIsAuthorised` | src/security/auth/auth.service.ts:241-503 | every step that sets the user of a session is authorised by such a check |
| `Login.LoginIsSafe` | src/security/auth/auth.service.ts:241-503 | whenever a session has user u, its password was checked for u in that session while verified, not banned and not timed out; with 2FA on, a code for u was accepted at most five minutes later; the session was not destroyed in between, and accounts may change in any way at any time |
| `Login.FirstStageAnswers` | src/security/auth/auth.service.ts:241-384 | the first stage: exactly when it logs in, asks for a code, or refuses with which error, and what it leaves in the session |
| `Login.MayLogInIff` | src/security/auth/auth.service.ts:257-283 | who may log in, flag by flag |
| `Login.SecondStageAnswers` | src/security/auth/auth.service.ts:389-503 | the second stage: exactly when it succeeds or fails with which error, and which failures drop the pending login |
| `Login.CodeInTimeEntersIff` | src/security/auth/auth.service.ts:401-470 | completeness over runs: after a first stage that asked for a code and any operations elsewhere, a code logs the user in if and only if at most 300000 ms have passed, the e-mail still names the user and the code is accepted then |
| `Login.CodeInTimeEntersUnchanged` | src/security/auth/auth.service.ts:401-470 | with unchanged accounts only the time and the code decide |
| `Login.LogoutEndsSession` | src/security/auth/auth.service.ts:505-534 | logging out ends this session and no other |
| `Login.SecondStageIgnoresModeration` | src/security/auth/auth.service.ts:405-470 | a ban, time-out or lost verification between the stages does not change the answer of the second one, for any user, session and code |
| `Login.FirstStageRespectsModeration` | src/security/auth/auth.service.ts:257-283 | an entry by the first stage always finds the user verified, not banned and not timed out at that moment |
| `Login.BannedUserEntersIff` | src/security/auth/auth.service.ts:389-503 | an entry by the second stage need not: after a correct password and a ban, the code logs the banned user in if and only if it would have been accepted without the ban |
| `CommentsService.Posts.CreateComment` | src/rest/api/users/services/posts/posts.service.ts:454-557 | all error branches: the author lookup may fill the user cache, nothing else changes; on success the new row, both counters and the invalidated tags |
| `CommentsService.Posts.AddComment` | src/rest/api/users/services/posts/posts.service.ts:494-548 | the transaction changes parent, row and post together or nothing |
| `CommentsService.Posts.DeleteComment` | src/rest/api/users/services/posts/posts.service.ts:1688-1725 | error branches; the cascade, both decrements and the invalidated tags |
| `CommentsService.ChangeEmptiesTags` | src/rest/api/users/services/posts/posts.service.ts:551-556 | nothing stays cached under the four tags of a changed comment |
| `Comments.ThreadIsClosed` | src/rest/api/users/services/posts/assets/entities/comment.entity.ts:55-60 | what the cascade removes: the comment and exactly the replies whose parent is removed |
| `Comments.ChildrenAfterCut` | src/rest/api/users/services/posts/assets/entities/comment.entity.ts:55-60 | the cascade takes one child from the parent and none from other remaining comments |
| `Comments.StepKeepsForest` | src/rest/api/users/services/posts/posts.service.ts:495-548 | every operation keeps the forest invariant |
| `Comments.RunKeepsForest` | src/rest/api/users/services/posts/posts.service.ts:495-548 | over all runs parents exist, are older and in the same post, and repliesCount is the number of direct children |
| `Comments.CreateSucceedsIff` | src/rest/api/users/services/posts/posts.service.ts:459-519 | when a comment is accepted, and the errors |
| `Comments.CreateTakesEffect` | src/rest/api/users/services/posts/posts.service.ts:495-546 | a new comment has the given post, author and parent; the parent gains this child and one reply, the post one comment, and nothing else changes |
| `Comments.DeleteSucceedsIff` | src/rest/api/users/services/posts/posts.service.ts:1690-1701 | only the author of an existing comment may delete it |
| `Comments.DeleteTakesEffect` | src/rest/api/users/services/posts/posts.service.ts:1703-1717 | the comment and every reply with a chain of parents up to it are removed; every other comment stays, unchanged but for the reply count of the parent; the post counts one less |
| `Comments.LeafGoesAlone` | src/rest/api/users/services/posts/posts.service.ts:1703-1717 | a comment without replies is removed alone |
| `Comments.PostOperationsTakeEffect` | src/rest/api/users/services/posts/assets/entities/comment.entity.ts:43-45 | a new post counts no comments, and removing a post takes exactly its comments along |
| `Comments.LinksAreAcyclic` | src/rest/api/users/services/posts/assets/entities/comment.entity.ts:55-63 | no chain of replies returns to its start |
| `Comments.CommentsCountOverRun` | src/rest/api/users/services/posts/posts.service.ts:1703-1717 | commentsCount equals the live comments plus the replies removed by cascade so far |
| `Comments.CountIsExactIff` | src/rest/api/users/services/posts/posts.service.ts:1703-1717 | an exact commentsCount stays exact if and only if every deleted comment had repliesCount 0 |
| `UploadService.Bucket.UploadFile` | src/rest/storage/storage.service.ts:69-188 | validation errors and connection failures without effect; otherwise the object under the generated key |
| `UploadService.Bucket.DeleteFile` | src/rest/storage/storage.service.ts:195-243 | the ownership check comes first; a refused or failing delete changes nothing |
| `Storage.OwnsOwnKeysOnly` | src/rest/storage/storage.service.ts:195-202 | a user passes the ownership check for a generated key if and only if the key was generated for that user |
| `Storage.OwnsIff` | src/rest/storage/storage.service.ts:198-202 | a user owns exactly the keys under the user's own directory |
| `Storage.KindsApart` | src/rest/storage/storage.service.ts:288-313 | media and document keys of one user never meet |
| `Storage.PostFileKeys` | src/rest/storage/storage.service.ts:288-313 | where post media and documents are stored |
| `Storage.OtherFileKeys` | src/rest/storage/storage.service.ts:288-313 | where the other kinds are stored |
| `Storage.StoredNameIs` | src/rest/storage/storage.service.ts:295-312 | at most 100 characters of the base name, every character outside the allowed ones replaced by an underscore, then the extension |
| `Storage.SameKeyIffSameName` | src/rest/storage/storage.service.ts:288-313 | two uploads of one kind share a key exactly when they share the stored name |
| `Storage.AttachableIff` | src/rest/storage/assets/enum/storage-type.enum.ts:41-75 | sizes and types that may be attached to a post |
| `Storage.ProfileAcceptableIff` | src/rest/storage/assets/enum/storage-type.enum.ts:27-40 | size, types and sub-types of profile pictures |
| `Storage.OthersAcceptableIff` | src/rest/storage/assets/enum/storage-type.enum.ts:76-94 | size and types of temporary files and backups |
| `Storage.KindByExtension` | src/rest/api/users/services/posts/posts.service.ts:120-135 | which extensions make an image, a video or a document |
| `Storage.IncludesIff` | src/rest/api/users/services/posts/posts.service.ts:128-134 | an extension counts wherever it occurs in the URL |
| `Storage.DeterminePostType` | src/rest/api/users/services/posts/posts.service.ts:111-145 | mixed exactly when two kinds of files occur, otherwise the one kind that does, or text |
| `Storage.TypeIsUnique` | src/rest/api/users/services/posts/posts.service.ts:138-144 | the rules name one type for every list of URLs |
| `Storage.FirstUrlIsRepeated` | src/rest/api/users/services/posts/posts.service.ts:119 | passing the first URL twice does not change the type |
| `UploadService.Posts.UploadAll` | src/rest/api/users/services/posts/posts.service.ts:340-362 | an upload loop stops at the first failure with the keys uploaded so far |
| `UploadService.Posts.UploadFiles` | src/rest/api/users/services/posts/posts.service.ts:333-362 | both loops: the URLs of each list, the keys of all uploads that succeeded, and the first failure |
| `Uploads.DoneIsFirstFailure` | src/rest/api/users/services/posts/posts.service.ts:340-362 | every upload before that point succeeded and the one at that point failed |
| `UploadService.Posts.DeleteAll` | src/rest/api/users/services/posts/posts.service.ts:380-398 | the rollback loop, which skips failing deletes |
| `UploadService.Posts.CreatePostWithFiles` | src/rest/api/users/services/posts/posts.service.ts:275-408 | the whole method at every failure point: a missing author or parent has no effect but the cached author; a failed upload or save leaves posts as before and the bucket as the rollback leaves it; on success the post has the URLs of all media files in order, then those of all documents, the first as main one and the type they have, and the post tags are invalidated |
| `UploadService.DraftIs` | src/rest/api/users/services/posts/posts.service.ts:304-325 | the post before the uploads, field by field |
| `UploadService.NewPostEmptiesTags` | src/rest/api/users/services/posts/posts.service.ts:411-415 | nothing stays cached under the three tags of a new post |
| `Uploads.UploadedKeysAreOwned` | src/rest/storage/storage.service.ts:195-202 | no delete of the rollback is refused by the ownership check |
| `Uploads.RollbackLeaves` | src/rest/api/users/services/posts/posts.service.ts:376-398 | with working deletes the rollback leaves the earlier bucket without the uploaded keys |
| `Uploads.RollbackRestoresIff` | src/rest/api/users/services/posts/posts.service.ts:376-398 | it restores the bucket if and only if no upload went to a key in use |
| `Uploads.FailedSagaRestores` | src/rest/api/users/services/posts/posts.service.ts:333-408 | with unused keys and working deletes the bucket is restored at every failure point |
| `Uploads.UnreachableStays` | src/rest/api/users/services/posts/posts.service.ts:380-398 | an object whose delete fails stays behind |
| `Uploads.LastUploadStays` | src/rest/storage/storage.service.ts:288-313 | of several uploads to one key the last content remains |
| `Uploads.KeysOfFiles` | src/rest/api/users/services/posts/posts.service.ts:340-362 | the keys of the two loops, file by file |

## Left out

- Sub-second lifetimes: Redis expiry is modelled in the clock's own unit (seconds for caches, counters and cooldowns, milliseconds for locks), so the rounding of TTL replies is not captured.
- Redis failure paths (the limiter's fail-open answer, swallowed cache errors, reconnection) and invalidation that interleaves inside one `cacheSet`.
- Concurrency of cache operations: commands of one service call run without interruption, except in `LockProtocol` and `FollowCounters`, which interleave single commands and statements.
- Lock identifiers are assumed unique; the callback of `withLock` is the state `Inside`, of any duration.
- Runs of the user cache use its default lifetime of 300 seconds; other lifetimes are covered for single calls.
- A fetch that throws does so again when the service repeats it.
- Reading the suggestion cache (its entries are part of `FollowRuns`), the popular-user fallback for an empty following list, follow statistics, analytics and history.
- Array.prototype.sort is modelled as stable insertion sort; only sortedness, stability and membership are used.
- The JSON variant of the export.
- `sanitizeText` and `sanitizeUrl`; what token removal leaves may itself contain a token again, which no statement excludes.
- Custom sanitizers that throw or have side effects; those inherited from a prototype are entries of the look-up `Custom`.
- Strings are sequences of Unicode scalar values, not of UTF-16 units; none of the replaced characters or patterns is affected.
- Session storage errors; request sessions are entries of a map.
- Registration, e-mail verification and password reset: in `Login` they are the arbitrary account change `Edit`.
- Login.LoginIsSafe: does not say that a session ends when its user is banned later, because the code does not end it.
- Deletion of a user with comments: its cascade updates neither repliesCount nor commentsCount.
- Cache invalidation by username, e-mail or websocket id, and for all users at once.
- A cached author whose row is already gone: the foreign key then refuses the new row.
- Drafts, likes, bookmarks, shares and reports.
- UploadService.Posts.CreatePostWithFiles: `sanitizeText`, the extraction of hashtags and mentions, and splitting the original file name into base and extension are inputs.
- QR codes, OAuth state, presigned URLs, mail, sockets, controllers and module wiring.
