# retrolens-backend, modelled in Dafny

This project models the rules inside the retrolens-backend HTTP API, a FastAPI service that
stores camera collections, discussions, likes and follow edges in a Supabase row store. The
store is modelled as in-memory tables. Rows are JSON objects (`Values.Row`) or users rows
(`Store.UserRow`), held by the class `Store.Db`. Each handler is modelled as two members:

- a specification function that gives the answer and the tables afterwards;
- a method on `Db` that changes the tables step by step, as the handler does, and is proved equal to that function.

Lemmas then state what the source promises about each handler. These cover:

- the order of the error checks;
- that nothing else changes;
- round trips through the request schemas;
- the TTL cache's lazy expiry;
- the enrichment and stable sort of the optimized discussion list;
- the username choices of the three user-sync paths.

The HTTP statuses the caller sees are modelled as they come out of the code. Several handlers
raise an `HTTPException` inside a `try` whose bare `except Exception` re-wraps it, and the model
returns the re-wrapped status.

Modules:

| module | file | models |
|---|---|---|
| `Wrappers`, `Http` | wrappers.dfy | `Option`, `Outcome` (a value or an HTTP status) |
| `Values` | values.dfy | JSON values and rows, `str()` of integers |
| `Text` | text.dfy | `split`, `join`, `strip`, `lower`, `str(int)`, string order |
| `StableSort` | stable_sort.dfy | `list.sort(key=..., reverse=...)` |
| `Store` | store.dfy | tables, filters, `.single()`, `.range()` windows, the database class |
| `Fields` | fields.dfy | Pydantic field coercions and length bounds |
| `Uuid` | uuid.dfy | UUID text: the accepted spellings and `str(UUID)` |
| `Cache` | cache.dfy | `get_cache_key`, `get_cached_data`, `set_cache_data` |
| `Feed` | feed.dfy | `list_discussions_optimized`, `get_feed_optimized`, batch and prefetch |
| `Likes` | likes.dfy | endpoints/likes.py |
| `Follows` | follows.dfy | endpoints/follows.py |
| `Users` | users.dfy | endpoints/users.py |
| `Auth` | auth.dfy | endpoints/auth.py |
| `TestSync` | test_sync.dfy | endpoints/test_sync.py |
| `Discussions` | discussions.dfy | endpoints/discussions.py |
| `Cameras` | cameras.dfy | endpoints/cameras.py |
| `Upload` | upload.dfy | endpoints/upload.py |
| `DiscussionSchema` | discussion_schema.dfy | schemas/discussion.py |
| `CameraSchema` | camera_schema.dfy | schemas/camera.py |
| `Config` | config.dfy | `assemble_cors_origins` in core/config.py |

## Model

| member | source | states |
|---|---|---|
| Cache.CanonicalFacts | app/api/api_v1/endpoints/discussions_optimized.py:21 | `sort_keys` order is a permutation of the keyword arguments and, for distinct names, strictly increasing by name |
| Cache.InsertByNameFacts | app/api/api_v1/endpoints/discussions_optimized.py:21 | inserting one argument into the name-sorted list adds exactly that argument and keeps the list sorted |
| Cache.InsertByNameMultiset | app/api/api_v1/endpoints/discussions_optimized.py:21 | inserting one argument adds exactly that argument |
| Cache.InsertByNameOrdered | app/api/api_v1/endpoints/discussions_optimized.py:21 | inserting an argument with a new name keeps the list strictly sorted by name |
| Cache.ByNameUnique | app/api/api_v1/endpoints/discussions_optimized.py:21 | two name-sorted lists of the same arguments are equal, so the serialised form is unique |
| Cache.KeyIgnoresArgumentOrder | app/api/api_v1/endpoints/discussions_optimized.py:19-23 | the same keyword arguments in any order give the same cache key |
| Cache.CacheKeySpace | app/api/api_v1/endpoints/discussions_optimized.py:23 | every key starts with its prefix followed by `:` |
| Cache.SpacesDisjoint | app/api/api_v1/endpoints/discussions_optimized.py:23 | keys of two different colon-free prefixes never coincide |
| Cache.OutsideSpace | app/api/api_v1/endpoints/discussions_optimized.py:19-23 | a key made with one colon-free prefix never lies in another prefix's key space |
| Cache.DeltaSeconds | app/api/api_v1/endpoints/discussions_optimized.py:29 | `timedelta.seconds` is always in 0..86399 |
| Cache.FreshAgreesWithinADay | app/api/api_v1/endpoints/discussions_optimized.py:29 | within one day of the write, the `.seconds < ttl` test is exactly "elapsed time under the TTL" |
| Cache.FreshRepeatsDaily | app/api/api_v1/endpoints/discussions_optimized.py:29 | as written, freshness repeats every 86400 seconds |
| Cache.DayOldEntryServed | app/api/api_v1/endpoints/discussions_optimized.py:29-30 | an entry one day plus less than its TTL old is served again, though its age is far beyond the TTL |
| Cache.Lookup | app/api/api_v1/endpoints/discussions_optimized.py:25-33 | `get_cached_data` answers the stored data iff the key is present and fresh |
| Cache.Expire | app/api/api_v1/endpoints/discussions_optimized.py:27-32 | after a read, a stale entry under the key is gone and every other entry is unchanged |
| Cache.SetThenGet | app/api/api_v1/endpoints/discussions_optimized.py:25-40 | a value just stored is read back at once iff the TTL is positive |
| Cache.TtlCache.constructor | app/api/api_v1/endpoints/discussions_optimized.py:17 | the cache starts empty |
| Cache.TtlCache.Get | app/api/api_v1/endpoints/discussions_optimized.py:25-33 | the read answers `Lookup` and leaves the store as `Expire` describes |
| Cache.TtlCache.Set | app/api/api_v1/endpoints/discussions_optimized.py:35-40 | the key maps to the data and the current time, and every other key is unchanged |
| Feed.ParseSortField | app/api/api_v1/endpoints/discussions_optimized.py:76-78 | a `sortBy` among the six field names is kept; any other becomes `created_at` |
| Feed.ParseFieldName | app/api/api_v1/endpoints/discussions_optimized.py:76-78 | each allowed field name is kept as it is |
| Feed.IsDescSpelling | app/api/api_v1/endpoints/discussions_optimized.py:80 | descending exactly when `sortOrder` is `desc` in any mix of upper and lower case |
| Feed.BuildPageRequest | app/api/api_v1/endpoints/discussions_optimized.py:89-104 | the store filters by `user_ids` only when it is non-empty, orders only by a non-aggregate field in the requested direction, and reads rows `offset`..`offset + limit - 1` |
| Feed.ColumnIds | app/api/api_v1/endpoints/discussions_optimized.py:115 | the author ids fetched are exactly the distinct truthy `user_id`s of the page; category ids likewise |
| Feed.PageIds | app/api/api_v1/endpoints/discussions_optimized.py:116 | the id list has one entry per page row, in page order |
| Feed.IndexBy | app/api/api_v1/endpoints/discussions_optimized.py:125 | the id-keyed dict maps each requested id found to a row carrying that id |
| Feed.CountMap | app/api/api_v1/endpoints/discussions_optimized.py:149-156 | `.get(id, 0)` on the count dict is the number of rows for every page id |
| Feed.ViewerLikes | app/api/api_v1/endpoints/discussions_optimized.py:166-174 | the liked set holds only page ids, and is empty without a viewer id |
| Feed.ViewerLikesMeaning | app/api/api_v1/endpoints/discussions_optimized.py:166-174 | a page id is in the liked set exactly when the viewer has a like on that discussion |
| Feed.Extras | app/api/api_v1/endpoints/discussions_optimized.py:182-192 | enrichment adds exactly the eight columns `content`, the three author columns, `category_name`, both counts and `is_liked` |
| Feed.EnrichedColumns | app/api/api_v1/endpoints/discussions_optimized.py:182-193 | an enriched row keeps every column of the page row that is not overwritten, including `body`, and `content` is the body or `""` |
| Feed.EnrichOneColumns | app/api/api_v1/endpoints/discussions_optimized.py:182-192 | the same, for one row and any lookups |
| Feed.EnrichedCounts | app/api/api_v1/endpoints/discussions_optimized.py:189-191 | the counts are the numbers of comments and likes on the discussion, 0 when there are none; `is_liked` holds iff the viewer liked it |
| Feed.AuthorColumns | app/api/api_v1/endpoints/discussions_optimized.py:179-187 | the author columns come from the author lookup, and are `None` when the lookup misses |
| Feed.EnrichedAuthor | app/api/api_v1/endpoints/discussions_optimized.py:179-187 | the author columns come from a users row whose id is the row's `user_id`, and are all `None` when there is none |
| Feed.EnrichedCategory | app/api/api_v1/endpoints/discussions_optimized.py:180-188 | `category_name` is the name of a category row with the row's `category_id`, else `None` |
| Feed.CategoryColumn | app/api/api_v1/endpoints/discussions_optimized.py:180-188 | the category column comes from the category lookup, and is `None` when the lookup misses |
| Feed.ListPageOrder | app/api/api_v1/endpoints/discussions_optimized.py:195-199 | for `comment_count`/`like_count` the answer is a permutation of the enriched page, ordered by the count in the requested direction, with equal counts in page order; otherwise the page order is kept |
| Feed.CachedStepMiss | app/api/api_v1/endpoints/discussions_optimized.py:70-73 | on a miss the computed list is answered and stored under the key, fresh for the TTL; no other key changes |
| Feed.CachedEmptyListIsMiss | app/api/api_v1/endpoints/discussions_optimized.py:72 | a cached empty list is never served and is recomputed, because `if cached_data:` is false for it |
| Feed.Followees | app/api/api_v1/endpoints/discussions_optimized.py:242-246 | the following list holds exactly the users the viewer follows |
| Feed.FollowingIdsMeaning | app/api/api_v1/endpoints/discussions_optimized.py:246-247 | the cached list holds the viewer and exactly the users the viewer follows |
| Feed.ListKeySpace | app/api/api_v1/endpoints/discussions_optimized.py:60-68 | the list's key is outside the `feed` key space |
| Feed.FeedKeySpace | app/api/api_v1/endpoints/discussions_optimized.py:230 | the feed's key is in the `feed` key space |
| Feed.FollowingKeySpace | app/api/api_v1/endpoints/discussions_optimized.py:238 | `following:<user>` is outside the `feed` key space |
| Feed.ListStepKeepsNoFeed | app/api/api_v1/endpoints/discussions_optimized.py:111 | the list writes no entry under the `feed` prefix |
| Feed.FeedNeverCached | app/api/api_v1/endpoints/discussions_optimized.py:230-235 | the feed's key is read but never written: with no `feed` entry, the feed is never served from the cache and leaves none behind |
| Feed.FollowingStepKeepsNoFeed | app/api/api_v1/endpoints/discussions_optimized.py:238-248 | reading or storing the following list writes nothing under the `feed` prefix |
| Feed.FeedDelegates | app/api/api_v1/endpoints/discussions_optimized.py:221-261 | without a viewer id the feed is `[]` and the cache is untouched; with one and no fresh following list cached, it is the list for the followed users and the viewer, from offset `page * limit`, newest first |
| Feed.FeedFollowingCached | app/api/api_v1/endpoints/discussions_optimized.py:238-261 | with a fresh following list cached, the feed is `[]` when that list is empty and otherwise the list for exactly those ids, from offset `page * limit`, newest first, over the unchanged cache |
| Feed.FeedViewerMiss | app/api/api_v1/endpoints/discussions_optimized.py:237-261 | with neither the feed nor a fresh following list cached, the feed stores the following list for five minutes and answers the delegated list |
| Feed.FollowingStepMiss | app/api/api_v1/endpoints/discussions_optimized.py:241-248 | without a cached following list, the list is computed and stored under `following:<user>` |
| Feed.BatchBounds | app/api/api_v1/endpoints/discussions_optimized.py:277-279 | the batch accepts 1 to 50 ids; its 400 is re-wrapped by the generic handler, so the caller sees 500 |
| Feed.PrefetchBounds | app/api/api_v1/endpoints/discussions_optimized.py:355-357 | the prefetch accepts 1 to 20 users; its 400 likewise surfaces as 500 |
| Feed.Project | app/api/api_v1/endpoints/discussions_optimized.py:368-369 | a projected row has exactly the selected columns that the row has, with their values |
| Feed.Take | app/api/api_v1/endpoints/discussions_optimized.py:372 | `.limit(n)` keeps the first `min(n, len)` rows |
| Feed.Newest | app/api/api_v1/endpoints/discussions_optimized.py:367-372 | the user's rows newest first, `min(10, n)` of the user's `n` rows, drawn from them without repetition, and every row of the user's left out is no newer than every row taken |
| Feed.PrefetchOneKeepsLive | app/api/api_v1/endpoints/discussions_optimized.py:360-374 | one prefetch pass keeps every live entry live and leaves the user's entry live |
| Feed.PrefetchWarms | app/api/api_v1/endpoints/discussions_optimized.py:360-374 | after the loop every listed user has a live entry, and no live entry was lost |
| Feed.PrefetchCaches | app/api/api_v1/endpoints/discussions_optimized.py:360-374 | when no two listed users share a key, each listed user's entry after the loop is the one served before it, or else the user's ten newest discussions as `id, title, created_at, view_count`, written now |
| Feed.PrefetchKeepsNoFeed | app/api/api_v1/endpoints/discussions_optimized.py:360-374 | prefetch writes nothing under the `feed` prefix |
| Feed.Enrich | app/api/api_v1/endpoints/discussions_optimized.py:176-193 | the enrichment loop produces the enriched page, row by row |
| Feed.ListDiscussionsOptimized | app/api/api_v1/endpoints/discussions_optimized.py:58-204 | the answer and the new cache state are those of `ListStep`: served from the cache when fresh and non-empty, otherwise computed, sorted and stored |
| Feed.GetFeedOptimized | app/api/api_v1/endpoints/discussions_optimized.py:221-261 | the answer and the new cache state are those of `FeedStep` |
| Feed.PrefetchDiscussions | app/api/api_v1/endpoints/discussions_optimized.py:355-379 | a rejected list surfaces as 500 and leaves the cache unchanged; otherwise the cache is as after the loop, each listed user's entry is the one served before or the user's ten newest discussions, and the answer is the number of users |
| Feed.PrefetchUser | app/api/api_v1/endpoints/discussions_optimized.py:361-374 | one loop pass: the user's entry stays when a fresh, non-empty one exists, and is otherwise the user's ten newest discussions, written now |
| Likes.NonNullCount | app/api/api_v1/endpoints/likes.py:65-68 | the target count is 0 iff no id is given and 1 iff exactly one id is not `None`; an empty-string id counts |
| Likes.TargetOf | app/api/api_v1/endpoints/likes.py:85-92 | the filter used is the first truthy id, in the order discussion, camera, comment, and there is none when every id is missing or empty |
| Likes.MutualSymmetric | app/api/api_v1/endpoints/likes.py:19-33 | the mutual-follow gate does not depend on the order of the two users |
| Likes.MutualSelf | app/api/api_v1/endpoints/likes.py:21-22 | a user always passes the gate with themself, with no lookup |
| Likes.MutualNeedsBothEdges | app/api/api_v1/endpoints/likes.py:24-33 | for two different users the gate opens iff both edges exist and no lookup fails; a failure answers false |
| Likes.OwnerIn | app/api/api_v1/endpoints/likes.py:40-47 | an owner is found only when exactly one row has the id, and it is that row's `user_id` |
| Likes.OwnerOf | app/api/api_v1/endpoints/likes.py:36-50 | without a truthy id there is no owner |
| Likes.CreateLikeChecks | app/api/api_v1/endpoints/likes.py:59-111 | a like is created iff the viewer is known, exactly one target is given, it has an owner, the gate opens and the viewer has not liked it yet; the failures answer 401, 400, 404, 403 and 400, in that order; the row is the viewer's like on exactly that target |
| Likes.EmptyIdIsNotFound | app/api/api_v1/endpoints/likes.py:65-78 | an empty-string id passes the "exactly one" check but finds no owner, so the like is refused with 404 |
| Likes.MutualFollowUnlocks | app/api/api_v1/endpoints/likes.py:72-106 | a mutual follow lets a user like the other user's discussion |
| Likes.DeleteLikeSpec | app/api/api_v1/endpoints/likes.py:124-151 | 401 without a viewer id, 400 unless exactly one id is given; otherwise the deletion succeeds iff the viewer has a like the target filter selects, and is 404 when there is none; a success removes exactly those likes |
| Likes.EmptyIdDeletesAllOwnLikes | app/api/api_v1/endpoints/likes.py:133-146 | with an empty-string id no target filter is added, so every like of the viewer is deleted and everyone else's is kept |
| Likes.CheckLikeStatus | app/api/api_v1/endpoints/likes.py:166-192 | the answer is whether the viewer has a like on the target; the 401 and 400 are re-wrapped, so every failure is 400 |
| Likes.GetLikeCount | app/api/api_v1/endpoints/likes.py:202-224 | needs no sign-in; a wrong target count answers 400; the count is at most the table size and 0 iff no like matches the target (its exact value is `Likes.LikeCountMeaning`) |
| Likes.LikeCountMeaning | app/api/api_v1/endpoints/likes.py:211-222 | the count is the number of likes, by anyone, that the target filter selects |
| Likes.LikeCountAppend | app/api/api_v1/endpoints/likes.py:211-222 | appending a like adds one to the count exactly when the target filter selects it |
| Likes.EmptyIdCountsAll | app/api/api_v1/endpoints/likes.py:204-222 | with an empty-string id nothing filters the count, so it is the size of the whole table |
| Likes.CreateThenCheck | app/api/api_v1/endpoints/likes.py:99-106 | after a like is created the viewer sees the target as liked |
| Likes.CreateThenCount | app/api/api_v1/endpoints/likes.py:99-106 | after a like is created the target's count is one more |
| Likes.MatchingLikeCounts | app/api/api_v1/endpoints/likes.py:211-222 | adding a like the target filter selects adds one to the count |
| Likes.OtherLikeCounts | app/api/api_v1/endpoints/likes.py:211-222 | adding a like the target filter does not select leaves the count as it was |
| Likes.CreateTwice | app/api/api_v1/endpoints/likes.py:84-96 | liking the same target a second time is refused with 400 |
| Likes.CreateThenDelete | app/api/api_v1/endpoints/likes.py:137-146 | deleting a like just created restores the like table exactly |
| Likes.CreateLike | app/api/api_v1/endpoints/likes.py:53-115 | the handler answers `CreateLikeSpec` and appends the new row on success; a refusal leaves the table unchanged |
| Likes.DeleteLike | app/api/api_v1/endpoints/likes.py:118-155 | the handler leaves the table `DeleteLikeSpec` answers on success, and unchanged on a failure |
| Follows.ListFollows | app/api/api_v1/endpoints/follows.py:25-35 | the answer holds exactly the edges matching each truthy id given, and is the whole table when neither is given |
| Follows.CreateFollowSpec | app/api/api_v1/endpoints/follows.py:43-61 | an edge is created iff it is not a self-follow and does not exist yet; both refusals are 400 |
| Follows.CreateFollowKeepsWellFormed | app/api/api_v1/endpoints/follows.py:44-56 | creating a follow keeps the table free of self-follows and duplicate edges |
| Follows.DeleteFollowSpec | app/api/api_v1/endpoints/follows.py:71-79 | a deletion succeeds iff the edge exists and removes exactly that edge; the 404 is re-wrapped, so every failure is 400 |
| Follows.FollowThenUnfollow | app/api/api_v1/endpoints/follows.py:53-75 | unfollowing right after following restores the table exactly |
| Follows.CreateFollow | app/api/api_v1/endpoints/follows.py:40-65 | the handler answers `CreateFollowSpec` and appends the edge on success only |
| Follows.DeleteFollow | app/api/api_v1/endpoints/follows.py:68-79 | the handler leaves the table `DeleteFollowSpec` answers on success, and unchanged on a failure |
| Users.TakenMeans | app/api/api_v1/endpoints/users.py:64-65 | a username is taken iff some row holds it |
| Users.FirstFree | app/api/api_v1/endpoints/users.py:68-74 | the retry loop settles on a drawn `name_NNNN` that no row holds, the first such in draw order, and on none iff every draw is taken |
| Users.ChooseUsername | app/api/api_v1/endpoints/users.py:68-74 | the retry loop stops at the first free drawn candidate |
| Users.NameOwner | app/api/api_v1/endpoints/users.py:40-44 | with unique usernames, two different rows never share a name |
| Users.RenameKeepsUnique | app/api/api_v1/endpoints/users.py:46-53 | updating one id's row to a name no other id holds keeps ids and usernames unique |
| Users.SyncKeepsUnique | app/api/api_v1/endpoints/users.py:30-89 | `sync_user` keeps ids and usernames unique, for an existing user and for a new one |
| Users.SyncExistingUser | app/api/api_v1/endpoints/users.py:34-53 | for an existing user, the requested username is used unless another id holds it, in which case the current one is kept; display name and avatar fall back to the current values when the request leaves them empty; nothing is inserted |
| Users.KeptNameMeaning | app/api/api_v1/endpoints/users.py:39-44 | the name kept is the requested one unless another id holds it, and the current one otherwise |
| Users.NameOwnerOrSame | app/api/api_v1/endpoints/users.py:42 | with unique usernames, two rows sharing a name are the same row |
| Users.ParseSyncRequest | app/api/api_v1/endpoints/users.py:17-24 | a sync body is accepted iff the three ids are strings, `full_name` and `avatar_url` are strings or null, and `metadata` is an object or null; a missing `full_name` or `avatar_url` is `""` |
| Users.SyncDefaults | app/api/api_v1/endpoints/users.py:76-85 | a new user whose body leaves out `avatar_url` is stored with `""` and one sending `null` with `None`; a missing, null or empty `full_name` makes the display name the username |
| Users.SyncNewUser | app/api/api_v1/endpoints/users.py:60-89 | a new user gets the requested name if free, otherwise the first free drawn `name_NNNN` with four digits; the display name falls back to the requested username; bio and location are empty and expertise is `beginner` |
| Users.SyncUser | app/api/api_v1/endpoints/users.py:27-97 | the handler answers the id and leaves the table that `SyncUserSpec` gives |
| Users.CreateUserSpec | app/api/api_v1/endpoints/users.py:102-121 | a user is created iff no row has the username, under the fresh id, with the requested username and email; otherwise 400 |
| Users.CreateUserKeepsUnique | app/api/api_v1/endpoints/users.py:103-114 | with a fresh id, creating a user keeps ids and usernames unique |
| Users.CreateUser | app/api/api_v1/endpoints/users.py:99-121 | the handler answers `CreateUserSpec` and appends the row on success only |
| Users.GetUser | app/api/api_v1/endpoints/users.py:124-148 | the profile exists iff exactly one row has the id, and is 404 otherwise; `follower_count` counts the edges into the user, `following_count` the edges out of it, and the camera and discussion counts are the numbers of rows the user owns (0 iff none) |
| Users.FollowCounts | app/api/api_v1/endpoints/users.py:136-144 | a new follow edge adds one follower to the followed user and one followee to the follower |
| Users.ListUsers | app/api/api_v1/endpoints/users.py:194-204 | the list is the rows at positions `offset`..`offset + limit - 1`: `min(limit, n - offset)` of the `n` rows, none when `limit <= 0` or `offset >= n` |
| Users.ListUsersPages | app/api/api_v1/endpoints/users.py:201-202 | two consecutive pages are one page of twice the size |
| Users.FollowUserSpec | app/api/api_v1/endpoints/users.py:255-279 | every refusal is 400; a follow is accepted iff `follower_id` is truthy, is not the user id as given, and the edge from `str(follower_id)` to the user does not exist yet, whatever the id's JSON type; a missing or falsy id is 400; the accepted follow is that edge |
| Users.FollowUserAgreesWithCreateFollow | app/api/api_v1/endpoints/users.py:259-275 | with a non-empty text id, `follow_user` decides exactly as `create_follow` does |
| Users.NumericFollowerBypassesSelfCheck | app/api/api_v1/endpoints/users.py:263-275 | the self-follow check compares the raw JSON value, so a numeric `follower_id` equal to the user id stores a self-follow |
| Users.UnfollowUserSpec | app/api/api_v1/endpoints/users.py:282-297 | every failure is 400, because the 404 is re-wrapped; a missing or falsy `follower_id` is 400; an unfollow succeeds iff `follower_id` is truthy and the edge from `str(follower_id)` exists, and removes exactly that edge |
| Users.FollowThenUnfollowUser | app/api/api_v1/endpoints/users.py:255-297 | unfollowing right after an accepted follow restores the table exactly |
| Users.FollowUser | app/api/api_v1/endpoints/users.py:255-279 | the handler answers `FollowUserSpec` and appends the edge on success only |
| Users.UnfollowUser | app/api/api_v1/endpoints/users.py:282-297 | the handler leaves the table `UnfollowUserSpec` answers on success, and unchanged on a failure |
| Auth.CurrentUserInfo | app/api/api_v1/endpoints/auth.py:12-22 | `/me` answers the subject as `clerk_id`, the email and name claims, and `authenticated: true` |
| Auth.VerifyToken | app/api/api_v1/endpoints/auth.py:72-80 | `/verify-token` answers `valid: true` and the subject as `user_id` |
| Auth.BaseUsername | app/api/api_v1/endpoints/auth.py:36 | the base username is the email's text before the first `@` (the whole email when it has none), or `user_` plus the first `min(8, len)` characters of the subject |
| Auth.BlankNameFails | app/api/api_v1/endpoints/auth.py:32-35 | a name made only of whitespace makes `name.split()[0]` raise outside the `try`: the answer is 500 and nothing is written, and this is the only failure |
| Auth.ExistingUserUnchanged | app/api/api_v1/endpoints/auth.py:39-44 | a caller who already has a row gets a row with their id back, and nothing is inserted; with unique ids it is exactly their row |
| Auth.NewUserRow | app/api/api_v1/endpoints/auth.py:46-61 | a new caller's row has their id and email, the base username or, when the base is taken, the base plus `_` and four digits, and the name claim or else the unsuffixed base as display name |
| Auth.NewUserKeepsUniqueWhenDrawFree | app/api/api_v1/endpoints/auth.py:54-61 | when the drawn name is free too, the new row keeps ids and usernames unique |
| Auth.LocalPart | app/api/api_v1/endpoints/auth.py:36 | with the first `@` at position `k`, the base is the first `k` characters |
| Auth.BobSuffix | app/api/api_v1/endpoints/auth.py:59 | the draw 1234 on base `bob` gives `bob_1234` |
| Auth.SuffixCanCollide | app/api/api_v1/endpoints/auth.py:54-61 | the drawn suffix is not checked again: with rows `bob` and `bob_1234`, the email `bob@x` and the draw 1234 store a second `bob_1234`, given no unique constraint on `username` in the database |
| Auth.BobTableUnique | app/api/api_v1/endpoints/auth.py:54-61 | the starting table of that example has unique usernames |
| Auth.BobSync | app/api/api_v1/endpoints/auth.py:46-61 | in that example the new row is appended as `bob_1234` and the first two rows are kept |
| Auth.SyncUserWithDatabase | app/api/api_v1/endpoints/auth.py:25-69 | the handler answers and leaves the table that `SyncWithDatabase` gives |
| TestSync.TestSyncSpec | app/api/api_v1/endpoints/test_sync.py:20-66 | a store failure is answered as an `{"error": ...}` value and writes nothing; otherwise the reply is a success for the request's `clerk_id` |
| TestSync.RenameIgnoresConflicts | app/api/api_v1/endpoints/test_sync.py:26-36 | the update sets the requested username with no conflict check, so two rows can end up sharing it |
| TestSync.UpdateAgreesWithUsersSync | app/api/api_v1/endpoints/test_sync.py:26-42 | when no other id holds the requested name, the update writes the same table as `/users/sync`, including the display-name and avatar fallbacks |
| TestSync.NewUserVerbatim | app/api/api_v1/endpoints/test_sync.py:43-64 | a new row takes the request's fields as given, with empty bio and location and level `beginner`; `/users/sync` inserts the same row when the name is free and the full name is not empty |
| TestSync.SyncUserTest | app/api/api_v1/endpoints/test_sync.py:19-66 | the handler's reply and table are those of `TestSyncSpec`; no outcome raises |
| Discussions.Renamed | app/api/api_v1/endpoints/discussions.py:23-24 | a renamed row has no `body`; its `content` is the old `body`; every other column is kept; a row without `body` is untouched |
| Discussions.ToBody | app/api/api_v1/endpoints/discussions.py:59-60 | a prepared row has no `content`; its `body` is the old `content`; every other column is kept |
| Discussions.BodyContentRoundTrip | app/api/api_v1/endpoints/discussions.py:59-77 | a request row moved to `body` and back is the row it was |
| Discussions.ListDiscussionsSpec | app/api/api_v1/endpoints/discussions.py:11-28 | a `limit` above 100 or a negative `offset` is refused with 422; otherwise the answer is `min(limit, n - offset)` rows (none when `limit <= 0` or `offset >= n`), the one at `k` being the row at `offset + k` of the table sorted newest first, renamed |
| Discussions.ListDiscussionsPage | app/api/api_v1/endpoints/discussions.py:18-26 | a page holds at most `limit` renamed table rows without `body`, newest first |
| Discussions.ListDiscussionsPagesTile | app/api/api_v1/endpoints/discussions.py:18 | the pages at `offset` and `offset + limit` together are the page of `2 * limit` rows |
| Discussions.ListDiscussions | app/api/api_v1/endpoints/discussions.py:17-26 | the in-place renaming loop answers `ListDiscussionsSpec` |
| Discussions.GetDiscussion | app/api/api_v1/endpoints/discussions.py:31-46 | a discussion is found iff exactly one non-empty row has the id, and it is answered renamed; every failure is 404 |
| Discussions.GetStoredDiscussion | app/api/api_v1/endpoints/discussions.py:35-44 | a discussion stored once under its id is found, with its `body` as `content` |
| Discussions.ExcludeNone | app/api/api_v1/endpoints/discussions.py:56 | `model_dump(exclude_none=True)` keeps exactly the fields that are not `None` |
| Discussions.PreparedRow | app/api/api_v1/endpoints/discussions.py:56-67 | the inserted row holds the title, the content as `body` and never as `content`, the caller's `user_id`, a category exactly when one other than 0 was given, and tags exactly when given |
| Discussions.CreateDiscussionSpec | app/api/api_v1/endpoints/discussions.py:49-81 | a failure (422 on an invalid body, 400 on an empty insert answer) leaves the table as it was; a success appends one row and answers it renamed |
| Discussions.StoredDiscussion | app/api/api_v1/endpoints/discussions.py:56-79 | the stored row holds the content as `body` and a category only when one other than 0 was given; the answer holds the content as `content`, never as `body` |
| Discussions.CreateDiscussionEcho | app/api/api_v1/endpoints/discussions.py:69-79 | a created discussion answers with the request's title and content and the caller's id |
| Discussions.CreateDiscussion | app/api/api_v1/endpoints/discussions.py:49-81 | the handler answers and leaves the table that `CreateDiscussionSpec` gives |
| Cameras.ListCameras | app/api/api_v1/endpoints/cameras.py:12-22 | a `limit` above 100 or a negative `offset` is refused with 422; otherwise the answer is `min(limit, n - offset)` of the `n` public cameras (none when `limit <= 0` or `offset >= n`), the one at `k` being the public camera at `offset + k`, in table order |
| Cameras.ListCamerasPublic | app/api/api_v1/endpoints/cameras.py:19-20 | a page holds at most `limit` cameras, each of them a public camera of the table |
| Cameras.ListCamerasPages | app/api/api_v1/endpoints/cameras.py:19 | the pages at `offset` and `offset + limit` together are the page of `2 * limit` cameras |
| Cameras.ListCamerasAll | app/api/api_v1/endpoints/cameras.py:19 | a page as long as the table lists every public camera, in table order |
| Cameras.OrderedImagesFacts | app/api/api_v1/endpoints/cameras.py:37-38 | the images answered are the camera's images, re-ordered with those that have a `display_order` first, in ascending order |
| Cameras.SetViewCount | app/api/api_v1/endpoints/cameras.py:47 | the view-count update keeps the number of rows |
| Cameras.SetViewCountRows | app/api/api_v1/endpoints/cameras.py:47 | the update sets `view_count` on exactly the rows with the id and leaves every other row unchanged |
| Cameras.WithImages | app/api/api_v1/endpoints/cameras.py:37-38 | attaching the images sets `images` and changes no other field |
| Cameras.WithOwner | app/api/api_v1/endpoints/cameras.py:42-44 | attaching the owner sets `owner_username` and `owner_avatar` from the owner row and changes no other field |
| Cameras.OwnerOf | app/api/api_v1/endpoints/cameras.py:41 | the owner is found iff exactly one users row has the camera's `user_id`, and it is that row |
| Cameras.CameraView | app/api/api_v1/endpoints/cameras.py:28-51 | every failure of `get_camera` is answered with 404; a success carries an integer `view_count` |
| Cameras.Counted | app/api/api_v1/endpoints/cameras.py:46-47 | a failed view writes nothing, and the table keeps its size |
| Cameras.GetCameraCountsView | app/api/api_v1/endpoints/cameras.py:25-51 | viewing a camera stored once, whose owner is stored once, succeeds: the stored count goes up by exactly one and no other row changes, and the answer carries the count before the view, the images in display order and the owner's username and avatar |
| Cameras.ViewAnswer | app/api/api_v1/endpoints/cameras.py:29-49 | the answer for a camera stored once, with an owner stored once, is that camera with its images and owner attached |
| Cameras.CountedTable | app/api/api_v1/endpoints/cameras.py:47 | after a camera stored once is viewed, only that camera's count changes, to one more |
| Cameras.GetCameraWithoutOwner | app/api/api_v1/endpoints/cameras.py:41-51 | a camera whose owner has no users row is answered with 404, because `.single()` raises and the error is re-wrapped |
| Cameras.GetCamera | app/api/api_v1/endpoints/cameras.py:25-51 | the handler answers `CameraView` of the tables before the call and leaves the cameras table `Counted` |
| Cameras.CountView | app/api/api_v1/endpoints/cameras.py:46-47 | after a successful read the stored count is the value read plus one; otherwise nothing is written |
| Cameras.ReadCamera | app/api/api_v1/endpoints/cameras.py:29-45 | the reads (camera, images, owner, in that order) answer `CameraView` |
| Cameras.CreateCameraSpec | app/api/api_v1/endpoints/cameras.py:54-68 | a failure (422 on an invalid body or a `user_id` that is not a UUID, 400 on an empty insert answer) leaves the table as it was; a success appends the stored row and answers it |
| Cameras.StoredTexts | app/api/api_v1/endpoints/cameras.py:58-59 | the stored `year`, `camera_type` and `film_format` are the request's |
| Cameras.StoredStory | app/api/api_v1/endpoints/cameras.py:58-59 | the stored `condition` and `acquisition_story` are the request's |
| Cameras.StoredNames | app/api/api_v1/endpoints/cameras.py:58-59 | the stored brand, model and technical specs are the request's |
| Cameras.StoredRest | app/api/api_v1/endpoints/cameras.py:58-59 | the stored market values and flags are the request's, and `user_id` is the given id |
| Cameras.StoredCamera | app/api/api_v1/endpoints/cameras.py:58-61 | the stored camera holds the owner's id and validates back to the request |
| Cameras.CreateCameraEcho | app/api/api_v1/endpoints/cameras.py:58-66 | a created camera answers with the request's fields and the owner's id as `str(user_id)`, and is appended to the table |
| Cameras.CreateCamera | app/api/api_v1/endpoints/cameras.py:54-68 | the handler answers and leaves the table that `CreateCameraSpec` gives |
| Upload.Extension | app/api/api_v1/endpoints/upload.py:23 | the extension is the text after the last `.`, or the whole name when it has no dot; it holds no dot and ends the name |
| Upload.UserText | app/api/api_v1/endpoints/upload.py:24 | a missing `user_id` renders as `None` in the path |
| Upload.UploadCameraImage | app/api/api_v1/endpoints/upload.py:11-44 | every failure (not an image, no file name, a path already taken) is 400 and stores nothing |
| Upload.UploadAvatar | app/api/api_v1/endpoints/upload.py:47-80 | every failure is 400 and stores nothing |
| Upload.NonImageRejected | app/api/api_v1/endpoints/upload.py:19-20 | both uploads refuse a type not starting with `image/` with 400, which stays 400 after re-wrapping, and store nothing |
| Upload.CameraImageStored | app/api/api_v1/endpoints/upload.py:22-42 | a successful upload stores the file, with its type, under the path `user_id/uuid.ext` that it answers; the path was free, nothing else changes, and the url is that path's |
| Upload.AvatarReuploadOverwrites | app/api/api_v1/endpoints/upload.py:58-78 | uploading an avatar twice with the same extension keeps one object, the second file, at the same path `user_id/avatar.ext` |
| Upload.ImagePathsDistinct | app/api/api_v1/endpoints/upload.py:24 | for one user and extension, two camera image paths are equal iff their uuids are |
| Upload.PathFolderIsUser | app/api/api_v1/endpoints/upload.py:24 | when the user text holds no `/`, the folder of either path is the user text |
| Upload.FolderOf | app/api/api_v1/endpoints/upload.py:60 | the text before the first `/` of `u/rest` is `u` when `u` holds no `/` |
| DiscussionSchema.ParseCreate | app/schemas/discussion.py:9-19 | a discussion body is accepted only with a title of 1 to 200 characters and a non-empty content, which are kept as given; `tags` defaults to `[]` and `category_id` to `None`; a refusal is 422 |
| DiscussionSchema.CreateRoundTrip | app/schemas/discussion.py:9-19 | a valid discussion survives `model_dump()` and validating again |
| DiscussionSchema.ParseUpdate | app/schemas/discussion.py:22-28 | every update field is optional; a present title or content must obey the create bounds; an empty body is an update with every field `None` |
| DiscussionSchema.UpdateRoundTrip | app/schemas/discussion.py:22-28 | a valid update survives `model_dump()` and validating again |
| DiscussionSchema.PublicDiscussionDefaults | app/schemas/discussion.py:44-67 | a public discussion lacking them has counts 0, `is_liked`, `is_pinned` and `is_locked` false and empty tags; fields the row has are kept |
| DiscussionSchema.CountDefaults | app/schemas/discussion.py:64-66 | the count defaults are 0 and `is_liked` defaults to false |
| DiscussionSchema.FlagDefaults | app/schemas/discussion.py:53-55 | `tags` defaults to `[]`, `is_pinned` and `is_locked` to false |
| DiscussionSchema.ParseCategory | app/schemas/discussion.py:70-80 | a category needs a name of 1 to 100 characters and an icon of at most 50; `display_order` defaults to 0 |
| DiscussionSchema.CategoryRoundTrip | app/schemas/discussion.py:70-80 | a valid category survives `model_dump()` and validating again |
| DiscussionSchema.ParseComment | app/schemas/discussion.py:91-100 | a comment is accepted iff its body is non-empty text and `parent_id`, `discussion_id` and `camera_id` are each missing, null or a UUID; the ids are kept as their canonical text |
| DiscussionSchema.CommentTargetsUnconstrained | app/schemas/discussion.py:97-100 | no exactly-one rule: a comment naming both a discussion and a camera, or neither, is accepted, given UUID ids |
| DiscussionSchema.CommentIdsMustBeUuids | app/schemas/discussion.py:94-100 | a parent or target id that is not a UUID, such as `"abc"`, is refused with 422 |
| DiscussionSchema.ParseCommentUpdate | app/schemas/discussion.py:103-105 | a comment update is accepted iff its body is a non-empty text, which is kept |
| CameraSchema.OptCondition | app/schemas/camera.py:17-20 | a `condition` is accepted iff it is missing, null or one of `mint`, `excellent`, `good`, `fair`, `poor`, `for_parts`, and is kept as given |
| CameraSchema.ParseDetails | app/schemas/camera.py:14-21 | `year`, `camera_type` and `film_format` are optional with at most 50 characters, `acquisition_story` at most 1000, and the condition must be one of the six grades |
| CameraSchema.ParseCreate | app/schemas/camera.py:10-32 | a camera needs a brand and a model of 1 to 100 characters and its texts within their bounds; the flags default to not for sale, not for trade and public; a refusal is 422 |
| CameraSchema.DetailsRoundTrip | app/schemas/camera.py:14-21 | the texts are read back unchanged from a body that holds their values |
| CameraSchema.ParseCreateOf | app/schemas/camera.py:10-32 | a body holding the values of a valid camera validates to that camera |
| CameraSchema.CreateDumpTexts | app/schemas/camera.py:14-16 | the dump of a camera holds its `year`, `camera_type` and `film_format` |
| CameraSchema.CreateDumpStory | app/schemas/camera.py:17-21 | the dump of a camera holds its condition and story |
| CameraSchema.CreateDumpNames | app/schemas/camera.py:12-22 | the dump of a camera holds its brand, model and technical specs |
| CameraSchema.CreateRoundTrip | app/schemas/camera.py:10-32 | a valid camera survives `model_dump()` and validating again |
| CameraSchema.MarketValuesUnordered | app/schemas/camera.py:23-24 | no order between the market values is enforced: a minimum above the maximum is accepted |
| CameraSchema.ParseUpdate | app/schemas/camera.py:35-52 | every update field is optional and present values obey the create bounds and the condition pattern; an empty body leaves every field unset |
| CameraSchema.ParseUpdateOf | app/schemas/camera.py:35-52 | a body holding the values of a valid update validates to that update |
| CameraSchema.UpdateDumpTexts | app/schemas/camera.py:39-41 | the dump of an update holds its `year`, `camera_type` and `film_format` |
| CameraSchema.UpdateDumpStory | app/schemas/camera.py:42-46 | the dump of an update holds its condition and story |
| CameraSchema.UpdateDumpNames | app/schemas/camera.py:37-47 | the dump of an update holds its brand, model and technical specs |
| CameraSchema.UpdateDumpFlags | app/schemas/camera.py:48-52 | the dump of an update holds its market values and flags |
| CameraSchema.UpdateRoundTrip | app/schemas/camera.py:35-52 | a valid update survives `model_dump()` and validating again |
| CameraSchema.PublicCameraDefaults | app/schemas/camera.py:112-118 | a public camera lacking them has `images` `[]`, counts 0 and `is_liked` false; fields the row has are kept |
| Config.Origins | app/core/config.py:47 | one origin per comma-separated piece, each the piece stripped of surrounding whitespace |
| Config.AssembleCorsOrigins | app/core/config.py:43-50 | a list is kept unchanged; a string starting with `[` goes to the JSON parser; any other string is split on commas and stripped; any other value is refused |
| Config.StripKeepsOut | app/core/config.py:47 | a character that is not in a piece is not in the stripped piece either |
| Config.OriginsCount | app/core/config.py:47 | a string gives one origin more than it has commas, and no origin holds a comma |
| Config.EmptyStringGivesOneEmptyOrigin | app/core/config.py:47 | the empty string gives one empty origin, not an empty list |
| Config.StripTrimmed | app/core/config.py:47 | stripping a string with no surrounding whitespace changes nothing |
| Config.OriginsOfJoin | app/core/config.py:47 | trimmed origins without commas, joined by commas, split back into the same origins |
| Config.OriginsRoundTrip | app/core/config.py:44-47 | trimmed origins without commas, written comma-separated and not starting with `[`, are read back as exactly those origins |
| Http.Rewrap | app/api/api_v1/endpoints/follows.py:78-79 | a bare `except Exception` re-raises every failure, explicit `HTTPException`s included, with its own status and keeps every success |
| Values.Get | app/api/api_v1/endpoints/likes.py:41 | `row.get(key)` is the stored value, or `None` when the key is missing |
| Values.PyStr | app/api/api_v1/endpoints/users.py:273-274 | `str(v)` of a JSON string is the string itself, and of any other scalar its usual text |
| Fields.ReqStr | app/schemas/discussion.py:11 | a required text field is accepted iff it is a string within its length bounds, and a refusal is 422 |
| Fields.OptStr | app/schemas/camera.py:14 | an optional text field is accepted iff it is missing, null or a string within its bounds |
| Fields.OptUuid | app/schemas/discussion.py:94 | an `Optional[UUID]` field is accepted iff it is missing, null or a string in a UUID spelling, and is read as the canonical text |
| Fields.OptStrOr | app/api/api_v1/endpoints/users.py:22-23 | an optional string field with a string default takes the default when missing, `None` when null, and refuses any other type |
| Uuid.Canonical | app/api/api_v1/endpoints/cameras.py:58 | `str(UUID)` is lower-case 8-4-4-4-12 text |
| Uuid.CanonicalIsFixedPoint | app/api/api_v1/endpoints/cameras.py:58 | the canonical text is itself a UUID spelling and reads back as itself |
| Uuid.SpellingsAgree | app/schemas/discussion.py:94 | the 32-digit, hyphenated, braced and URN spellings of one UUID are all accepted and read as the same value |
| Fields.IntOr | app/schemas/discussion.py:75 | an `int` field with a default takes the default when missing and rejects `null` |
| Fields.BoolOr | app/schemas/camera.py:25-27 | a `bool` field with a default takes the default when missing and rejects `null` |
| Fields.OptStrs | app/schemas/discussion.py:14 | an optional list of strings takes its default when missing, accepts `null`, and otherwise must be a list of strings only |
| Fields.Fill | app/schemas/discussion.py:53-66 | a response model keeps every field the row has and gives each missing field its default |
| Text.SplitCount | app/core/config.py:47 | `split(sep)` yields one piece more than there are separators |
| Text.SplitPiecesAvoidSeparator | app/core/config.py:47 | no piece of a split holds the separator |
| Text.JoinSplit | app/core/config.py:47 | joining the pieces of a split with the separator gives the string back |
| Text.SplitJoin | app/core/config.py:47 | pieces without the separator, joined with it, split back into the same pieces |
| Text.BeforeFirst | app/api/api_v1/endpoints/auth.py:36 | `s.split(sep)[0]` is a prefix of `s` without `sep`, followed by `sep` when `s` holds one |
| Text.AfterLast | app/api/api_v1/endpoints/upload.py:23 | `s.split(sep)[-1]` is a suffix of `s` without `sep`, preceded by `sep` when `s` holds one |
| Text.Strip | app/core/config.py:47 | `strip()` leaves the middle of the string between its leading and trailing whitespace, and the result neither starts nor ends with whitespace |
| Text.LowerAscii | app/api/api_v1/endpoints/discussions_optimized.py:80 | `lower()` keeps the length and maps `A`..`Z` to `a`..`z` |
| Text.LexLessIrreflexive | app/api/api_v1/endpoints/discussions_optimized.py:21 | no name sorts before itself |
| Text.LexLessTransitive | app/api/api_v1/endpoints/discussions_optimized.py:21 | the order of `sort_keys` is transitive |
| Text.LexLessTotal | app/api/api_v1/endpoints/discussions_optimized.py:21 | any two different names are ordered one way or the other |
| Text.Decimal | app/api/api_v1/endpoints/users.py:68 | `str(n)` is a non-empty string of decimal digits |
| Text.FourDigits | app/api/api_v1/endpoints/users.py:68 | a number in 1000..9999 prints with exactly four digits |
| StableSort.Sort | app/api/api_v1/endpoints/discussions_optimized.py:195-199 | `list.sort(key, reverse)` gives a permutation, ordered by the key in the requested direction, in which equal keys keep their original order |
| StableSort.InsertSorted | app/api/api_v1/endpoints/discussions_optimized.py:197 | inserting into a sorted list adds exactly that element and keeps the list sorted |
| StableSort.InsertWithKey | app/api/api_v1/endpoints/discussions_optimized.py:197 | inserting an element puts it after every element with the same key |
| Store.Count | app/api/api_v1/endpoints/users.py:141-144 | a count is at most the table size, and 0 iff no row matches |
| Store.Filter | app/api/api_v1/endpoints/follows.py:26-35 | a filtered select holds every matching row and no other, as many as `Count` gives |
| Store.FilterSplit | app/api/api_v1/endpoints/cameras.py:37 | two complementary filters split a table between them, every row going to exactly one side |
| Store.Delete | app/api/api_v1/endpoints/follows.py:72 | a `delete()` removes exactly the matching rows and keeps the others |
| Store.Update | app/api/api_v1/endpoints/users.py:53 | an `update()` changes exactly the matching rows, and the table keeps its size |
| Store.Single | app/api/api_v1/endpoints/discussions.py:35 | `.single()` finds a row iff exactly one row matches, and the row matches |
| Store.Window | app/api/api_v1/endpoints/users.py:201 | `.range(first, last)` is the rows at positions `first`..`last`, clipped to the table |
| Store.WindowsTile | app/api/api_v1/endpoints/users.py:201 | consecutive windows together are one window |

## Left out

- The Supabase client and the network: tables are sequences of rows in `Store.Db`. A query is a filter, `.single()`, `.range()` or `.order()` over them. A failure of the client itself (an exception thrown by the library) is not modelled, so the model never takes the 500 paths that only such a failure reaches.
- Row order: a table keeps insertion order, and an `.order("created_at")` is modelled by a rank function `rank` given as a parameter. It orders both the discussion list and the prefetch (`Feed.Newest`). Rows with equal timestamps keep their table order. In `list_discussions_optimized` the page the store answers with is a `fetch` parameter, and its `ORDER BY` is not modelled.
- Columns the database fills in on insert (`id`, `created_at`, counters) come from a `generated` parameter. The model does not say what the database puts there. An insert that returns no data is modelled, with its 400, only in `create_discussion` and `create_camera` (through `generated`). The same check in `create_like` (likes.py:108), `create_follow` (follows.py:58), `sync_user` (users.py:88), `create_user` (users.py:116) and `sync_user_with_database` (auth.py:63) is not modelled: there every insert succeeds.
- `uuid4()`, `random.randint(1000, 9999)` and `datetime.utcnow()` are parameters: fresh ids, a sequence of draws and a clock counting microseconds. The day wrap of `timedelta.seconds` in the cache's age test is modelled.
- Users.ChooseUsername: requires that one of the given draws yields a free name. Termination of the source's retry loop against an adversarial random source is not modelled.
- `json.dumps(..., sort_keys=True)` and MD5 in `get_cache_key` are one opaque function `digest` applied to the parameters sorted by name. The model proves that the key depends only on the parameter set and lies in its prefix's key space. It says nothing about hash collisions.
- `json.loads` in `assemble_cors_origins` is a parameter `loads`. A malformed JSON string is whatever `loads` answers.
- Concurrency: the cache and the `view_count` read-modify-write race are outside a sequential model. The "parallel" fetches of `list_discussions_optimized` are awaited one after another and are modelled in that order.
- JWT verification in app/core/auth.py is not part of this model. The authenticated user is an optional claims value given to each handler, and the subject claim is taken to be present.
- FastAPI `Query` bounds (`ge`, `le`): `list_discussions` and `list_cameras` answer 422 on `limit > 100` or `offset < 0`. `list_users`, `list_discussions_optimized` and `get_feed_optimized` take their bounds as given by callers: none of them refuses a `limit` above 100, `list_users` takes `offset` as a natural number, and the two feed handlers model no 422 for a negative `offset` or `page`.
- FastAPI path parameters typed `UUID` (such as `camera_id` in `get_camera`) are plain strings whose format is not checked. `Optional[UUID]` body fields and the `user_id` query parameter of `create_camera` are checked and read as `str(UUID)`.
- `response_model` filtering of the returned dicts is not applied: a handler's answer is the dict it returns.
- Pydantic coercions: a field accepts exactly the JSON type it declares (a `UUID` field: a string in one of the UUID spellings). Strings are not coerced to numbers or back, and `EmailStr`, `HttpUrl` and the `Decimal` market values are plain strings or integers.
- `str.isspace` and `strip` use Python's Unicode whitespace set. `lower` maps only `A`..`Z`: Unicode case mapping is not modelled.
- Storage `upload` and `get_public_url` in upload.py: a bucket is a map from path to the stored bytes and their content type. The public URL is a function given as a parameter.
- users.py `get_user_by_username`, `update_user`, `get_user_followers`, `get_user_following` and the `/test` route; test_sync.py `test_endpoint`: plain pass-through reads and writes with no rule of their own, outside the modelled core.
- `batch_discussions` and `prefetch_discussions` are modelled up to their input bounds, and prefetch up to its cache writes. The enrichment inside batch (its embedded-join select of author and category, its per-id exact counts of comments and likes, and its own likes lookup) is not modelled.
- categories.py and comments.py (a pass-through query and a constant), app/main.py, app/api/api_v1/api.py, app/db/supabase.py and app/schemas/user.py are not part of this model.
- The SQL text in the `CREATE_DB_FUNCTIONS` string of discussions_optimized.py and its installation are not modelled. The rpc calls `get_discussion_comment_counts` and `get_discussion_like_counts` are modelled by what those functions compute: per-id counts of the comments and likes rows (`Feed.CountMap`).
- The `bob` username examples (`Auth.SuffixCanCollide`, `Auth.BobSync`) assume no unique constraint on `username`: the table schema is not part of this model.
