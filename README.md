# Socialite feed core, modelled in Dafny

Socialite is a social-feed service: users follow one another, publish short
posts, and read a home feed merged from the people they follow. This project
models the part of it that decides *what a reader sees*, and the bookkeeping
that keeps posts from being lost when delivery is deferred:

- **Paging and merging** (`ContentListHelper`): `extractContent` over one
  ascending list of posts (newest first, anchored older or newer pages, the
  future-anchor refusal), the positioned cursors of `getContentWalker`, and
  the k-way `merge` of several cursors. `FeedOrder` holds the reference
  definitions, and the lemmas that the loops' results are the right pages in
  the right order.
- **Cursors** (`Walkers`): `ListWalker` and `ReverseListWalker` as one class
  with a direction, whose `step` moves `currentIndex`.
- **The in-memory services**: `InMemoryUserService` (three maps of follower,
  following and user entries, updated in place) and `InMemoryContentService`
  (the id index and each author's ascending list).
- **Field filtering** (`CacheFilter`): `CacheContentFilter` and its
  projection of a post onto the kept keys.
- **The four feed strategies**:
  - `FanoutOnReadFeed`: delegation to the content service.
  - `FeedCache` and `FanoutToCache`: the per-user cache document with its
    capped timeline and own-posts arrays, the cache hit rule, the rebuild on
    a miss, and the fan-out that pushes only into existing documents.
  - `SizedBuckets` (with `BucketRead`): fixed-size buckets that roll over
    when full, read newest bucket first.
  - `TimeBuckets`: buckets keyed by the post's creation second modulo the
    time span, upserted and read by descending key.
- **Deferred delivery**:
  - `RecoveryRecords`: the recovery record, its state updates and the
    eligibility and time-out predicates.
  - `AsyncTasks`: the post task and the replay task.
  - `AsyncTaskService`: the store-facing half of `DefaultAsyncService`
    (submit, complete, fail, reject, claim).
  - `PostDelivery`: `AsyncPostDelivery`'s threshold dispatch.
- **Errors and validation** (`Api`, `Exceptions`, `Validators`): the error
  codes, `ServiceException.wrap`/`set`/`setErrorCode` and the two validators.

Shared pieces live in `Wrappers` (Option, Result, Outcome) and `Seqs`
(reverse, take, drop and their facts).

The model follows the code where the code and its comments disagree:

- A negative limit reads the posts *newer* than the anchor, returned newest
  first. Some interface comments say the opposite.
- A fan-out threshold of 0 or less queues every post.
- The follower push into cache documents passes `upsert = false`, although
  the comment above it says upsert is on.
- The time-bucket key is the remainder of the creation second by the span,
  not a slot number.
- `getCacheDocument` appends the user's own posts to the timeline array and
  stores an empty posts array (`FeedCache.RebuiltDocumentMisfilesPosts`).
  It also filters only what it stores: the rebuild's own answer is the
  unfiltered list (`FeedCache.ColdTimelineAgrees`).
- The DEAD state is never written. A record stops being eligible only
  through its failure count.
- The recovery claim passes `upsert(true)`; see Findings.

## Model

| member | source | states |
|---|---|---|
| Exceptions.ServiceException.constructor | src/main/java/com/mongodb/socialite/api/ServiceException.java:52-55 | a new exception carries the given message, cause and code and no properties |
| Exceptions.ServiceException.Set | src/main/java/com/mongodb/socialite/api/ServiceException.java:74-81 | `set` stores one property and returns the same exception; `get` then answers the stored value, every other property and the code are unchanged |
| Exceptions.ServiceException.SetErrorCode | src/main/java/com/mongodb/socialite/api/ServiceException.java:61-64 | `setErrorCode` replaces the code, keeps the properties and returns the same exception |
| Exceptions.Wrap | src/main/java/com/mongodb/socialite/api/ServiceException.java:19-29 | a ServiceException comes back itself when the code is null or already its own; otherwise (a different code, or any other throwable) a new exception with that code, the thrown one as cause and its message |
| Exceptions.WrapAny | src/main/java/com/mongodb/socialite/api/ServiceException.java:31-33 | `wrap(x)` is `wrap(x, null)`: a ServiceException is never replaced, anything else gets a new exception without a code |
| Validators.ValidateContent | src/main/java/com/mongodb/socialite/content/BasicContentValidator.java:10-16 | passes exactly when the message is non-null and non-empty; otherwise INVALID_CONTENT carrying the message under "message" |
| Validators.ValidateUserId | src/main/java/com/mongodb/socialite/users/BasicUserIdValidator.java:14-21 | passes exactly when the id is non-null and non-empty; otherwise INVALID_USER_ID carrying the id under "userId" |
| InMemoryUserService.UserStore.constructor | src/main/java/com/mongodb/socialite/users/InMemoryUserService.java:15-19 | a new store has three empty maps |
| InMemoryUserService.UserStore.GetOrCreateUserById | src/main/java/com/mongodb/socialite/users/InMemoryUserService.java:22-29 | a registered user comes back unchanged with the store untouched; an unknown id is registered as a bare user with empty edge sets; either way `getUserById` then finds it |
| InMemoryUserService.UserStore.CreateUser | src/main/java/com/mongodb/socialite/users/InMemoryUserService.java:31-37 | the user is stored and both edge sets are replaced by empty ones |
| InMemoryUserService.CreateResets | src/main/java/com/mongodb/socialite/users/InMemoryUserService.java:31-37 | after `createUser` the id validates and both counts are 0, whatever edges the id had before |
| InMemoryUserService.UserStore.RemoveUser | src/main/java/com/mongodb/socialite/users/InMemoryUserService.java:39-43 | only the user entry is removed; both edge maps are unchanged |
| InMemoryUserService.RemoveKeepsEdges | src/main/java/com/mongodb/socialite/users/InMemoryUserService.java:39-56 | after `removeUser` the id fails validation with UNKNOWN_USER, while its follower and followee sets remain |
| InMemoryUserService.ValidateUser | src/main/java/com/mongodb/socialite/users/InMemoryUserService.java:50-56 | passes exactly when the id is registered; otherwise UNKNOWN_USER carrying the id |
| InMemoryUserService.UserStore.Follow | src/main/java/com/mongodb/socialite/users/InMemoryUserService.java:58-65 | the new maps and the outcome are those of the follow step: a missing followee set throws with nothing changed, a missing follower set throws after the first add |
| InMemoryUserService.FollowEdges | src/main/java/com/mongodb/socialite/users/InMemoryUserService.java:58-65 | when both sets exist, follow succeeds and adds exactly `to` to the followees of `from` and `from` to the followers of `to`; every other membership and key is unchanged |
| InMemoryUserService.FollowIdempotent | src/main/java/com/mongodb/socialite/users/InMemoryUserService.java:58-65 | repeating a follow changes nothing and ends the same way |
| InMemoryUserService.UserStore.Unfollow | src/main/java/com/mongodb/socialite/users/InMemoryUserService.java:67-74 | the new maps and the outcome are those of the unfollow step, with the same two null dereferences as follow |
| InMemoryUserService.UnfollowEdges | src/main/java/com/mongodb/socialite/users/InMemoryUserService.java:67-74 | when both sets exist, unfollow removes exactly the two memberships and nothing else |
| InMemoryUserService.UnfollowUndoesFollow | src/main/java/com/mongodb/socialite/users/InMemoryUserService.java:58-74 | unfollowing right after a new follow restores the graph exactly |
| InMemoryUserService.CountIn | src/main/java/com/mongodb/socialite/users/InMemoryUserService.java:76-89 | a count is the size of the user's set; a user without a set dereferences null |
| InMemoryUserService.FollowCounts | src/main/java/com/mongodb/socialite/users/InMemoryUserService.java:58-89 | a successful follow raises each count by one, or by none when the edge already existed |
| InMemoryUserService.UserStore.GetFollowers | src/main/java/com/mongodb/socialite/users/InMemoryUserService.java:81-84 | every follower exactly once, whatever the limit; a user without a set dereferences null |
| InMemoryUserService.UserStore.GetFollowing | src/main/java/com/mongodb/socialite/users/InMemoryUserService.java:91-94 | every followee exactly once, whatever the limit; a user without a set dereferences null |
| InMemoryUserService.ListOf | src/main/java/com/mongodb/socialite/users/InMemoryUserService.java:83 | copying a set into a list gives each member exactly once |
| InMemoryUserService.UserStore.Reset | src/main/java/com/mongodb/socialite/users/InMemoryUserService.java:104-109 | all three maps are empty |
| InMemoryContentService.ContentStore.constructor | src/main/java/com/mongodb/socialite/content/InMemoryContentService.java:25-29 | a new store has no posts and no lists |
| InMemoryContentService.ContentStore.PublishContent | src/main/java/com/mongodb/socialite/content/InMemoryContentService.java:37-49 | the outcome is the validator's; a rejected post changes nothing; an accepted one is indexed by id, so `getContentById` finds it, and appended to the end of its author's list (created when absent), other lists unchanged |
| InMemoryContentService.ContentStore.GetContentById | src/main/java/com/mongodb/socialite/content/InMemoryContentService.java:32-35 | in a valid store, a post is found exactly when a stored post has the asked id, and the post found is a stored one with that id; the author in the asked id plays no part |
| InMemoryContentService.PublishKeepsOrder | src/main/java/com/mongodb/socialite/content/InMemoryContentService.java:40-48 | appending a post newer than every stored one keeps every author's list ascending by id |
| InMemoryContentService.PublishedPostLeadsAuthorsPage | src/main/java/com/mongodb/socialite/content/InMemoryContentService.java:41-56 | after a publish, the author's newest-first page starts with the new post followed by the page one shorter from before; other authors' lists are unchanged |
| InMemoryContentService.ContentStore.GetContentFor | src/main/java/com/mongodb/socialite/content/InMemoryContentService.java:51-60 | a single-author read is the anchored page of that author's list with future anchors allowed, and empty for an author who never posted |
| InMemoryContentService.ContentStore.GetContentForUsers | src/main/java/com/mongodb/socialite/content/InMemoryContentService.java:62-81 | a multi-author read is empty for a negative limit without an anchor, and otherwise the merge of one positioned cursor per listed author who has posts |
| InMemoryContentService.OpenCursors | src/main/java/com/mongodb/socialite/content/InMemoryContentService.java:70-77 | the loop opens one fresh, distinct cursor per listed user with a list, in the users' order, each positioned as `getContentWalker` positions it |
| InMemoryContentService.AddCursor | src/main/java/com/mongodb/socialite/content/InMemoryContentService.java:73-76 | one iteration adds exactly one positioned cursor after the others |
| InMemoryContentService.CursorsScanOrdered | src/main/java/com/mongodb/socialite/content/InMemoryContentService.java:70-77 | over ascending lists every cursor yields in the scan direction of the limit |
| InMemoryContentService.MultiReadNewestFirst | src/main/java/com/mongodb/socialite/content/InMemoryContentService.java:62-81 | with an anchor or a positive limit, a multi-author read is newest first, has min(abs(limit), available) items (0 for a zero limit), and takes each item at most as often as the cursors hold it |
| InMemoryContentService.LatestCursorsHoldAll | src/main/java/com/mongodb/socialite/content/InMemoryContentService.java:70-77 | without an anchor the cursors together hold every post of the listed users |
| InMemoryContentService.LatestCursorsIgnoreLimit | src/main/java/com/mongodb/socialite/content/InMemoryContentService.java:70-77 | without an anchor the cursors do not depend on the limit |
| InMemoryContentService.LatestFeed | src/main/java/com/mongodb/socialite/content/InMemoryContentService.java:62-81 | an unanchored multi-author read is empty for a limit of 0 or below, and otherwise holds min(limit, posts by those users) items, newest first |
| InMemoryContentService.ContentStore.Reset | src/main/java/com/mongodb/socialite/content/InMemoryContentService.java:94-99 | both indexes are empty |
| Walkers.ListWalker.constructor | src/main/java/com/mongodb/socialite/util/ListWalker.java:10-13 | a forward walker starts at index 0 and will yield the whole list in order |
| Walkers.ListWalker.At | src/main/java/com/mongodb/socialite/util/ListWalker.java:15-18 | a forward walker starts at `startIndex` and will yield the list from there to its end |
| Walkers.ListWalker.Reverse | src/main/java/com/mongodb/socialite/util/ReverseListWalker.java:7-10 | a reverse walker starts at size - 1, will yield the whole list backwards, and is at its end at once exactly when the list is empty |
| Walkers.ListWalker.ReverseAt | src/main/java/com/mongodb/socialite/util/ReverseListWalker.java:12-14 | a reverse walker starts at `startIndex`, which must lie below the size for `get` to be safe |
| Walkers.ListWalker.AtEnd | src/main/java/com/mongodb/socialite/util/ListWalker.java:20-22 | at its end exactly when it has nothing left to yield: index at or past the size going forward, below 0 going backward (ReverseListWalker.java:16-19) |
| Walkers.ListWalker.Get | src/main/java/com/mongodb/socialite/util/ListWalker.java:24-31 | null exactly at the end; otherwise `subject[currentIndex]`, the next item it will yield |
| Walkers.ListWalker.Step | src/main/java/com/mongodb/socialite/util/ListWalker.java:33-41 | returns what `get` returned; at the end nothing moves, otherwise the index moves one place (up going forward, down going backward, as in ReverseListWalker.java:21-30) and exactly the first remaining item is used up |
| Walkers.ReverseWalkYield | src/main/java/com/mongodb/socialite/util/ReverseListWalker.java:12-30 | a reverse walker started at s yields exactly s + 1 items, `subject[s]`, `subject[s-1]`, ... `subject[0]` |
| FeedOrder.Below | src/main/java/com/mongodb/socialite/util/ContentListHelper.java:24-31 | the insertion point of an id: every item before it is older and the item at it (if any) is not |
| FeedOrder.OlderMembers | src/main/java/com/mongodb/socialite/util/ContentListHelper.java:47-51 | the reference filter of older items keeps exactly the list's items with a smaller id |
| FeedOrder.NewerMembers | src/main/java/com/mongodb/socialite/util/ContentListHelper.java:52-57 | the reference filter of newer items keeps exactly the list's items with a larger id |
| FeedOrder.OlderIsPrefix | src/main/java/com/mongodb/socialite/util/ContentListHelper.java:48-50 | on an ascending list the older items are the prefix up to the insertion point |
| FeedOrder.NewerIsSuffix | src/main/java/com/mongodb/socialite/util/ContentListHelper.java:53-56 | on an ascending list the newer items are the suffix from just past the anchor (or from the insertion point when it is absent) |
| FeedOrder.SearchFrom | src/main/java/com/mongodb/socialite/util/ContentListHelper.java:43 | each probe of `Collections.binarySearch` answers an index holding the key, or a negative value no lower than -(size + 1) |
| FeedOrder.SearchFromSplit | src/main/java/com/mongodb/socialite/util/ContentListHelper.java:43 | on a list the key splits at b, narrowing the range never loses b: the search answers b when the key is there and -(b + 1) otherwise |
| FeedOrder.SearchAscending | src/main/java/com/mongodb/socialite/util/ContentListHelper.java:43 | on an ascending list `binarySearch` answers the key's index, or -(insertion point) - 1 |
| ContentListHelper.BinarySearch | src/main/java/com/mongodb/socialite/util/ContentListHelper.java:43 | the loop computes `Collections.binarySearch`'s answer on any list, and on an ascending one the index or -(insertion point) - 1 |
| ContentListHelper.ExtractContent | src/main/java/com/mongodb/socialite/util/ContentListHelper.java:33-67 | the loops compute `extractContent` as its index arithmetic reads on any list, and on an ascending list (or without an anchor) the anchored page the reference definition describes |
| ContentListHelper.WalkDown | src/main/java/com/mongodb/socialite/util/ContentListHelper.java:49-51 | the counting loop toward older items returns the first `count` items of the prefix up to `from`, reversed |
| ContentListHelper.WalkUp | src/main/java/com/mongodb/socialite/util/ContentListHelper.java:54-56 | the counting loop toward newer items returns the first `count` items from `from` on |
| FeedOrder.ExtractAsWrittenAscending | src/main/java/com/mongodb/socialite/util/ContentListHelper.java:40-66 | on an ascending list the index arithmetic (`abs(index) - 2`, `abs(index) + 1`, the guard) reads exactly the older or newer page |
| FeedOrder.ExtractLatest | src/main/java/com/mongodb/socialite/util/ContentListHelper.java:36-66 | without an anchor: nothing for a limit of 0 or below; otherwise the last min(limit, size) items, newest first |
| FeedOrder.ExtractOlder | src/main/java/com/mongodb/socialite/util/ContentListHelper.java:43-51 | an accepted anchor with a positive limit gives the `limit` newest items older than the anchor, newest first, never the anchor itself |
| FeedOrder.ExtractNewer | src/main/java/com/mongodb/socialite/util/ContentListHelper.java:43-58 | an accepted anchor with a limit of 0 or below gives the -limit oldest items newer than the anchor, turned newest first, never the anchor itself |
| FeedOrder.ExtractFutureAnchorRefused | src/main/java/com/mongodb/socialite/util/ContentListHelper.java:46 | without future anchors, an absent anchor newer than the second-to-last item (past the end, or between the last two) gives nothing |
| FeedOrder.ExtractPagesChain | src/main/java/com/mongodb/socialite/util/ContentListHelper.java:40-51 | paging: a full page of `limit` older items followed by the page anchored at its last item is the page of 2 * limit, so step-by-step paging skips and repeats nothing |
| FeedOrder.FullPageEndsAt | src/main/java/com/mongodb/socialite/util/ContentListHelper.java:47-51 | a full page of older items ends at the item `limit` places below the anchor's position |
| FeedOrder.ExtractAtItem | src/main/java/com/mongodb/socialite/util/ContentListHelper.java:43-51 | anchored at an item of an ascending list, a page of older items reads the items before it, newest first |
| FeedOrder.ExtractReadsOlder | src/main/java/com/mongodb/socialite/util/ContentListHelper.java:40-63 | with a positive limit and future anchors allowed, every read is the newest `limit` of the items before the anchor's position |
| ContentListHelper.GetContentWalker | src/main/java/com/mongodb/socialite/util/ContentListHelper.java:69-93 | a fresh walker over the list that yields all items newest first without an anchor, the items older than the anchor newest first for a positive limit, and the items newer than it oldest first otherwise |
| ContentListHelper.WalkerYieldScanOrdered | src/main/java/com/mongodb/socialite/util/ContentListHelper.java:69-93 | over an ascending list a positioned walker yields in the direction its limit scans |
| ContentListHelper.Merge | src/main/java/com/mongodb/socialite/util/ContentListHelper.java:95-129 | the result is the reference merge of what the walkers held: for a positive limit as drawn, otherwise drawn oldest first and then reversed |
| ContentListHelper.Drain | src/main/java/com/mongodb/socialite/util/ContentListHelper.java:103-122 | the outer loop hands out exactly the reference merge of up to `count` items |
| ContentListHelper.TakeNext | src/main/java/com/mongodb/socialite/util/ContentListHelper.java:104-121 | one round either finds every walker exhausted, when the merge is complete, or hands out the next item of the merge |
| ContentListHelper.FindLowest | src/main/java/com/mongodb/socialite/util/ContentListHelper.java:104-114 | the scan settles on the walker the reference pick chooses, or -1 when all are exhausted |
| ContentListHelper.StepWalker | src/main/java/com/mongodb/socialite/util/ContentListHelper.java:119 | `lowest.step()` hands out the chosen walker's head and only that walker moves |
| FeedOrder.PickUpToExhausted | src/main/java/com/mongodb/socialite/util/ContentListHelper.java:104-121 | the scan finds no walker exactly when every walker is at its end |
| FeedOrder.PickUpToPrefers | src/main/java/com/mongodb/socialite/util/ContentListHelper.java:98-114 | the chosen head ranks at least as high as every other head, and no later walker's head ranks at least as high: ties go to the later walker |
| FeedOrder.PickIsExtreme | src/main/java/com/mongodb/socialite/util/ContentListHelper.java:98-114 | when every walker yields in scan order, the chosen head outranks every item left in any walker |
| FeedOrder.MergeLength | src/main/java/com/mongodb/socialite/util/ContentListHelper.java:96-122 | the merge hands out min(count, total remaining) items, none for a count of 0 or below |
| FeedOrder.MergeConserves | src/main/java/com/mongodb/socialite/util/ContentListHelper.java:103-122 | what the merge hands out plus what the walkers still hold is exactly what they held before |
| FeedOrder.MergeDrawsFromWalkers | src/main/java/com/mongodb/socialite/util/ContentListHelper.java:103-122 | every item handed out was taken from some walker, no more often than it was held |
| FeedOrder.MergeOrdered | src/main/java/com/mongodb/socialite/util/ContentListHelper.java:98-126 | when every walker yields in scan order, so does the merge: descending ids reading older items, ascending reading newer |
| FeedOrder.MergeTakesTheTop | src/main/java/com/mongodb/socialite/util/ContentListHelper.java:103-122 | nothing left in a walker after the merge outranks the last item it handed out |
| FeedOrder.MergePrefix | src/main/java/com/mongodb/socialite/util/ContentListHelper.java:103 | a merge of fewer items is a prefix of a merge of more |
| FeedOrder.MergeSaturated | src/main/java/com/mongodb/socialite/util/ContentListHelper.java:118-121 | once a merge runs out before its count, asking for more changes nothing |
| CacheFilter.CacheContentFilter.constructor | src/main/java/com/mongodb/socialite/feed/CacheContentFilter.java:15-28 | no key list when all three fields are preserved; otherwise the id key followed by the key of each preserved field, in author, message, data order |
| CacheFilter.Project | src/main/java/com/mongodb/socialite/feed/CacheContentFilter.java:37-42 | after the copy loop a field of the copy is present exactly when its key is listed, and then holds the original's value |
| CacheFilter.FilterKeepsChosenFields | src/main/java/com/mongodb/socialite/feed/CacheContentFilter.java:15-43 | a filtered post keeps its id, keeps each preserved field and drops the others; with everything preserved it is the post itself |
| CacheFilter.CacheContentFilter.FilterContent | src/main/java/com/mongodb/socialite/feed/CacheContentFilter.java:30-43 | with nothing to strip the post itself; otherwise each of the id, author, message and data is the original's when its key is kept and absent when not |
| CacheFilter.FilterIdempotent | src/main/java/com/mongodb/socialite/feed/CacheContentFilter.java:30-43 | filtering an already filtered post changes nothing |
| CacheFilter.FilterKeepsAnchorId | src/main/java/com/mongodb/socialite/feed/CacheContentFilter.java:22-40 | a filtered post keeps the id that anchors feed pages |
| FeedCache.PushKeepsNewest | src/main/java/com/mongodb/socialite/feed/ContentCache.java:135-144 | a capped push keeps the newest min(cap, n + 1) entries: the new post last after the old array's newest entries, and an ascending array stays ascending when the post is newer than all |
| FeedCache.CacheCollection.InsertOne | src/main/java/com/mongodb/socialite/feed/ContentCache.java:129-132 | a new document is stored only when the owner has none; otherwise the duplicate-key refusal leaves the collection as it was |
| FeedCache.CacheCollection.PushUpsert | src/main/java/com/mongodb/socialite/feed/ContentCache.java:140-143 | the owner's document, created empty when missing, gets the capped push into one array and nothing else changes |
| FeedCache.CacheCollection.PushToTimelines | src/main/java/com/mongodb/socialite/feed/FanoutOnWriteToCache.java:126-132 | the multi-document update without upsert, with the capped push of `pushContentToCache` in place of the helper's update: the collection becomes the follower fan-out of the post, a capped push onto every listed follower's existing timeline |
| FeedCache.FanoutOnlyExisting | src/main/java/com/mongodb/socialite/feed/FanoutOnWriteToCache.java:126-132 | the fan-out creates no document, leaves unlisted owners and every posts array alone, and pushes onto each listed owner's timeline, keeping its newest `cache_size_limit` items |
| FeedCache.Filtered | src/main/java/com/mongodb/socialite/feed/ContentCache.java:154-158 | the filtered list has the same length and each entry is the filter applied to the entry at the same place |
| FeedCache.RebuiltDocumentMisfilesPosts | src/main/java/com/mongodb/socialite/feed/ContentCache.java:150-172 | a rebuilt document with own posts carries those posts, filtered, after the timeline in the timeline array, and an empty posts array |
| FeedCache.ResultsFromMissingSource | src/main/java/com/mongodb/socialite/feed/ContentCache.java:71-93 | a read of the own-posts array when none exists succeeds only for an unanchored read of 0 items, with nothing; every other read dereferences null |
| FeedCache.CachedAnswerIsPage | src/main/java/com/mongodb/socialite/feed/ContentCache.java:83-98 | over an ascending cached array a cached answer is the anchored page `extractContent` promises; it is given exactly when the page is full, or unanchored while the array is below the cap |
| FeedCache.AnchoredNewerReadFallsBack | src/main/java/com/mongodb/socialite/feed/ContentCache.java:89-97 | an anchored read of newer items can never match its negative limit, so it always falls back to the services |
| FeedCache.ColdTimelineAgrees | src/main/java/com/mongodb/socialite/feed/ContentCache.java:83-123 | a freshly rebuilt timeline answers an unanchored read with the content service's own merged page over the same followees, and always answers a limit within the cap |
| FeedCache.ColdPostsAgree | src/main/java/com/mongodb/socialite/feed/ContentCache.java:83-128 | freshly rebuilt own posts answer an unanchored read with the author's own page, and always answer a limit within the cap |
| FeedCache.EmptyPostsAnswerNothing | src/main/java/com/mongodb/socialite/feed/ContentCache.java:89-94 | an own-posts array stored empty answers every unanchored read with nothing, as a cached answer, below a positive cap |
| FeedCache.ResultsFromCacheSource | src/main/java/com/mongodb/socialite/feed/ContentCache.java:83-98 | on an ascending array, or for an unanchored read, the cached answer is the reference page cut from the array, given exactly when it has `limit` items or the read is unanchored and the array is below the cap (the cache then holds everything); otherwise the caller falls back |
| FeedCache.ContentCache.constructor | src/main/java/com/mongodb/socialite/feed/ContentCache.java:40-49 | a new cache object keeps its collaborators and holds no timeline, posts or document yet |
| FeedCache.ContentCache.GetTimeline | src/main/java/com/mongodb/socialite/feed/ContentCache.java:51-63 | a timeline rebuilt before answers with nothing changed; else the stored timeline array answers, only the projected document is remembered and the collection is not written; else the cache is rebuilt: the rebuild fails (a null dereference, nothing written) exactly when the user has no followee set, and otherwise answers from a timeline of the followees' newest posts, rebuilds own posts when they are cached, and inserts the document of that timeline and those posts unless the user has one |
| FeedCache.ContentCache.GetPosts | src/main/java/com/mongodb/socialite/feed/ContentCache.java:65-77 | the same three cases for the own-posts array; a rebuild leaves the same timeline and inserted document as in `getTimeline`, and answers from the rebuilt own posts when they are cached, else reads a null array (nothing for an unanchored read of 0 items, a null dereference otherwise) |
| FeedCache.ContentCache.AddPost | src/main/java/com/mongodb/socialite/feed/ContentCache.java:79-144 | the user's document gets the post pushed, capped, onto its own-posts array, the document being created if missing |
| FeedCache.ContentCache.LoadFromCache | src/main/java/com/mongodb/socialite/feed/ContentCache.java:100-190 | the projected document is remembered and the array read back is exactly the stored one, or none |
| FeedCache.ContentCache.BuildCacheForUser | src/main/java/com/mongodb/socialite/feed/ContentCache.java:119-133 | fails with nothing changed when the user has no followee set; otherwise the timeline is the followees' newest posts turned ascending, own posts likewise when cached, and the document is inserted unless one exists |
| FeedCache.ContentCache.GetCacheDocument | src/main/java/com/mongodb/socialite/feed/ContentCache.java:147-176 | the two copying loops build the document the reference definition describes: the last read document, or the filtered timeline followed by the filtered own posts |
| FanoutOnReadFeed.FanoutOnRead.constructor | src/main/java/com/mongodb/socialite/feed/FanoutOnRead.java:27-32 | the feed keeps the user and content services and the fan-out limit it was given |
| FanoutOnReadFeed.FanoutOnRead.Post | src/main/java/com/mongodb/socialite/feed/FanoutOnRead.java:34-37 | posting stores nothing: neither service changes |
| FanoutOnReadFeed.FanoutOnRead.GetPostsBy | src/main/java/com/mongodb/socialite/feed/FanoutOnRead.java:39-42 | a user's posts are exactly the author's page from the content service, future anchors allowed |
| FanoutOnReadFeed.FanoutOnRead.GetFeedFor | src/main/java/com/mongodb/socialite/feed/FanoutOnRead.java:44-48 | fails (a null dereference) exactly when the reader has no followee set; otherwise the merged page over some listing of every followee's posts |
| FanoutOnReadFeed.FanoutOnRead.GetLatestPostsBy | src/main/java/com/mongodb/socialite/feed/FanoutOnRead.java:55-58 | the unanchored read of the author's own page |
| FanoutOnReadFeed.FanoutOnRead.GetLatestFeedFor | src/main/java/com/mongodb/socialite/feed/FanoutOnRead.java:60-63 | the unanchored merged page of the reader's followees, failing exactly when there is no followee set |
| FanoutToCache.FanoutOnWriteToCache.constructor | src/main/java/com/mongodb/socialite/feed/CachedFeedService.java:17-26 | the feed keeps its services, configuration and collection, and builds its filter from the configuration's three cache flags (FanoutOnWriteToCache.java:29-37) |
| FanoutToCache.FanoutOnWriteToCache.Post | src/main/java/com/mongodb/socialite/feed/FanoutOnWriteToCache.java:39-56 | the post is filtered once; it is pushed, capped, onto the sender's own-posts array (creating the document) when own posts are cached, then onto the timeline of every follower who has a document; a sender without a follower set fails after the own-posts push |
| FanoutToCache.FanoutOnWriteToCache.GetPostsBy | src/main/java/com/mongodb/socialite/feed/FanoutOnWriteToCache.java:63-81 | `PostsAnswer`: without own-post caching, the author's page and nothing written; with it, the stored own-posts array's cached page or else the author's page, nothing written; with no such array, a failure exactly when the user has no followee set, otherwise the rebuilt own posts' cached page or else the author's page, with the document of some rebuilt timeline inserted unless the user has one; a cold unanchored read is the author's own page |
| FanoutToCache.FanoutOnWriteToCache.GetFeedFor | src/main/java/com/mongodb/socialite/feed/FanoutOnWriteToCache.java:88-103 | `FeedAnswer`: with a stored timeline array, its cached page, else the merged page over some listing of the followees (a null dereference without a followee set), nothing written; with none, a failure with nothing written exactly when there is no followee set, otherwise some rebuilt timeline is inserted as a document unless the user has one and its cached page is the answer, else the merged page; a cold unanchored read is a merged page of the content service |
| FanoutToCache.FanoutOnWriteToCache.GetLatestPostsBy | src/main/java/com/mongodb/socialite/feed/FanoutOnWriteToCache.java:58-61 | `PostsAnswer` of the unanchored read: every case of `getPostsBy` with no anchor; a cold read is the author's own page |
| FanoutToCache.FanoutOnWriteToCache.GetLatestFeedFor | src/main/java/com/mongodb/socialite/feed/FanoutOnWriteToCache.java:83-86 | `FeedAnswer` of the unanchored read: every case of `getFeedFor` with no anchor; a cold read is exactly a merged page of the content service |
| FanoutToCache.FanoutOnWriteToCache.GetCacheForUser | src/main/java/com/mongodb/socialite/feed/FanoutOnWriteToCache.java:110-113 | a new, empty cache object on each call, sharing the feed's collection, services, filter and configuration |
| FanoutToCache.FanoutOnWriteToCache.FanoutContent | src/main/java/com/mongodb/socialite/feed/FanoutOnWriteToCache.java:115-133 | the id-collecting loop gathers every follower's id, and the one update pushes the post, capped as `pushContentToCache` caps it, onto exactly those owners' existing timelines |
| BucketRead.DrainNewestFirst | src/main/java/com/mongodb/socialite/feed/FanoutOnWriteSizedBuckets.java:97-118 | the bucket loop returns exactly the first `limit` items of the read order: newest bucket first, each from its last item back |
| BucketRead.DrainBucket | src/main/java/com/mongodb/socialite/feed/FanoutOnWriteSizedBuckets.java:107-112 | the inner loop appends one bucket's items from its last back, stopping once `limit` items are held |
| BucketRead.ReadOrderPush | src/main/java/com/mongodb/socialite/feed/FanoutOnWriteSizedBuckets.java:103-132 | an item appended to the newest bucket is the first item read; the rest of the read is unchanged |
| BucketRead.ReadOrderEmptyGroup | src/main/java/com/mongodb/socialite/feed/FanoutOnWriteSizedBuckets.java:103-150 | an empty newest bucket changes nothing a read returns |
| SizedBuckets.PushKeepsFilled | src/main/java/com/mongodb/socialite/feed/FanoutOnWriteSizedBuckets.java:126-140 | a push keeps an owner's buckets well filled: counters match arrays, every older bucket holds exactly `bucket_size` items and the newest fewer |
| SizedBuckets.PushReadsFirst | src/main/java/com/mongodb/socialite/feed/FanoutOnWriteSizedBuckets.java:126-140 | a pushed post is the first item the next read returns, followed by everything read before, whether or not a new bucket opens |
| SizedBuckets.PushAllReadsNewestFirst | src/main/java/com/mongodb/socialite/feed/FanoutOnWriteSizedBuckets.java:95-140 | whatever the bucket size, posts delivered one by one to a follower are read back in exactly the reverse order of delivery |
| SizedBuckets.PushAllFilled | src/main/java/com/mongodb/socialite/feed/FanoutOnWriteSizedBuckets.java:126-150 | after one or more deliveries an owner's buckets are well filled |
| SizedBuckets.FanoutKeys | src/main/java/com/mongodb/socialite/feed/FanoutOnWriteSizedBuckets.java:59-135 | after a fan-out an owner has buckets exactly when it had them before or was a recipient |
| SizedBuckets.FanoutKeepsFilled | src/main/java/com/mongodb/socialite/feed/FanoutOnWriteSizedBuckets.java:59-61 | a fan-out keeps every owner's buckets well filled |
| SizedBuckets.FanoutDeliversOnce | src/main/java/com/mongodb/socialite/feed/FanoutOnWriteSizedBuckets.java:59-61 | a recipient listed once reads the post first, followed by its old feed |
| SizedBuckets.FanoutUntouched | src/main/java/com/mongodb/socialite/feed/FanoutOnWriteSizedBuckets.java:59-61 | an owner not listed keeps its buckets as they were |
| BucketRead.OwnerIds | src/main/java/com/mongodb/socialite/feed/FanoutOnWriteSizedBuckets.java:59-128 | the ids a fan-out addresses (sized buckets here, time buckets at FanoutOnWriteTimeBuckets.java:72-159) are the recipients' user ids, one per recipient, in listing order |
| SizedBuckets.PostReachesFollower | src/main/java/com/mongodb/socialite/feed/FanoutOnWriteSizedBuckets.java:51-119 | a follower listed once finds a new post at the head of any positive read, followed by what that read returned before, one shorter |
| SizedBuckets.FanoutOnWriteSizedBuckets.constructor | src/main/java/com/mongodb/socialite/feed/FanoutOnWriteSizedBuckets.java:39-49 | a new feed has no buckets, keeps its services and configuration, and builds its filter from the three cache flags (CachedFeedService.java:24-25) |
| SizedBuckets.FanoutOnWriteSizedBuckets.Post | src/main/java/com/mongodb/socialite/feed/FanoutOnWriteSizedBuckets.java:51-62 | keeps the buckets well filled; fails with nothing written exactly when the sender has no follower set; otherwise the filtered post is pushed once into the buckets of each follower |
| SizedBuckets.FanoutOnWriteSizedBuckets.PushContentToFixedBucket | src/main/java/com/mongodb/socialite/feed/FanoutOnWriteSizedBuckets.java:126-140 | the recipient's newest bucket (or a first upserted one) gets the post and a counter one higher; an empty bucket follows once the counter reaches `bucket_size`; no other owner changes |
| SizedBuckets.FanoutOnWriteSizedBuckets.CreateNewBucket | src/main/java/com/mongodb/socialite/feed/FanoutOnWriteSizedBuckets.java:143-150 | an empty bucket with counter 0 is added after the owner's others |
| SizedBuckets.FanoutOnWriteSizedBuckets.GetLatestFeedFor | src/main/java/com/mongodb/socialite/feed/FanoutOnWriteSizedBuckets.java:94-119 | a negative limit is refused (the list capacity); otherwise the newest `limit` items of the reader's buckets in read order |
| SizedBuckets.FanoutOnWriteSizedBuckets.GetFeedFor | src/main/java/com/mongodb/socialite/feed/FanoutOnWriteSizedBuckets.java:75-84 | an anchored read fails with NOT_IMPLEMENTED and the pagination reason; an unanchored read is the two-argument read |
| SizedBuckets.FanoutOnWriteSizedBuckets.GetLatestPostsBy | src/main/java/com/mongodb/socialite/feed/FanoutOnWriteSizedBuckets.java:86-92 | a user's posts are the content service's unanchored page for the author |
| SizedBuckets.FanoutOnWriteSizedBuckets.GetPostsBy | src/main/java/com/mongodb/socialite/feed/FanoutOnWriteSizedBuckets.java:64-73 | an anchored read fails with NOT_IMPLEMENTED and the pagination reason; an unanchored read is the author's page |
| TimeBuckets.Int32 | src/main/java/com/mongodb/socialite/feed/FanoutOnWriteTimeBuckets.java:49 | the `int` product is the true product wrapped into 32-bit two's complement: in range and congruent modulo 2^32 |
| TimeBuckets.JavaRem | src/main/java/com/mongodb/socialite/feed/FanoutOnWriteTimeBuckets.java:156 | Java's `%`: in [0, abs(b)) for a dividend of 0 or more, in (-abs(b), 0] below, and `(a / b) * b + a % b == a` with `/` truncating toward zero |
| TimeBuckets.BucketKeyInRange | src/main/java/com/mongodb/socialite/feed/FanoutOnWriteTimeBuckets.java:156 | a creation second of 0 or more with a positive span gets a key in [0, span) |
| TimeBuckets.BucketKey | src/main/java/com/mongodb/socialite/feed/FanoutOnWriteTimeBuckets.java:156 | a zero span is a division by zero; otherwise the key is the Java remainder of the creation second by the span: the second is the truncated quotient times the span plus the key, and the key lies in [0, abs(span)) for a second of 0 or more and in (-abs(span), 0] below |
| TimeBuckets.FanoutOnWriteTimeBuckets.KeyOf | src/main/java/com/mongodb/socialite/feed/FanoutOnWriteTimeBuckets.java:155-156 | a post's bucket key fails exactly for a zero span and is otherwise the remainder of its creation second by the configured span, in [0, abs(span)) for a second of 0 or more |
| TimeBuckets.SpanEdgeKeys | src/main/java/com/mongodb/socialite/feed/FanoutOnWriteTimeBuckets.java:156 | the last second of a span keeps its number as key and the first second of the next span gets key 0 |
| TimeBuckets.WrappedKeyReadsOlderFirst | src/main/java/com/mongodb/socialite/feed/FanoutOnWriteTimeBuckets.java:123-162 | because the key is a remainder, a post made at a span boundary lands below the post made one second before, and a read returns the older post first |
| TimeBuckets.PushField | src/main/java/com/mongodb/socialite/feed/FanoutOnWriteTimeBuckets.java:160 | `$push` appends the item to the named array, creating it if absent, and leaves the key and the other array alone |
| TimeBuckets.UpsertSpec | src/main/java/com/mongodb/socialite/feed/FanoutOnWriteTimeBuckets.java:155-162 | the upsert keeps an owner's buckets in key order, gives the key's bucket (created when missing) the item at the end of the named array, and leaves every other key's bucket as it was |
| TimeBuckets.FindAbsent | src/main/java/com/mongodb/socialite/feed/FanoutOnWriteTimeBuckets.java:158-161 | no bucket is found for a key above every existing key, so the upsert inserts one |
| TimeBuckets.UpsertBelow | src/main/java/com/mongodb/socialite/feed/FanoutOnWriteTimeBuckets.java:155-162 | an upsert under a bound keeps every key under it |
| TimeBuckets.ArraysSnoc | src/main/java/com/mongodb/socialite/feed/FanoutOnWriteTimeBuckets.java:137-147 | the newest bucket's array is read as the last group, after all older buckets' arrays |
| TimeBuckets.NewestKeyReadsFirst | src/main/java/com/mongodb/socialite/feed/FanoutOnWriteTimeBuckets.java:123-162 | while keys do not decrease, a pushed item is the first item the next read returns, followed by what was read before |
| TimeBuckets.NewKeyReadsFirst | src/main/java/com/mongodb/socialite/feed/FanoutOnWriteTimeBuckets.java:137-161 | an item that opens a bucket above every key is read first |
| TimeBuckets.SameKeyReadsFirst | src/main/java/com/mongodb/socialite/feed/FanoutOnWriteTimeBuckets.java:137-161 | an item pushed onto the bucket with the highest key is read first |
| TimeBuckets.OtherArrayUnchanged | src/main/java/com/mongodb/socialite/feed/FanoutOnWriteTimeBuckets.java:137-161 | a push into one array (feed or own posts) leaves every read of the other array as it was |
| TimeBuckets.NewBucketOtherEmpty | src/main/java/com/mongodb/socialite/feed/FanoutOnWriteTimeBuckets.java:141-161 | a bucket created by a push into one array adds nothing to a read of the other, whose absent array counts as empty |
| TimeBuckets.PushFieldOtherSame | src/main/java/com/mongodb/socialite/feed/FanoutOnWriteTimeBuckets.java:141-160 | pushing into one array of the newest bucket leaves a read of the other array as it was |
| TimeBuckets.SameReadBelow | src/main/java/com/mongodb/socialite/feed/FanoutOnWriteTimeBuckets.java:137-147 | bucket runs that read alike still read alike below the same newest bucket |
| TimeBuckets.LowerKeyBucketFirst | src/main/java/com/mongodb/socialite/feed/FanoutOnWriteTimeBuckets.java:155-162 | two posts upserted under a higher and then a lower key end up in two buckets, the lower key's first |
| TimeBuckets.ReadTwoGroups | src/main/java/com/mongodb/socialite/feed/FanoutOnWriteTimeBuckets.java:137-147 | two one-item buckets read back higher key first |
| TimeBuckets.FanoutKeepsAscending | src/main/java/com/mongodb/socialite/feed/FanoutOnWriteTimeBuckets.java:71-74 | a fan-out keeps every owner's buckets in key order |
| TimeBuckets.UpsertKeepsAllAscending | src/main/java/com/mongodb/socialite/feed/FanoutOnWriteTimeBuckets.java:155-162 | one owner's upsert keeps every owner's buckets in key order |
| TimeBuckets.FanoutOnWriteTimeBuckets.constructor | src/main/java/com/mongodb/socialite/feed/FanoutOnWriteTimeBuckets.java:44-59 | a new feed has no buckets; its span is `bucket_timespan_days` days in seconds with `int` wrap-around, and its filter comes from the three cache flags (CachedFeedService.java:24-25) |
| TimeBuckets.FanoutOnWriteTimeBuckets.PushContentToTimeBucket | src/main/java/com/mongodb/socialite/feed/FanoutOnWriteTimeBuckets.java:155-162 | fails with a division by zero, changing nothing, exactly when the span is 0; otherwise the recipient's buckets get the upsert-push under the post's key and no other owner changes |
| TimeBuckets.FanoutOnWriteTimeBuckets.Post | src/main/java/com/mongodb/socialite/feed/FanoutOnWriteTimeBuckets.java:61-75 | keeps buckets in key order; pushes the filtered post into the sender's own-posts array when bucketed, then into every follower's feed array; fails when the sender has no follower set (after the own-posts push), and on a zero span at the first push attempted |
| TimeBuckets.FanoutOnWriteTimeBuckets.PushToFollowers | src/main/java/com/mongodb/socialite/feed/FanoutOnWriteTimeBuckets.java:72-74 | the follower loop pushes into every recipient's feed array in listing order, or fails at the first recipient on a zero span, writing nothing |
| TimeBuckets.FanoutOnWriteTimeBuckets.GetContentFromBuckets | src/main/java/com/mongodb/socialite/feed/FanoutOnWriteTimeBuckets.java:123-153 | a negative limit is refused (the list capacity); otherwise the newest `limit` items of the named arrays, highest key first and each array from its end, an absent array counting as empty |
| TimeBuckets.FanoutOnWriteTimeBuckets.GetLatestFeedFor | src/main/java/com/mongodb/socialite/feed/FanoutOnWriteTimeBuckets.java:113-116 | the read of the reader's feed arrays |
| TimeBuckets.FanoutOnWriteTimeBuckets.GetFeedFor | src/main/java/com/mongodb/socialite/feed/FanoutOnWriteTimeBuckets.java:88-97 | an anchored read fails with NOT_IMPLEMENTED and the pagination reason; an unanchored one reads the feed arrays |
| TimeBuckets.FanoutOnWriteTimeBuckets.GetLatestPostsBy | src/main/java/com/mongodb/socialite/feed/FanoutOnWriteTimeBuckets.java:99-111 | own posts come from the own-posts arrays when bucketed, else from the content service's page for the author |
| TimeBuckets.FanoutOnWriteTimeBuckets.GetPostsBy | src/main/java/com/mongodb/socialite/feed/FanoutOnWriteTimeBuckets.java:77-86 | an anchored read fails with NOT_IMPLEMENTED and the pagination reason; an unanchored one is the two-argument read |
| RecoveryRecords.FromId | src/main/java/com/mongodb/socialite/async/AsyncTaskType.java:17-22 | a type exactly for id 0; null for every other id |
| RecoveryRecords.TypeId | src/main/java/com/mongodb/socialite/async/AsyncTaskType.java:5-22 | `fromId(t.id())` is `t` for every task type |
| RecoveryRecords.TypeIdInvertsFromId | src/main/java/com/mongodb/socialite/async/AsyncTaskType.java:5-22 | whatever type `fromId` returns has the id it was asked for |
| RecoveryRecords.NewRecord | src/main/java/com/mongodb/socialite/async/RecoveryRecord.java:30-41 | a new record keeps its id, type, priority and payload, is stamped now and unclaimed; any recovery pass of its type that allows a failure may pick it up, and no timeout can catch it |
| RecoveryRecords.Apply | src/main/java/com/mongodb/socialite/async/RecoveryRecord.java:87-108 | each update keeps the identity, type, priority and payload, stamps the clock, adds exactly one to the failure count only when it marks a failure, and never leaves the record COMPLETE or DEAD |
| RecoveryRecords.ApplyAllCounts | src/main/java/com/mongodb/socialite/async/RecoveryRecord.java:87-108 | after any history of updates the failure count has grown by exactly the number of failures, and identity, type, priority and payload are unchanged |
| RecoveryRecords.ApplyAllNeverRetires | src/main/java/com/mongodb/socialite/async/RecoveryRecord.java:87-108 | no history of updates brings a live record to COMPLETE or DEAD |
| RecoveryRecords.ExhaustedNeverEligible | src/main/java/com/mongodb/socialite/async/RecoveryRecord.java:87-120 | a record that has used up its failures is never eligible again, whatever updates follow: DEAD (AsyncTaskState.java:9) is never written, so the count is the only way out |
| RecoveryRecords.EligibleAndTimedOutDisjoint | src/main/java/com/mongodb/socialite/async/RecoveryRecord.java:110-132 | the eligible query and the timed-out query never select the same record |
| RecoveryRecords.ClaimedNotReclaimable | src/main/java/com/mongodb/socialite/async/RecoveryRecord.java:102-132 | a record just claimed at a given instant matches neither recovery query at that instant, for any timeout of 0 or more |
| RecoveryRecords.RecoveryRecord.constructor | src/main/java/com/mongodb/socialite/async/RecoveryRecord.java:30-41 | the object's document is the new AVAILABLE record |
| RecoveryRecords.RecoveryRecord.FromDocument | src/main/java/com/mongodb/socialite/async/RecoveryRecord.java:26-28 | the object wraps the document read back |
| RecoveryRecords.RecoveryRecord.MarkAsProcessing | src/main/java/com/mongodb/socialite/async/RecoveryRecord.java:43-47 | the in-memory document becomes PROCESSING under the signature, with its clock and failure count left alone |
| AsyncTasks.PostData | src/main/java/com/mongodb/socialite/async/AsyncPostTask.java:27-32 | a post task's payload holds exactly two keys, the sender's id and the content's id |
| AsyncTasks.UserFromRecord | src/main/java/com/mongodb/socialite/async/AsyncPostTask.java:48-51 | a record without a payload dereferences null; a user read back is bare and carries exactly the stored sender id string |
| AsyncTasks.ContentIdFromRecord | src/main/java/com/mongodb/socialite/async/AsyncPostTask.java:53-56 | a record without a payload dereferences null; a content id read back has no author and exactly the stored ObjectId |
| AsyncTasks.PostDataRoundTrip | src/main/java/com/mongodb/socialite/async/AsyncPostTask.java:27-56 | a post task's payload reads back as its sender's id and its content's id: the recovery record round-trips the post's identity |
| AsyncTasks.RecoverableAsyncTask.Post | src/main/java/com/mongodb/socialite/async/AsyncPostTask.java:19-23 | a post task is of type FEED_POST_FANOUT and holds no record yet |
| AsyncTasks.RecoverableAsyncTask.Replay | src/main/java/com/mongodb/socialite/async/AsyncReplayTask.java:7-10 | a replay task's type is looked up from the record's type id, and it holds that record from the start |
| AsyncTasks.RecoverableAsyncTask.GetPriority | src/main/java/com/mongodb/socialite/async/AsyncPostTask.java:35-37 | PRIORITY_NORMAL for a post task; the stored priority for a replay task (AsyncReplayTask.java:28-30) |
| AsyncTasks.RecoverableAsyncTask.BuildRecoveryData | src/main/java/com/mongodb/socialite/async/AsyncReplayTask.java:23-25 | the stored payload for a replay task; the sender and content ids for a post task (AsyncPostTask.java:27-32) |
| AsyncTasks.RecoverableAsyncTask.SynchronousOnReject | src/main/java/com/mongodb/socialite/async/AsyncReplayTask.java:18-20 | true exactly for a replay task; the base class answers false (RecoverableAsyncTask.java:44) |
| AsyncTasks.RecoverableAsyncTask.Run | src/main/java/com/mongodb/socialite/async/RecoverableAsyncTask.java:21-25 | a post task hands itself to the worker; a replay task hands over its record (AsyncReplayTask.java:13-15) |
| AsyncTasks.RecoverableAsyncTask.GetRecoveryRecord | src/main/java/com/mongodb/socialite/async/RecoverableAsyncTask.java:27-40 | the record held, or on the first call a new record of the task's type, priority and payload, kept and answered from then on; a replay task's record is never rebuilt |
| AsyncTasks.PostTaskRecord | src/main/java/com/mongodb/socialite/async/RecoverableAsyncTask.java:34-40 | a post task's first record is a FEED_POST_FANOUT record of normal priority, AVAILABLE, never failed, carrying the post's payload |
| AsyncTaskService.ExecutorFor | src/main/java/com/mongodb/socialite/async/DefaultAsyncService.java:62-68 | no executor exactly when the thread count is 0 or below; otherwise a pool of that many threads whose queue is a hand-off exactly when the configured size is 0 or below, and a bounded queue of that size otherwise (lines 265-279) |
| AsyncTaskService.Oldest | src/main/java/com/mongodb/socialite/async/DefaultAsyncService.java:115-135 | the sort by ascending id: the matching document with the smallest id, and none exactly when nothing matches |
| AsyncTaskService.FindOneAndUpdate | src/main/java/com/mongodb/socialite/async/DefaultAsyncService.java:185-218 | without upsert: the oldest match is updated in place and returned; nothing matches, nothing changes |
| AsyncTaskService.UpdateKeepsIds | src/main/java/com/mongodb/socialite/async/DefaultAsyncService.java:185-218 | an update by query keeps every id, so the id index stays unique and the same ids are stored |
| AsyncTaskService.DeleteOne | src/main/java/com/mongodb/socialite/async/DefaultAsyncService.java:207 | deleting by id removes one document when one has the id and otherwise leaves the collection as it was; nothing new appears |
| AsyncTaskService.DeleteOneRemovesExactly | src/main/java/com/mongodb/socialite/async/DefaultAsyncService.java:201-208 | with unique ids, completing a task removes exactly the documents with its id and keeps the rest, ids still unique |
| AsyncTaskService.UniqueTail | src/main/java/com/mongodb/socialite/async/DefaultAsyncService.java:160-207 | the tail of an id-unique collection is id-unique and holds nothing with the head's id |
| AsyncTaskService.UniqueCons | src/main/java/com/mongodb/socialite/async/DefaultAsyncService.java:160 | a document put before an id-unique collection lacking its id keeps the collection id-unique |
| AsyncTaskService.ClaimSpec | src/main/java/com/mongodb/socialite/async/DefaultAsyncService.java:105-146 | the claim, as intended: nothing is claimed exactly when no record is timed out or eligible, and then nothing changes; otherwise one such record is stamped PROCESSING under this signature at this instant, the others are untouched, ids stay unique, and the claimable count drops by one |
| AsyncTaskService.CountDropsByOne | src/main/java/com/mongodb/socialite/async/DefaultAsyncService.java:105-146 | replacing a claimable record by one that is not lowers the claimable count by exactly one |
| AsyncTaskService.StampedNotClaimable | src/main/java/com/mongodb/socialite/async/DefaultAsyncService.java:114-128 | a record a claim has just stamped cannot be claimed again at the same instant |
| AsyncTaskService.NoneClaimableCountsZero | src/main/java/com/mongodb/socialite/async/DefaultAsyncService.java:105-146 | with nothing claimable, the claimable count is 0 |
| AsyncTaskService.ClaimIndex | src/main/java/com/mongodb/socialite/async/DefaultAsyncService.java:109-136 | a claim that found a record took it from a place where a claimable record stood, timed-out ones first, and kept ids unique |
| AsyncTaskService.ClaimNothing | src/main/java/com/mongodb/socialite/async/DefaultAsyncService.java:109-145 | a claim that found nothing saw nothing claimable and changed nothing |
| AsyncTaskService.UpsertingFindOneAndUpdate | src/main/java/com/mongodb/socialite/async/DefaultAsyncService.java:115-135 | with upsert, a query with no match appends an invented document under the new id, without payload |
| AsyncTaskService.UpsertClaimNeverEmpty | src/main/java/com/mongodb/socialite/async/DefaultAsyncService.java:115-145 | the claim as written never comes back empty: with nothing to recover it stores and returns an invented PROCESSING record without payload; with a timeout configured it is always the timed-out query's upsert, so eligible records are never reached |
| AsyncTaskService.DefaultAsyncService.constructor | src/main/java/com/mongodb/socialite/async/DefaultAsyncService.java:47-79 | the signature is the configured one, or the runtime's name when it is empty; an executor exists exactly when threads are configured; a recovery timer exactly when there is an executor and the poll time is 0 or more |
| AsyncTaskService.DefaultAsyncService.SubmitTask | src/main/java/com/mongodb/socialite/async/DefaultAsyncService.java:149-173 | the task's record, marked PROCESSING under this signature when an executor exists, is written; a write refused (a stored id, or no acknowledgement) fails with CANNOT_WRITE_RECOVERY_RECORD and the task is not handed on; otherwise the record is stored and the task goes to the executor when there is one |
| AsyncTaskService.DefaultAsyncService.TaskComplete | src/main/java/com/mongodb/socialite/async/DefaultAsyncService.java:201-208 | the task's record, and only it, is deleted |
| AsyncTaskService.DefaultAsyncService.TaskFailed | src/main/java/com/mongodb/socialite/async/DefaultAsyncService.java:210-219 | the task's record is marked FAILED at this instant with one more failure counted |
| AsyncTaskService.DefaultAsyncService.TaskRejected | src/main/java/com/mongodb/socialite/async/DefaultAsyncService.java:176-199 | with rejected tasks persisted and a task that does not insist on running, its record goes back to AVAILABLE; otherwise the task runs inline and is then counted complete (deleted) or failed, as AsyncTaskExecutor.java:29-37 reports it, and with no executor the report dereferences null |
| AsyncTaskService.DefaultAsyncService.RegisterRecoveryService | src/main/java/com/mongodb/socialite/async/DefaultAsyncService.java:221-229 | one task type and one worker, replacing any earlier registration; the collection is untouched |
| AsyncTaskService.DefaultAsyncService.GetTaskToRecover | src/main/java/com/mongodb/socialite/async/DefaultAsyncService.java:105-146 | the two queries, timed-out first when a timeout is configured, compute the claim |
| AsyncTaskService.DefaultAsyncService.RecoverTasks | src/main/java/com/mongodb/socialite/async/DefaultAsyncService.java:82-103 | without a timer the synchronized block dereferences null and, like a service with no worker, changes nothing; otherwise the records replayed and the collection left are the `RecoveryPass` of the old collection: exactly the claimable records are stamped PROCESSING under this signature at this instant, the replayed records are those stamped records once each, nothing claimable is left, and the executor receives, after the tasks it had, one replay task of the worker per replayed record, in claim order |
| AsyncTaskService.DefaultAsyncService.ReplayClaimed | src/main/java/com/mongodb/socialite/async/DefaultAsyncService.java:85-93 | the claim loop: the records replayed and the collection left are the recovery pass of the collection, and the tasks dispatched after the old ones are replay tasks of the worker for the replayed records, one each and in order |
| AsyncTaskService.DefaultAsyncService.ReplayAndClaim | src/main/java/com/mongodb/socialite/async/DefaultAsyncService.java:87-93 | one turn: a replay task of the worker for the claimed record is appended to what the executor received, then the next claim is made on the collection |
| AsyncTaskService.RecoveryPassSpec | src/main/java/com/mongodb/socialite/async/DefaultAsyncService.java:82-146 | a recovery pass stamps exactly the claimable records PROCESSING and leaves the others as they were; it replays each stamped record once (the same multiset), as many as were claimable, keeps ids unique and leaves nothing claimable |
| AsyncTaskService.PassFromClaim | src/main/java/com/mongodb/socialite/async/DefaultAsyncService.java:85-93 | a recovery pass is one claim followed by the pass over what it left, and a claim that finds a record uses up one claimable record |
| AsyncTaskService.DefaultAsyncService.IsProcessingLocally | src/main/java/com/mongodb/socialite/async/DefaultAsyncService.java:281-283 | tasks are processed here exactly when a positive thread count was configured (so an executor was created) |
| PostDelivery.AsyncPostDelivery.constructor | src/main/java/com/mongodb/socialite/async/AsyncPostDelivery.java:37-47 | the wrapper keeps its services and registers itself as the worker for FEED_POST_FANOUT tasks, leaving the collection and the executor alone |
| PostDelivery.AsyncPostDelivery.Queues | src/main/java/com/mongodb/socialite/async/AsyncPostDelivery.java:73-83 | with no threshold every post is queued without looking at the sender; otherwise a post is queued exactly when the sender has more followers than the threshold, and a sender without a follower set dereferences null |
| PostDelivery.AsyncPostDelivery.Post | src/main/java/com/mongodb/socialite/async/AsyncPostDelivery.java:69-86 | below the threshold the wrapped service's post is called with the same sender and content and nothing is written; otherwise a FEED_POST_FANOUT record of normal priority carrying the post is written (marked PROCESSING when an executor exists) and the task goes to the executor, or the write fails with CANNOT_WRITE_RECOVERY_RECORD |
| PostDelivery.AsyncPostDelivery.HandleRecord | src/main/java/com/mongodb/socialite/async/AsyncPostDelivery.java:49-60 | the wrapped post gets the sender and the content looked up by the id rebuilt from the record; a record without payload or without a content id fails |
| PostDelivery.AsyncPostDelivery.HandleTask | src/main/java/com/mongodb/socialite/async/AsyncPostDelivery.java:62-66 | a post task's own sender and content go to the wrapped post; any other task fails the cast |
| PostDelivery.ReplayDeliversSamePost | src/main/java/com/mongodb/socialite/async/AsyncPostDelivery.java:49-66 | delivered from its recovery record, a post reaches the wrapped service as it would from its task: same sender id and the same content, once that content is stored under its id |
| PostDelivery.QueuedPostMatchesDirect | src/main/java/com/mongodb/socialite/async/AsyncPostDelivery.java:62-86 | a queued post task, when run, hands the wrapped service exactly the sender and content a direct post would have |

## Left out

- **MongoDB.**
  - Collections are modelled as sequences or maps of documents.
  - `$push` with `$slice`, `$inc`, upsert, `findOneAndUpdate` and `deleteOne` are modelled by their documented effect, not by the driver.
  - The database-backed user and content services are not part of this model.
  - Indexes are not modelled. Where a query's order comes from an index, each owner's buckets are kept in key order instead.
- **Write failures.** A failed write of a recovery record is the `acknowledged` parameter of `SubmitTask`. A duplicate key is the only other failure modelled.
- **Clock and ids.**
  - `new Date()` is the `now` parameter; one recovery pass uses a single `now`.
  - `new ObjectId()` is the `newId` parameter.
  - The creation second inside an ObjectId is the `secondOf` parameter.
  - Content ids are natural numbers whose order stands for ObjectId order.
- **Concurrency.** The executor's thread pool, the recovery timer and its `synchronized` block, `shutdown` and `awaitTermination` are not modelled, and neither are the blocking work queue or thread safety. `DefaultAsyncService` is reduced to the choice of queue and to its effect on the recovery collection.
- **Framework wiring.** Reflective service construction, configuration lookup, REST resources, the command-line tools and the benchmark generators are not modelled. Configuration values are record fields; the shipped defaults are constants.
- **Data wrappers.** JSON and BSON documents are not modelled as such. A post is a datatype with an id, an optional author, an optional message and an optional data document.
- **Batch size.** `bucket_read_batch_size` is only a driver hint, so the bucket reads ignore it.
- **Unreachable branch.** `pushContentToFixedBucket`'s `result == null` branch cannot be reached after an upsert, so it is not modelled.
- **Updates by id.** They change the one document with that id, because ids are unique in every collection.
- **Upserted documents.** Their absent counters read as 0 and their absent fields as null.
- **Integer widths.**
  - The int overflow of a bucket's counter and of the failure count is not modelled.
  - `getTypeId`'s Short/Integer cast and `getPriority`'s cast are taken as exact.
  - The time span's Int32 wrap-around *is* modelled (`TimeBuckets.Int32`).
- **User service.**
  - `InMemoryUserService.UserStore.GetUserById` has no contract of its own. Its meaning is stated through `ValidateUser` and `GetOrCreateUserById`.
  - `getFollowers` and `getFollowing` ignore their limit, as the source does.
- **InMemoryContentService.ContentStore.PublishContent** requires the new id to exceed every stored id. ObjectIds are minted in increasing order, so every author's list stays ascending.
- **ContentListHelper.GetContentWalker** requires an ascending list when an anchor is given. `Collections.binarySearch` is defined only on sorted lists.
- **AsyncPostDelivery.**
  - The pass-through reads, `getConfiguration` and `shutdown` are not modelled.
  - The wrapped service's `post` is returned as a `PostCall` value, not performed.
- **PostDelivery.QueuedPostMatchesDirect** states that a queued post and a direct post reach the same wrapped call. It does not relate warm caches across the two paths.
- **FanoutToCache.FanoutOnWriteToCache.FanoutContent** ends in `PushToTimelines` and so sends the capped push described on the next line, not the update the source builds.
- **FeedCache.CacheCollection.PushToTimelines** models the fan-out update as the capped push `{$push: {timeline: {$each: [post], $slice: -limit}}}` that `pushContentToCache` sends (ContentCache.java:140-143). The fan-out itself builds its update with `pushToCappedArray` (MongoDBQueryHelpers.java:17-23), which pairs a `$push` with a `$pull` of `{$slice: -limit}` on the same array; the server refuses two operators on one path as a conflicting update, and FanoutOnWriteToCache.java:129-130 assigns the helpers' `Bson` results to `BasicDBObject` variables and hands them `BasicDBList`s where lists are expected, and :111-112 passes a `DBCollection` where `ContentCache` takes a `MongoCollection<Document>`; none of these compile. What that update would do is not captured; the model follows the capped push the code evidently intends.
- **AsyncTaskService.DefaultAsyncService.TaskRejected** reports the outcome of the inline run through `runThrew`, a parameter, because the task's body is not part of this model.

## Findings

| source | as written | input that shows it | evidently intended | confidence | as-written member | corrected member |
|---|---|---|---|---|---|---|
| src/main/java/com/mongodb/socialite/async/DefaultAsyncService.java:115-145 | both claim queries use `findOneAndUpdate` with `upsert(true)` | a recovery collection in which no record is timed out or eligible: the claim inserts a new PROCESSING record with no payload and returns it, so `recoverTasks` never sees null and the replay reads a missing payload | no upsert, so a claim that matches nothing returns null and leaves the collection unchanged | high; not executed | `AsyncTaskService.ClaimAsWritten`, `AsyncTaskService.UpsertClaimNeverEmpty` | `AsyncTaskService.Claim`, `AsyncTaskService.ClaimSpec` |
