/**
 * FanoutOnWriteToCache: the feed strategy that pushes each post, filtered,
 * onto the cached timeline of every follower who has a cache, and answers
 * reads from the reader's cache, falling back to the content service when
 * the cache cannot answer in full.
 */
module FanoutToCache {
  import opened Wrappers
  import opened Api
  import opened Seqs
  import opened FeedOrder
  import opened InMemoryUserService
  import opened InMemoryContentService
  import opened CacheFilter
  import opened FeedCache

  /** The owner ids a list of users is queried by. */
  function UserIds(users: seq<User>): set<Key> {
    set u | u in users :: u.userId
  }

  /** The documents after `item` was pushed onto the timeline of every listed follower, in some listing order. */
  ghost predicate FannedOut(docs: map<Key, CacheDoc>, before: map<Key, CacheDoc>, followers: set<User>, item: Content, limit: int) {
    exists listed :: Lists(listed, followers) && docs == FanoutPush(before, UserIds(listed), item, limit)
  }

  class FanoutOnWriteToCache {
    const cacheCollection: CacheCollection
    const config: CacheConfig
    const contentService: ContentStore
    const usergraphService: UserStore
    const cacheFilter: CacheContentFilter

    constructor (userGraph: UserStore, content: ContentStore, svcConfig: CacheConfig, cacheCollection: CacheCollection)
      ensures this.usergraphService == userGraph && this.contentService == content
      ensures this.config == svcConfig && this.cacheCollection == cacheCollection
      ensures cacheFilter.preserveKeys == KeysFor(svcConfig.cacheAuthor, svcConfig.cacheMessage, svcConfig.cacheData)
    {
      this.contentService := content;
      this.usergraphService := userGraph;
      this.cacheFilter := new CacheContentFilter(svcConfig.cacheAuthor, svcConfig.cacheMessage, svcConfig.cacheData);
      this.config := svcConfig;
      this.cacheCollection := cacheCollection;
    }

    /**
     * `post`: filter the post once; push it onto the sender's own-posts
     * array (creating the document) when own posts are cached; then push it
     * onto the timeline of every follower who has a cache document. A
     * sender without a follower set fails after the own-posts push.
     */
    method Post(sender: User, content: Content) returns (r: Outcome<Failure>)
      modifies cacheCollection
      ensures var item := cacheFilter.FilterContent(content);
        var own := if config.cacheUsersPosts
          then old(cacheCollection.docs)[sender.userId := Pushed(DocOf(old(cacheCollection.docs), sender.userId), Posts, item, config.cacheSizeLimit)]
          else old(cacheCollection.docs);
        && (r.Fail? <==> sender.userId !in usergraphService.followerIndex)
        && (r.Fail? ==> r.error == NullDereference && cacheCollection.docs == own)
        && (r.Pass? ==> FannedOut(cacheCollection.docs, own, usergraphService.followerIndex[sender.userId],
                                  item, config.cacheSizeLimit))
    {
      var cacheContent := cacheFilter.FilterContent(content);
      if config.cacheUsersPosts {
        var userCache := GetCacheForUser(sender);
        userCache.AddPost(cacheContent);
      }
      var followers := usergraphService.GetFollowers(sender, config.fanoutLimit);
      if followers.Failure? {
        return Fail(followers.error);
      }
      FanoutContent(followers.value, cacheContent);
      r := Pass;
    }

    /**
     * What `getPostsBy(user, anchor, limit)` answers and leaves in the
     * collection `before`: the content service's page when own posts are not
     * cached; otherwise the stored own-posts array's page, or, with no such
     * array, the page of the own posts a rebuild cached, each falling back to
     * the content service's page when the cache cannot answer in full. The
     * rebuild inserts a document of some rebuilt timeline unless the user has
     * one; a user without a followee set fails with nothing written.
     */
    ghost predicate PostsAnswer(r: Result<seq<Content>, Failure>, before: map<Key, CacheDoc>, user: User,
                                anchor: Option<ContentId>, limit: int)
      reads cacheCollection, contentService, usergraphService
    {
      var cap := config.cacheSizeLimit;
      var page := Extract(contentService.ListOf(user), anchor, limit, true);
      var stored := StoredIn(before, user.userId, Posts);
      if !config.cacheUsersPosts then
        r == Success(page) && cacheCollection.docs == before
      else if stored.Some? then
        r == Success(ResultsFromCacheSource(stored.value, anchor, limit, cap).GetOr(page)) && cacheCollection.docs == before
      else if user.userId !in usergraphService.followingIndex then
        r == Failure(NullDereference) && cacheCollection.docs == before
      else
        var posts := Reverse(Extract(contentService.ListOf(user), None, cap, true));
        && r == Success(ResultsFromCacheSource(posts, anchor, limit, cap).GetOr(page))
        && exists timeline ::
             && RebuiltTimeline(timeline, contentService.userContentLists, usergraphService.followingIndex[user.userId], cap)
             && cacheCollection.docs == Inserted(before, user.userId, CacheDocument(None, Some(timeline), Some(posts), cacheFilter).value)
    }

    /** A feed page: the cache's page when it has one, else some content-service page over the followees. */
    ghost predicate FeedPage(r: Result<seq<Content>, Failure>, cached: Option<seq<Content>>, user: User,
                             anchor: Option<ContentId>, limit: int)
      reads contentService, usergraphService
    {
      match cached
      case Some(page) => r == Success(page)
      case None =>
        if user.userId in usergraphService.followingIndex then
          r.Success? && FeedOver(r.value, contentService.userContentLists,
                                 usergraphService.followingIndex[user.userId], anchor, limit)
        else r == Failure(NullDereference)
    }

    /**
     * What `getFeedFor(user, anchor, limit)` answers and leaves in the
     * collection `before`: the page the stored timeline array gives, or with
     * no such array the page of a rebuilt timeline, whose document is
     * inserted unless the user has one; a user without a followee set fails
     * with nothing written.
     */
    ghost predicate FeedAnswer(r: Result<seq<Content>, Failure>, before: map<Key, CacheDoc>, user: User,
                               anchor: Option<ContentId>, limit: int)
      reads cacheCollection, contentService, usergraphService
    {
      var cap := config.cacheSizeLimit;
      var stored := StoredIn(before, user.userId, Timeline);
      var ownPosts := if config.cacheUsersPosts then Some(Reverse(Extract(contentService.ListOf(user), None, cap, true))) else None;
      if stored.Some? then
        FeedPage(r, ResultsFromCacheSource(stored.value, anchor, limit, cap), user, anchor, limit) && cacheCollection.docs == before
      else if user.userId !in usergraphService.followingIndex then
        r == Failure(NullDereference) && cacheCollection.docs == before
      else
        exists timeline ::
          && RebuiltTimeline(timeline, contentService.userContentLists, usergraphService.followingIndex[user.userId], cap)
          && cacheCollection.docs == Inserted(before, user.userId, CacheDocument(None, Some(timeline), ownPosts, cacheFilter).value)
          && FeedPage(r, ResultsFromCacheSource(timeline, anchor, limit, cap), user, anchor, limit)
    }

    /** `getPostsBy(user, anchor, limit)`: the own-posts cache when enabled, else or on a miss the content service. */
    method GetPostsBy(user: User, anchor: Option<ContentId>, limit: int) returns (r: Result<seq<Content>, Failure>)
      requires contentService.Valid()
      modifies cacheCollection
      ensures PostsAnswer(r, old(cacheCollection.docs), user, anchor, limit)
      ensures config.cacheUsersPosts && StoredIn(old(cacheCollection.docs), user.userId, Posts).None? && anchor.None? && r.Success? ==>
        r.value == Extract(contentService.ListOf(user), None, limit, true)
    {
      var result: Option<seq<Content>> := None;
      if config.cacheUsersPosts {
        var userCache := GetCacheForUser(user);
        var cached := userCache.GetPosts(anchor, limit);
        if cached.Failure? {
          return Failure(cached.error);
        }
        result := cached.value;
        if old(StoredIn(cacheCollection.docs, user.userId, Posts)).None? && anchor.None? {
          ColdPostsAgree(contentService.ListOf(user), config.cacheSizeLimit, limit);
        }
      }
      if result.None? {
        var page := contentService.GetContentFor(user, anchor, limit);
        result := Some(page);
      }
      r := Success(result.value);
    }

    /**
     * `getFeedFor(user, anchor, limit)`: the cached timeline when it can
     * answer, otherwise the content service over the user's followees. An
     * unanchored read from a user without a timeline array is what the
     * content service would answer.
     */
    method GetFeedFor(user: User, anchor: Option<ContentId>, limit: int) returns (r: Result<seq<Content>, Failure>)
      requires contentService.Valid()
      modifies cacheCollection
      ensures FeedAnswer(r, old(cacheCollection.docs), user, anchor, limit)
      ensures StoredIn(old(cacheCollection.docs), user.userId, Timeline).None? && anchor.None? && r.Success? ==>
        user.userId in usergraphService.followingIndex &&
        FeedOver(r.value, contentService.userContentLists, usergraphService.followingIndex[user.userId], None, limit)
    {
      var userCache := GetCacheForUser(user);
      var cached := userCache.GetTimeline(anchor, limit);
      if cached.Failure? {
        return Failure(cached.error);
      }
      if cached.value.Some? {
        if old(StoredIn(cacheCollection.docs, user.userId, Timeline)).None? && anchor.None? {
          var timeline := userCache.timelineCache.value;
          var following :| Lists(following, usergraphService.followingIndex[user.userId])
            && timeline == Reverse(MultiRead(contentService.userContentLists, following, None, config.cacheSizeLimit));
          ColdTimelineAgrees(contentService.userContentLists, following, config.cacheSizeLimit, limit);
        }
        return Success(cached.value.value);
      }
      var following := usergraphService.GetFollowing(user, config.fanoutLimit);
      if following.Failure? {
        return Failure(following.error);
      }
      var page := contentService.GetContentForUsers(following.value, anchor, limit);
      r := Success(page);
    }

    /** `getPostsBy(user, limit)`: no anchor. */
    method GetLatestPostsBy(user: User, limit: int) returns (r: Result<seq<Content>, Failure>)
      requires contentService.Valid()
      modifies cacheCollection
      ensures PostsAnswer(r, old(cacheCollection.docs), user, None, limit)
      ensures config.cacheUsersPosts && StoredIn(old(cacheCollection.docs), user.userId, Posts).None? && r.Success? ==>
        r.value == Extract(contentService.ListOf(user), None, limit, true)
    {
      r := GetPostsBy(user, None, limit);
    }

    /** `getFeedFor(user, limit)`: no anchor. */
    method GetLatestFeedFor(user: User, limit: int) returns (r: Result<seq<Content>, Failure>)
      requires contentService.Valid()
      modifies cacheCollection
      ensures FeedAnswer(r, old(cacheCollection.docs), user, None, limit)
      ensures StoredIn(old(cacheCollection.docs), user.userId, Timeline).None? && r.Success? ==>
        user.userId in usergraphService.followingIndex &&
        FeedOver(r.value, contentService.userContentLists, usergraphService.followingIndex[user.userId], None, limit)
    {
      r := GetFeedFor(user, None, limit);
    }

    /** `getCacheForUser`: a new cache object each time, so nothing is remembered between calls. */
    method GetCacheForUser(user: User) returns (cache: ContentCache)
      ensures fresh(cache)
      ensures cache.user == user && cache.cacheCollection == cacheCollection
      ensures cache.contentService == contentService && cache.userGraphService == usergraphService
      ensures cache.filter == cacheFilter && cache.config == config
      ensures cache.timelineCache.None? && cache.postCache.None? && cache.dbCache.None?
    {
      cache := new ContentCache(user, cacheCollection, contentService, usergraphService, cacheFilter, config);
    }

    /** `fanoutContent`: collect the followers' ids, then push to every matching cache in one update. */
    method FanoutContent(followers: seq<User>, content: Content)
      modifies cacheCollection
      ensures cacheCollection.docs == FanoutPush(old(cacheCollection.docs), UserIds(followers), content, config.cacheSizeLimit)
    {
      var followerIds: seq<Key> := [];
      var i := 0;
      while i < |followers|
        invariant 0 <= i <= |followers|
        invariant |followerIds| == i
        invariant forall j :: 0 <= j < i ==> followerIds[j] == followers[j].userId
      {
        followerIds := followerIds + [followers[i].userId];
        i := i + 1;
      }
      var owners := set k | k in followerIds;
      assert owners == UserIds(followers) by {
        forall k | k in UserIds(followers) ensures k in owners {
          var u :| u in followers && u.userId == k;
          var j :| 0 <= j < |followers| && followers[j] == u;
          assert followerIds[j] == k;
        }
      }
      cacheCollection.PushToTimelines(owners, content, config.cacheSizeLimit);
    }
  }
}
