/**
 * ContentCache: one user's cached timeline (`_c`) and own posts (`_p`),
 * each an ascending array capped at `cache_size_limit` entries and stored
 * as one document per user in the cache collection. A read is answered
 * from the cache when the cache can answer it in full; a user with no
 * cache document gets one rebuilt from the user and content services.
 */
module FeedCache {
  import opened Wrappers
  import opened Api
  import opened Seqs
  import opened FeedOrder
  import opened InMemoryUserService
  import opened InMemoryContentService
  import opened CacheFilter

  /** The FanoutOnWriteToCacheConfiguration fields the cache and its feed read. */
  datatype CacheConfig = CacheConfig(
    fanoutLimit: int,
    cacheSizeLimit: int,
    cacheUsersPosts: bool,
    cacheAuthor: bool,
    cacheMessage: bool,
    cacheData: bool)

  /** The configuration defaults: no fan-out limit, 50 cached items, own posts cached, every field kept. */
  const DefaultConfig := CacheConfig(0x7fff_ffff, 50, true, true, true, true)

  /** The two arrays of a cache document. */
  datatype Field = Timeline | Posts

  /** One user's cache document; an array the document lacks is None. */
  datatype CacheDoc = CacheDoc(timeline: Option<seq<Content>>, posts: Option<seq<Content>>) {
    function Get(field: Field): Option<seq<Content>> {
      if field == Timeline then timeline else posts
    }

    function Set(field: Field, value: seq<Content>): CacheDoc {
      if field == Timeline then this.(timeline := Some(value)) else this.(posts := Some(value))
    }

    /** The document as a query projecting onto one array returns it. */
    function Only(field: Field): CacheDoc {
      if field == Timeline then CacheDoc(timeline, None) else CacheDoc(None, posts)
    }
  }

  const EmptyDoc := CacheDoc(None, None)

  /** The document an owner has, or an empty one for an upsert to start from. */
  function DocOf(docs: map<Key, CacheDoc>, owner: Key): CacheDoc {
    if owner in docs then docs[owner] else EmptyDoc
  }

  /**
   * MongoDB's `$slice: n` inside a `$push`: nothing for 0, the last |n|
   * entries for a negative n, the first n entries for a positive n.
   */
  function Slice(a: seq<Content>, n: int): seq<Content> {
    if n == 0 then []
    else if n < 0 then (if -n >= |a| then a else a[|a| + n..])
    else (if n >= |a| then a else a[..n])
  }

  /** `$push: {field: {$each: [item], $slice: -limit}}` applied to one array. */
  function PushCapped(arr: Option<seq<Content>>, item: Content, limit: int): seq<Content> {
    Slice(arr.GetOr([]) + [item], -limit)
  }

  /** One document after a capped push into one of its arrays. */
  function Pushed(doc: CacheDoc, field: Field, item: Content, limit: int): CacheDoc {
    doc.Set(field, PushCapped(doc.Get(field), item, limit))
  }

  /**
   * With a positive cap, a push leaves the newest min(limit, n + 1) entries:
   * the new item last, preceded by the old array's newest entries in order;
   * an ascending array stays ascending when the item is newer than all.
   */
  lemma PushKeepsNewest(arr: seq<Content>, item: Content, limit: int)
    requires limit > 0
    ensures var r := PushCapped(Some(arr), item, limit);
      && |r| == Min(limit, |arr| + 1)
      && r[|r| - 1] == item
      && r[..|r| - 1] == arr[|arr| - (|r| - 1)..]
      && (Ascending(arr) && (forall c :: c in arr ==> c.id < item.id) ==> Ascending(r))
  {
    var a := arr + [item];
    var r := PushCapped(Some(arr), item, limit);
    if limit < |a| {
      assert r == a[|a| - limit..];
      assert r[..|r| - 1] == arr[|arr| - (|r| - 1)..];
    } else {
      assert r == a;
      assert r[..|r| - 1] == arr;
    }
    if Ascending(arr) && (forall c :: c in arr ==> c.id < item.id) {
      assert Ascending(a) by {
        forall i, j | 0 <= i < j < |a| ensures a[i].id < a[j].id {
          if j == |arr| {
            assert a[i] in arr;
          }
        }
      }
      AscendingSlice(a, |a| - |r|, |a|);
      assert a[|a| - |r|..|a|] == r;
    }
  }

  /**
   * The follower fan-out: one multi-document update without upsert, pushing
   * the item onto the timeline of every listed owner that has a document.
   */
  function FanoutPush(docs: map<Key, CacheDoc>, owners: set<Key>, item: Content, limit: int): map<Key, CacheDoc> {
    map k | k in docs :: if k in owners then Pushed(docs[k], Timeline, item, limit) else docs[k]
  }

  /**
   * The fan-out creates no document, leaves every unlisted owner's document
   * as it was, and pushes onto the timeline of every listed owner it finds.
   */
  lemma FanoutOnlyExisting(docs: map<Key, CacheDoc>, owners: set<Key>, item: Content, limit: int)
    ensures var after := FanoutPush(docs, owners, item, limit);
      && after.Keys == docs.Keys
      && (forall k :: k in docs && k !in owners ==> after[k] == docs[k])
      && (forall k :: k in docs && k in owners ==>
            after[k].posts == docs[k].posts && after[k].timeline == Some(PushCapped(docs[k].timeline, item, limit)))
  {
  }

  /** The array `field` of an owner's document, if both exist. */
  function StoredIn(docs: map<Key, CacheDoc>, owner: Key, field: Field): Option<seq<Content>> {
    if owner in docs then docs[owner].Get(field) else None
  }

  /** An owner's document as read back projected onto one array, if the owner has one. */
  function Projected(docs: map<Key, CacheDoc>, owner: Key, field: Field): Option<CacheDoc> {
    if owner in docs then Some(docs[owner].Only(field)) else None
  }

  /** The collection after `insertOne`, when the duplicate-key error is swallowed. */
  function Inserted(docs: map<Key, CacheDoc>, owner: Key, doc: CacheDoc): map<Key, CacheDoc> {
    if owner in docs then docs else docs[owner := doc]
  }

  /** The cache collection: one document per owner id. */
  class CacheCollection {
    var docs: map<Key, CacheDoc>

    constructor ()
      ensures docs == map[]
    {
      docs := map[];
    }

    /** `insertOne`: refused (a duplicate key) when the owner already has a document. */
    method InsertOne(owner: Key, doc: CacheDoc) returns (duplicate: bool)
      modifies this
      ensures duplicate <==> owner in old(docs)
      ensures docs == Inserted(old(docs), owner, doc)
    {
      duplicate := owner in docs;
      if !duplicate {
        docs := docs[owner := doc];
      }
    }

    /** `findOneAndUpdate` with a capped push and upsert: creates the document when missing. */
    method PushUpsert(owner: Key, field: Field, item: Content, limit: int)
      modifies this
      ensures docs == old(docs)[owner := Pushed(DocOf(old(docs), owner), field, item, limit)]
    {
      docs := docs[owner := Pushed(DocOf(docs, owner), field, item, limit)];
    }

    /** `update(query, push, upsert = false, multi = true)` onto the timelines of `owners`. */
    method PushToTimelines(owners: set<Key>, item: Content, limit: int)
      modifies this
      ensures docs == FanoutPush(old(docs), owners, item, limit)
    {
      docs := FanoutPush(docs, owners, item, limit);
    }
  }

  /** Each item through the filter, in order. */
  function Filtered(f: CacheContentFilter, s: seq<Content>): (r: seq<Content>)
    ensures |r| == |s|
    ensures forall i :: 0 <= i < |s| ==> r[i] == f.FilterContent(s[i])
  {
    if s == [] then [] else Filtered(f, s[..|s| - 1]) + [f.FilterContent(s[|s| - 1])]
  }

  /**
   * `getCacheDocument`: the document last read from the collection if any;
   * otherwise, once a timeline was rebuilt, a new document whose timeline
   * array holds the filtered timeline followed by the filtered own posts,
   * and whose posts array, present when own posts were rebuilt, is empty.
   */
  function CacheDocument(dbCache: Option<CacheDoc>, timelineCache: Option<seq<Content>>,
                         postCache: Option<seq<Content>>, f: CacheContentFilter): Option<CacheDoc> {
    if dbCache.Some? then dbCache
    else if timelineCache.None? then None
    else
      var posts := if postCache.Some? then Filtered(f, postCache.value) else [];
      Some(CacheDoc(Some(Filtered(f, timelineCache.value) + posts), if postCache.Some? then Some([]) else None))
  }

  /**
   * A rebuilt document with own posts stores those posts after the
   * timeline in the timeline array and leaves its posts array empty.
   */
  lemma RebuiltDocumentMisfilesPosts(f: CacheContentFilter, timeline: seq<Content>, posts: seq<Content>)
    ensures var doc := CacheDocument(None, Some(timeline), Some(posts), f);
      && doc.Some? && doc.value.posts == Some([])
      && doc.value.timeline.Some?
      && |doc.value.timeline.value| == |timeline| + |posts|
      && forall i :: 0 <= i < |posts| ==> doc.value.timeline.value[|timeline| + i] == f.FilterContent(posts[i])
  {
  }

  /**
   * `resultsFromCacheSource`: the page `extractContent` cuts from the cached
   * array without future anchors, kept only when it has exactly `limit`
   * items, or when there is no anchor and the array is below the cap
   * (so the cache holds everything there is); None asks for a fallback.
   */
  function ResultsFromCacheSource(source: seq<Content>, anchor: Option<ContentId>, limit: int, cacheSizeLimit: int)
    : (r: Option<seq<Content>>)
    ensures anchor.None? || Ascending(source) ==>
      var page := Extract(source, anchor, limit, false);
      && (r.Some? <==> |page| == limit || (anchor.None? && |source| < cacheSizeLimit))
      && (r.Some? ==> r.value == page)
  {
    ExtractAsWrittenAscendingWhen(source, anchor, limit);
    var result := ExtractAsWritten(source, anchor, limit, false);
    if |result| == limit || (anchor.None? && |source| < cacheSizeLimit) then Some(result) else None
  }

  /** On an ascending array, or for an unanchored read, the index arithmetic reads the reference page. */
  lemma ExtractAsWrittenAscendingWhen(source: seq<Content>, anchor: Option<ContentId>, limit: int)
    ensures anchor.None? || Ascending(source) ==>
      ExtractAsWritten(source, anchor, limit, false) == Extract(source, anchor, limit, false)
  {
    if anchor.None? || Ascending(source) {
      ExtractAsWrittenAscending(source, anchor, limit, false);
    }
  }

  /**
   * The same method given a null array (own posts that were never cached):
   * only a read of zero items with no anchor returns, with nothing; any
   * other read dereferences the null array.
   */
  function ResultsFromMissingSource(anchor: Option<ContentId>, limit: int): (r: Result<Option<seq<Content>>, Failure>)
    ensures r.Success? <==> anchor.None? && limit == 0
    ensures r.Success? ==> r.value == Some([])
    ensures r.Failure? ==> r.error == NullDereference
  {
    if anchor.None? && limit == 0 then Success(Some([])) else Failure(NullDereference)
  }

  /**
   * Over an ascending cached array a cached answer is the page
   * `extractContent` promises, newest first; it is given exactly when that
   * page is full or the whole array is below the cap and unanchored.
   */
  lemma CachedAnswerIsPage(source: seq<Content>, anchor: Option<ContentId>, limit: int, cacheSizeLimit: int)
    requires Ascending(source)
    ensures var r := ResultsFromCacheSource(source, anchor, limit, cacheSizeLimit);
      var page := Extract(source, anchor, limit, false);
      && (r.Some? <==> |page| == limit || (anchor.None? && |source| < cacheSizeLimit))
      && (r.Some? ==> r.value == page)
  {
    ExtractAsWrittenAscending(source, anchor, limit, false);
  }

  /** An anchored read of newer items never fills a negative limit, so it always falls back. */
  lemma AnchoredNewerReadFallsBack(source: seq<Content>, anchor: ContentId, limit: int, cacheSizeLimit: int)
    requires limit < 0
    ensures ResultsFromCacheSource(source, Some(anchor), limit, cacheSizeLimit).None?
  {
  }

  /**
   * A freshly rebuilt timeline answers an unanchored read with exactly what
   * the content service answers over the same followees, and always answers
   * when the limit is within the cap.
   */
  lemma ColdTimelineAgrees(lists: map<User, seq<Content>>, following: seq<User>, cacheSizeLimit: int, limit: int)
    ensures var timeline := Reverse(MultiRead(lists, following, None, cacheSizeLimit));
      var r := ResultsFromCacheSource(timeline, None, limit, cacheSizeLimit);
      && (r.Some? ==> r.value == MultiRead(lists, following, None, limit))
      && (0 < limit <= cacheSizeLimit ==> r.Some?)
  {
    var m := MultiRead(lists, following, None, cacheSizeLimit);
    var timeline := Reverse(m);
    if limit > 0 && cacheSizeLimit > 0 {
      var rems := Cursors(lists, following, None, cacheSizeLimit);
      LatestCursorsIgnoreLimit(lists, following, cacheSizeLimit, limit);
      assert m == MergeSpec(rems, cacheSizeLimit, true);
      assert MultiRead(lists, following, None, limit) == MergeSpec(rems, limit, true);
      ReverseReverse(m);
      MergeLength(rems, cacheSizeLimit, true);
      MergeLength(rems, limit, true);
      if limit <= cacheSizeLimit {
        MergePrefix(rems, limit, cacheSizeLimit, true);
      } else if |m| < cacheSizeLimit {
        MergeSaturated(rems, limit, cacheSizeLimit, true);
      }
    } else if cacheSizeLimit <= 0 {
      assert m == [] by {
        if cacheSizeLimit == 0 {
          assert MergeSpec(Cursors(lists, following, None, 0), 0, false) == [];
        }
      }
    } else {
      if limit == 0 {
        assert MergeSpec(Cursors(lists, following, None, 0), 0, false) == [];
      }
    }
  }

  /**
   * Freshly rebuilt own posts answer an unanchored read with exactly the
   * author's page from the content service, and always answer when the
   * limit is within the cap.
   */
  lemma ColdPostsAgree(list: seq<Content>, cacheSizeLimit: int, limit: int)
    ensures var posts := Reverse(Extract(list, None, cacheSizeLimit, true));
      var r := ResultsFromCacheSource(posts, None, limit, cacheSizeLimit);
      && (r.Some? ==> r.value == Extract(list, None, limit, true))
      && (0 < limit <= cacheSizeLimit ==> r.Some?)
  {
    var top := Extract(list, None, cacheSizeLimit, true);
    var posts := Reverse(top);
    ReverseReverse(top);
    assert ExtractAsWritten(posts, None, limit, false) == Take(top, limit);
    if limit > 0 && cacheSizeLimit > 0 {
      assert top == Take(Reverse(list), cacheSizeLimit);
      if limit <= cacheSizeLimit || |Reverse(list)| < cacheSizeLimit {
        TakeTake(Reverse(list), cacheSizeLimit, limit);
      }
    }
  }

  /** An own-posts array stored empty answers every unanchored read with nothing, below a positive cap. */
  lemma EmptyPostsAnswerNothing(limit: int, cacheSizeLimit: int)
    requires cacheSizeLimit > 0
    ensures ResultsFromCacheSource([], None, limit, cacheSizeLimit) == Some([])
  {
  }

  class ContentCache {
    const user: User
    const cacheCollection: CacheCollection
    const contentService: ContentStore
    const userGraphService: UserStore
    const filter: CacheContentFilter
    const config: CacheConfig
    /** The timeline rebuilt by this object, ascending, unfiltered. */
    var timelineCache: Option<seq<Content>>
    /** The own posts rebuilt by this object, ascending, unfiltered. */
    var postCache: Option<seq<Content>>
    /** The projected document last read from the collection. */
    var dbCache: Option<CacheDoc>

    constructor (user: User, cacheCollection: CacheCollection, contentService: ContentStore,
                 userGraphService: UserStore, filter: CacheContentFilter, config: CacheConfig)
      ensures this.user == user && this.cacheCollection == cacheCollection
      ensures this.contentService == contentService && this.userGraphService == userGraphService
      ensures this.filter == filter && this.config == config
      ensures timelineCache.None? && postCache.None? && dbCache.None?
    {
      this.user := user;
      this.cacheCollection := cacheCollection;
      this.contentService := contentService;
      this.userGraphService := userGraphService;
      this.filter := filter;
      this.config := config;
      timelineCache := None;
      postCache := None;
      dbCache := None;
    }

    /** The stored array `field` of this user's document, if both exist. */
    function Stored(field: Field): Option<seq<Content>>
      reads cacheCollection
    {
      StoredIn(cacheCollection.docs, user.userId, field)
    }

    /**
     * `getTimeline(anchor, limit)`: answer from the timeline this object
     * rebuilt, else from the stored timeline array, else rebuild the cache
     * and answer from the rebuilt (unfiltered) timeline. None asks the
     * caller to fall back to the content service.
     */
    method GetTimeline(anchor: Option<ContentId>, limit: int) returns (r: Result<Option<seq<Content>>, Failure>)
      requires contentService.Valid()
      modifies this, cacheCollection
      ensures old(timelineCache).Some? ==>
        && r == Success(ResultsFromCacheSource(old(timelineCache).value, anchor, limit, config.cacheSizeLimit))
        && unchanged(this) && cacheCollection.docs == old(cacheCollection.docs)
      ensures old(timelineCache).None? ==> dbCache == Projected(old(cacheCollection.docs), user.userId, Timeline)
      ensures old(timelineCache).None? && old(Stored(Timeline)).Some? ==>
        && r == Success(ResultsFromCacheSource(old(Stored(Timeline)).value, anchor, limit, config.cacheSizeLimit))
        && timelineCache == old(timelineCache) && postCache == old(postCache)
        && cacheCollection.docs == old(cacheCollection.docs)
      ensures old(timelineCache).None? && old(Stored(Timeline)).None? ==>
        && (r.Failure? <==> user.userId !in userGraphService.followingIndex)
        && (r.Failure? ==>
              && r.error == NullDereference && cacheCollection.docs == old(cacheCollection.docs)
              && timelineCache == old(timelineCache) && postCache == old(postCache))
        && (r.Success? ==>
              && timelineCache.Some?
              && r.value == ResultsFromCacheSource(timelineCache.value, anchor, limit, config.cacheSizeLimit)
              && RebuiltTimeline(timelineCache.value, contentService.userContentLists,
                                 userGraphService.followingIndex[user.userId], config.cacheSizeLimit)
              && postCache == (if config.cacheUsersPosts
                               then Some(Reverse(Extract(contentService.ListOf(user), None, config.cacheSizeLimit, true)))
                               else old(postCache))
              && cacheCollection.docs == Inserted(old(cacheCollection.docs), user.userId,
                                                  CacheDocument(None, timelineCache, postCache, filter).value))
    {
      var source := timelineCache;
      if source.None? {
        source := LoadFromCache(Timeline);
        if source.None? {
          var built, following := BuildCacheForUser();
          if built.Fail? {
            return Failure(built.error);
          }
          source := timelineCache;
        }
      }
      r := Success(ResultsFromCacheSource(source.value, anchor, limit, config.cacheSizeLimit));
    }

    /**
     * `getPosts(anchor, limit)`: the same for the own-posts array; when no
     * posts were rebuilt either, the read runs on a null array.
     */
    method GetPosts(anchor: Option<ContentId>, limit: int) returns (r: Result<Option<seq<Content>>, Failure>)
      requires contentService.Valid()
      modifies this, cacheCollection
      ensures old(postCache).Some? ==>
        && r == Success(ResultsFromCacheSource(old(postCache).value, anchor, limit, config.cacheSizeLimit))
        && unchanged(this) && cacheCollection.docs == old(cacheCollection.docs)
      ensures old(postCache).None? ==> dbCache == Projected(old(cacheCollection.docs), user.userId, Posts)
      ensures old(postCache).None? && old(Stored(Posts)).Some? ==>
        && r == Success(ResultsFromCacheSource(old(Stored(Posts)).value, anchor, limit, config.cacheSizeLimit))
        && timelineCache == old(timelineCache) && postCache == old(postCache)
        && cacheCollection.docs == old(cacheCollection.docs)
      ensures old(postCache).None? && old(Stored(Posts)).None? && user.userId !in userGraphService.followingIndex ==>
        && r == Failure(NullDereference) && cacheCollection.docs == old(cacheCollection.docs)
        && timelineCache == old(timelineCache) && postCache == old(postCache)
      ensures old(postCache).None? && old(Stored(Posts)).None? && user.userId in userGraphService.followingIndex ==>
        && timelineCache.Some?
        && RebuiltTimeline(timelineCache.value, contentService.userContentLists,
                           userGraphService.followingIndex[user.userId], config.cacheSizeLimit)
        && cacheCollection.docs == Inserted(old(cacheCollection.docs), user.userId,
                                            CacheDocument(None, timelineCache, postCache, filter).value)
        && (config.cacheUsersPosts ==>
              && postCache == Some(Reverse(Extract(contentService.ListOf(user), None, config.cacheSizeLimit, true)))
              && r == Success(ResultsFromCacheSource(postCache.value, anchor, limit, config.cacheSizeLimit)))
        && (!config.cacheUsersPosts ==> postCache.None? && r == ResultsFromMissingSource(anchor, limit))
    {
      var source := postCache;
      if source.None? {
        source := LoadFromCache(Posts);
        if source.None? {
          var built, following := BuildCacheForUser();
          if built.Fail? {
            return Failure(built.error);
          }
          source := postCache;
          if source.None? {
            return ResultsFromMissingSource(anchor, limit);
          }
        }
      }
      r := Success(ResultsFromCacheSource(source.value, anchor, limit, config.cacheSizeLimit));
    }

    /** `addPost`: push the post onto this user's own-posts array, creating the document if needed. */
    method AddPost(newPost: Content)
      modifies cacheCollection
      ensures cacheCollection.docs == old(cacheCollection.docs)[user.userId :=
        Pushed(DocOf(old(cacheCollection.docs), user.userId), Posts, newPost, config.cacheSizeLimit)]
    {
      cacheCollection.PushUpsert(user.userId, Posts, newPost, config.cacheSizeLimit);
    }

    /** `loadFromCache(field)`: read this user's document projected onto one array. */
    method LoadFromCache(field: Field) returns (source: Option<seq<Content>>)
      modifies this`dbCache
      ensures dbCache == Projected(cacheCollection.docs, user.userId, field)
      ensures source == Stored(field)
    {
      if user.userId in cacheCollection.docs {
        dbCache := Some(cacheCollection.docs[user.userId].Only(field));
      } else {
        dbCache := None;
      }
      source := if dbCache.Some? then dbCache.value.Get(field) else None;
    }

    /**
     * `buildCacheForUser`: the followees' newest `cache_size_limit` posts
     * become the timeline, turned ascending; the user's own newest posts
     * likewise when own posts are cached; then the cache document is
     * inserted unless one exists already.
     */
    method BuildCacheForUser() returns (r: Outcome<Failure>, ghost following: seq<User>)
      requires contentService.Valid()
      modifies this`timelineCache, this`postCache, cacheCollection
      ensures r.Fail? <==> user.userId !in userGraphService.followingIndex
      ensures r.Fail? ==>
        && r.error == NullDereference && cacheCollection.docs == old(cacheCollection.docs)
        && timelineCache == old(timelineCache) && postCache == old(postCache)
      ensures r.Pass? ==>
        && Lists(following, userGraphService.followingIndex[user.userId])
        && timelineCache == Some(Reverse(MultiRead(contentService.userContentLists, following, None, config.cacheSizeLimit)))
        && postCache == (if config.cacheUsersPosts
                         then Some(Reverse(Extract(contentService.ListOf(user), None, config.cacheSizeLimit, true)))
                         else old(postCache))
        && cacheCollection.docs == Inserted(old(cacheCollection.docs), user.userId,
                                            CacheDocument(dbCache, timelineCache, postCache, filter).value)
    {
      var followees := userGraphService.GetFollowing(user, config.fanoutLimit);
      if followees.Failure? {
        return Fail(followees.error), [];
      }
      var followeeList := followees.value;
      following := followeeList;
      var latest := contentService.GetContentForUsers(followeeList, None, config.cacheSizeLimit);
      timelineCache := Some(Reverse(latest));
      if config.cacheUsersPosts {
        var own := contentService.GetContentFor(user, None, config.cacheSizeLimit);
        postCache := Some(Reverse(own));
      }
      var doc := GetCacheDocument();
      var duplicate := cacheCollection.InsertOne(user.userId, doc.value);
      r := Pass;
    }

    /** `getCacheDocument`, with its two copying loops. */
    method GetCacheDocument() returns (result: Option<CacheDoc>)
      ensures result == CacheDocument(dbCache, timelineCache, postCache, filter)
    {
      result := dbCache;
      if result.None? && timelineCache.Some? {
        var timeline := timelineCache.value;
        var cacheContent := [];
        var i := 0;
        while i < |timeline|
          invariant 0 <= i <= |timeline|
          invariant cacheContent == Filtered(filter, timeline[..i])
        {
          assert timeline[..i + 1][..i] == timeline[..i];
          cacheContent := cacheContent + [filter.FilterContent(timeline[i])];
          i := i + 1;
        }
        assert timeline[..|timeline|] == timeline;
        var posts: Option<seq<Content>> := None;
        if postCache.Some? {
          var postsContent: seq<Content> := [];
          var own := postCache.value;
          var j := 0;
          while j < |own|
            invariant 0 <= j <= |own|
            invariant cacheContent == Filtered(filter, timeline) + Filtered(filter, own[..j])
          {
            assert own[..j + 1][..j] == own[..j];
            cacheContent := cacheContent + [filter.FilterContent(own[j])];
            j := j + 1;
          }
          assert own[..|own|] == own;
          posts := Some(postsContent);
        } else {
          assert cacheContent == Filtered(filter, timeline) + [];
        }
        result := Some(CacheDoc(Some(cacheContent), posts));
      }
    }
  }

  /**
   * A rebuilt timeline: the content service's newest `cacheSizeLimit`
   * posts of the followees, in some listing order of the followee set,
   * turned ascending.
   */
  ghost predicate RebuiltTimeline(timeline: seq<Content>, lists: map<User, seq<Content>>, followees: set<User>,
                                  cacheSizeLimit: int) {
    exists following :: Lists(following, followees)
      && timeline == Reverse(MultiRead(lists, following, None, cacheSizeLimit))
  }
}
