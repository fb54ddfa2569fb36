/**
 * FanoutOnWriteSizedBuckets: each follower owns a run of buckets in
 * creation order. A post is appended to the newest bucket of every
 * follower; when that bucket reaches `bucket_size` an empty one is opened
 * after it. A feed is read newest bucket first, each bucket from its end.
 */
module SizedBuckets {
  import opened Wrappers
  import opened Api
  import opened Seqs
  import opened InMemoryUserService
  import opened InMemoryContentService
  import opened CacheFilter
  import opened FeedOrder
  import opened BucketRead

  /** `FanoutOnWriteSizedBucketsConfiguration`, with the inherited feed-service fields. */
  datatype SizedConfig = SizedConfig(
    fanoutLimit: int,
    bucketSize: int,
    bucketReadBatchSize: int,
    cacheAuthor: bool,
    cacheMessage: bool,
    cacheData: bool)

  const DefaultSizedConfig := SizedConfig(0x7fff_ffff, 50, 2, true, true, true)

  /** A bucket document: its `_s` counter and its `_c` array. */
  datatype Bucket = Bucket(size: int, content: seq<Content>)

  /** What the `_s` field is compared with: a bucket always takes at least one item. */
  function Capacity(bucketSize: int): nat {
    if bucketSize < 1 then 1 else bucketSize
  }

  /**
   * One push: `$push` onto the newest bucket and `$inc` its counter (or
   * upsert a first bucket holding the item), then open an empty bucket if
   * the counter reached `bucketSize`.
   */
  function BucketPush(buckets: seq<Bucket>, item: Content, bucketSize: int): seq<Bucket> {
    var pushed :=
      if buckets == [] then Bucket(1, [item])
      else Bucket(buckets[|buckets| - 1].size + 1, buckets[|buckets| - 1].content + [item]);
    var front := if buckets == [] then [] else buckets[..|buckets| - 1];
    front + [pushed] + (if pushed.size >= bucketSize then [Bucket(0, [])] else [])
  }

  /** The `_c` arrays in bucket order. */
  function Contents(buckets: seq<Bucket>): (r: seq<seq<Content>>)
    ensures |r| == |buckets|
    ensures forall i :: 0 <= i < |buckets| ==> r[i] == buckets[i].content
  {
    if buckets == [] then [] else Contents(buckets[..|buckets| - 1]) + [buckets[|buckets| - 1].content]
  }

  /**
   * The shape sequential pushes keep: at least one bucket, every counter
   * equal to its array's length, every bucket but the newest full, and the
   * newest one below capacity.
   */
  predicate WellFilled(buckets: seq<Bucket>, cap: nat) {
    && buckets != []
    && (forall i :: 0 <= i < |buckets| ==> buckets[i].size == |buckets[i].content|)
    && (forall i :: 0 <= i < |buckets| - 1 ==> |buckets[i].content| == cap)
    && |buckets[|buckets| - 1].content| < cap
  }

  /** A push onto no buckets or onto well-filled ones leaves them well filled. */
  lemma {:induction false} PushKeepsFilled(buckets: seq<Bucket>, item: Content, bucketSize: int)
    requires buckets == [] || WellFilled(buckets, Capacity(bucketSize))
    ensures WellFilled(BucketPush(buckets, item, bucketSize), Capacity(bucketSize))
  {
    var after := BucketPush(buckets, item, bucketSize);
    if buckets != [] {
      assert after[..|buckets| - 1] == buckets[..|buckets| - 1];
    }
  }

  /** A pushed item is the first one a read returns; nothing else moves. */
  lemma {:induction false} PushReadsFirst(buckets: seq<Bucket>, item: Content, bucketSize: int)
    ensures ReadOrder(Contents(BucketPush(buckets, item, bucketSize))) == [item] + ReadOrder(Contents(buckets))
  {
    var pushed := if buckets == [] then Bucket(1, [item])
      else Bucket(buckets[|buckets| - 1].size + 1, buckets[|buckets| - 1].content + [item]);
    var front := if buckets == [] then [] else buckets[..|buckets| - 1];
    var grown := front + [pushed];
    assert BucketPush(buckets, item, bucketSize) == grown + (if pushed.size >= bucketSize then [Bucket(0, [])] else []);
    if buckets == [] {
      assert ReadOrder(Contents(grown)) == [item] by {
        assert Contents(grown) == [[item]];
        assert Contents(grown)[..0] == [];
      }
    } else {
      var groups := Contents(buckets);
      assert Contents(grown) == groups[..|groups| - 1] + [groups[|groups| - 1] + [item]];
      ReadOrderPush(groups, item);
    }
    if pushed.size >= bucketSize {
      assert Contents(grown + [Bucket(0, [])]) == Contents(grown) + [[]];
      ReadOrderEmptyGroup(Contents(grown));
    } else {
      assert grown + [] == grown;
    }
  }

  /** The buckets after pushing `posts` one by one. */
  function PushAll(buckets: seq<Bucket>, posts: seq<Content>, bucketSize: int): seq<Bucket> {
    if posts == [] then buckets
    else BucketPush(PushAll(buckets, posts[..|posts| - 1], bucketSize), posts[|posts| - 1], bucketSize)
  }

  /**
   * However the posts fall into buckets, a follower who received `posts`
   * in order reads them back newest first.
   */
  lemma {:induction false} PushAllReadsNewestFirst(posts: seq<Content>, bucketSize: int)
    ensures ReadOrder(Contents(PushAll([], posts, bucketSize))) == Reverse(posts)
  {
    if posts != [] {
      var front, last := posts[..|posts| - 1], posts[|posts| - 1];
      var before := PushAll([], front, bucketSize);
      assert PushAll([], posts, bucketSize) == BucketPush(before, last, bucketSize);
      PushAllReadsNewestFirst(front, bucketSize);
      PushReadsFirst(before, last, bucketSize);
      ReverseLast(posts);
    }
  }

  /** Pushing at least one post onto no buckets leaves them well filled. */
  lemma {:induction false} PushAllFilled(posts: seq<Content>, bucketSize: int)
    requires posts != []
    ensures WellFilled(PushAll([], posts, bucketSize), Capacity(bucketSize))
  {
    var front, last := posts[..|posts| - 1], posts[|posts| - 1];
    if front != [] {
      PushAllFilled(front, bucketSize);
    }
    PushKeepsFilled(PushAll([], front, bucketSize), last, bucketSize);
  }

  /** The bucket runs after each owner in `owners` received one push, in order. */
  function FanoutBuckets(store: map<Key, seq<Bucket>>, owners: seq<Key>, item: Content, bucketSize: int): map<Key, seq<Bucket>> {
    if owners == [] then store
    else
      var before := FanoutBuckets(store, owners[..|owners| - 1], item, bucketSize);
      var owner := owners[|owners| - 1];
      before[owner := BucketPush(if owner in before then before[owner] else [], item, bucketSize)]
  }

  /** Every bucket run in the store is well filled. */
  predicate AllFilled(store: map<Key, seq<Bucket>>, cap: nat) {
    forall k :: k in store ==> WellFilled(store[k], cap)
  }

  /** A fan-out gives every listed owner a bucket run and no one else a new one. */
  lemma {:induction false} FanoutKeys(store: map<Key, seq<Bucket>>, owners: seq<Key>, item: Content, bucketSize: int)
    ensures var after := FanoutBuckets(store, owners, item, bucketSize);
      forall k :: k in after <==> k in store || k in owners
  {
    if owners != [] {
      var front := owners[..|owners| - 1];
      FanoutKeys(store, front, item, bucketSize);
      assert owners == front + [owners[|owners| - 1]];
    }
  }

  /** A fan-out keeps every bucket run well filled. */
  lemma {:induction false} FanoutKeepsFilled(store: map<Key, seq<Bucket>>, owners: seq<Key>, item: Content, bucketSize: int)
    requires AllFilled(store, Capacity(bucketSize))
    ensures AllFilled(FanoutBuckets(store, owners, item, bucketSize), Capacity(bucketSize))
  {
    if owners != [] {
      var front := owners[..|owners| - 1];
      var owner := owners[|owners| - 1];
      FanoutKeepsFilled(store, front, item, bucketSize);
      var before := FanoutBuckets(store, front, item, bucketSize);
      var owned := if owner in before then before[owner] else [];
      PushKeepsFilled(owned, item, bucketSize);
      var after := before[owner := BucketPush(owned, item, bucketSize)];
      assert FanoutBuckets(store, owners, item, bucketSize) == after;
      forall k | k in after
        ensures WellFilled(after[k], Capacity(bucketSize))
      {
        if k != owner {
          assert after[k] == before[k];
        }
      }
    }
  }

  /** An owner listed once receives the post at the head of its feed. */
  lemma {:induction false} FanoutDeliversOnce(store: map<Key, seq<Bucket>>, owners: seq<Key>, item: Content, bucketSize: int, k: Key)
    requires multiset(owners)[k] == 1
    ensures var after := FanoutBuckets(store, owners, item, bucketSize);
      k in after
      && ReadOrder(Contents(after[k])) == [item] + ReadOrder(Contents(if k in store then store[k] else []))
  {
    var front := owners[..|owners| - 1];
    var owner := owners[|owners| - 1];
    assert owners == front + [owner];
    var before := FanoutBuckets(store, front, item, bucketSize);
    if owner == k {
      assert multiset(front)[k] == 0;
      FanoutUntouched(store, front, item, bucketSize, k);
      PushReadsFirst(if k in before then before[k] else [], item, bucketSize);
    } else {
      assert multiset(front)[k] == 1;
      FanoutDeliversOnce(store, front, item, bucketSize, k);
    }
  }

  /** An owner not listed keeps its bucket run. */
  lemma {:induction false} FanoutUntouched(store: map<Key, seq<Bucket>>, owners: seq<Key>, item: Content, bucketSize: int, k: Key)
    requires k !in owners
    ensures var after := FanoutBuckets(store, owners, item, bucketSize);
      (k in after <==> k in store) && (k in store ==> after[k] == store[k])
  {
    if owners != [] {
      FanoutUntouched(store, owners[..|owners| - 1], item, bucketSize, k);
    }
  }

  /** The store after `item` went to every follower, in some listing order of the follower set. */
  ghost predicate FannedOutTo(store: map<Key, seq<Bucket>>, before: map<Key, seq<Bucket>>, followers: set<User>, item: Content, bucketSize: int) {
    exists listed :: Lists(listed, followers) && store == FanoutBuckets(before, OwnerIds(listed), item, bucketSize)
  }

  const PaginationReason := Str("Pagination not yet supported by com.mongodb.socialite.feed.FanoutOnWriteSizedBuckets")

  class FanoutOnWriteSizedBuckets {
    const usergraphService: UserStore
    const contentService: ContentStore
    const config: SizedConfig
    const cacheFilter: CacheContentFilter
    /** The bucket collection: each owner's buckets in `_id` (creation) order. */
    var buckets: map<Key, seq<Bucket>>

    predicate Valid()
      reads this
    {
      AllFilled(buckets, Capacity(config.bucketSize))
    }

    constructor (userGraph: UserStore, content: ContentStore, svcConfig: SizedConfig)
      ensures usergraphService == userGraph && contentService == content && config == svcConfig
      ensures cacheFilter.preserveKeys == KeysFor(svcConfig.cacheAuthor, svcConfig.cacheMessage, svcConfig.cacheData)
      ensures buckets == map[] && Valid()
    {
      usergraphService := userGraph;
      contentService := content;
      cacheFilter := new CacheContentFilter(svcConfig.cacheAuthor, svcConfig.cacheMessage, svcConfig.cacheData);
      config := svcConfig;
      buckets := map[];
    }

    /** `post`: filter once, then push into every follower's buckets. */
    method Post(sender: User, content: Content) returns (r: Outcome<Failure>)
      requires Valid()
      modifies this
      ensures Valid()
      ensures r.Fail? <==> sender.userId !in usergraphService.followerIndex
      ensures r.Fail? ==> r.error == NullDereference && buckets == old(buckets)
      ensures r.Pass? ==> FannedOutTo(buckets, old(buckets), usergraphService.followerIndex[sender.userId],
                                      cacheFilter.FilterContent(content), config.bucketSize)
    {
      var cacheContent := cacheFilter.FilterContent(content);
      var followers := usergraphService.GetFollowers(sender, config.fanoutLimit);
      if followers.Failure? {
        return Fail(followers.error);
      }
      var recipients := followers.value;
      var i := 0;
      while i < |recipients|
        invariant 0 <= i <= |recipients|
        invariant buckets == FanoutBuckets(old(buckets), OwnerIds(recipients[..i]), cacheContent, config.bucketSize)
      {
        assert OwnerIds(recipients[..i + 1]) == OwnerIds(recipients[..i]) + [recipients[i].userId] by {
          assert recipients[..i + 1][..i] == recipients[..i];
        }
        PushContentToFixedBucket(recipients[i], cacheContent);
        i := i + 1;
      }
      assert recipients[..i] == recipients;
      FanoutKeepsFilled(old(buckets), OwnerIds(recipients), cacheContent, config.bucketSize);
      r := Pass;
    }

    /**
     * `pushContentToFixedBucket`: the find-and-modify on the newest bucket
     * (upserting a first one), then a new bucket once the counter reaches
     * `bucket_size`.
     */
    method PushContentToFixedBucket(recipient: User, content: Content)
      modifies this
      ensures var owned := if recipient.userId in old(buckets) then old(buckets)[recipient.userId] else [];
        buckets == old(buckets)[recipient.userId := BucketPush(owned, content, config.bucketSize)]
    {
      var owner := recipient.userId;
      var owned := if owner in buckets then buckets[owner] else [];
      var result: Bucket;
      var front: seq<Bucket> := [];
      if owned == [] {
        result := Bucket(1, [content]);
      } else {
        var newest := owned[|owned| - 1];
        result := Bucket(newest.size + 1, newest.content + [content]);
        front := owned[..|owned| - 1];
      }
      buckets := buckets[owner := front + [result]];
      if result.size >= config.bucketSize {
        CreateNewBucket(recipient, config.bucketSize);
      } else {
        assert front + [result] == front + [result] + [];
      }
    }

    /** `createNewBucket`: insert an empty bucket for the owner; `size` is not used. */
    method CreateNewBucket(recipient: User, size: int)
      requires recipient.userId in buckets
      modifies this
      ensures buckets == old(buckets)[recipient.userId := old(buckets)[recipient.userId] + [Bucket(0, [])]]
    {
      buckets := buckets[recipient.userId := buckets[recipient.userId] + [Bucket(0, [])]];
    }

    /** The feed a two-argument read returns: the newest `limit` items, or a rejected capacity. */
    function FeedOf(user: User, limit: int): Result<seq<Content>, Failure>
      reads this
    {
      if limit < 0 then Failure(IllegalArgument)
      else Success(Take(ReadOrder(Contents(if user.userId in buckets then buckets[user.userId] else [])), limit))
    }

    /** `getFeedFor(user, limit)`: drain the user's buckets newest first up to `limit`. */
    method GetLatestFeedFor(user: User, limit: int) returns (r: Result<seq<Content>, Failure>)
      ensures r == FeedOf(user, limit)
    {
      if limit < 0 {
        return Failure(IllegalArgument);
      }
      var owned := if user.userId in buckets then buckets[user.userId] else [];
      var result := DrainNewestFirst(Contents(owned), limit);
      r := Success(result);
    }

    /** `getFeedFor(user, anchor, limit)`: only the unanchored read is supported. */
    method GetFeedFor(user: User, anchor: Option<ContentId>, limit: int) returns (r: Result<seq<Content>, Failure>)
      ensures anchor.Some? ==> r == Failure(Raise(NotImplemented, "reason", Some(PaginationReason)))
      ensures anchor.None? ==> r == FeedOf(user, limit)
    {
      if anchor.None? {
        r := GetLatestFeedFor(user, limit);
        return;
      }
      r := Failure(Raise(NotImplemented, "reason", Some(PaginationReason)));
    }

    /** `getPostsBy(user, limit)`: the content service's page for the author. */
    method GetLatestPostsBy(user: User, limit: int) returns (r: seq<Content>)
      requires contentService.Valid()
      ensures r == Extract(contentService.ListOf(user), None, limit, true)
    {
      r := contentService.GetContentFor(user, None, limit);
    }

    /** `getPostsBy(user, anchor, limit)`: only the unanchored read is supported. */
    method GetPostsBy(user: User, anchor: Option<ContentId>, limit: int) returns (r: Result<seq<Content>, Failure>)
      requires contentService.Valid()
      ensures anchor.Some? ==> r == Failure(Raise(NotImplemented, "reason", Some(PaginationReason)))
      ensures anchor.None? ==> r == Success(Extract(contentService.ListOf(user), None, limit, true))
    {
      if anchor.None? {
        var page := GetLatestPostsBy(user, limit);
        return Success(page);
      }
      r := Failure(Raise(NotImplemented, "reason", Some(PaginationReason)));
    }
  }

  /**
   * A follower listed once finds a new post at the head of any positive
   * read, followed by what the read returned before, one shorter.
   */
  lemma {:induction false} PostReachesFollower(store: map<Key, seq<Bucket>>, listed: seq<User>, item: Content, bucketSize: int, k: Key, limit: nat)
    requires multiset(OwnerIds(listed))[k] == 1
    ensures var after := FanoutBuckets(store, OwnerIds(listed), item, bucketSize);
      && k in after
      && (limit > 0 ==> Take(ReadOrder(Contents(after[k])), limit)
                        == [item] + Take(ReadOrder(Contents(if k in store then store[k] else [])), limit - 1))
  {
    FanoutDeliversOnce(store, OwnerIds(listed), item, bucketSize, k);
    if limit > 0 {
      TakeCons(item, ReadOrder(Contents(if k in store then store[k] else [])), limit);
    }
  }
}
