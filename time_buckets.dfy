/**
 * FanoutOnWriteTimeBuckets: one bucket document per (time key, owner). A
 * post goes into the bucket whose key is derived from the creation second
 * of its id: its own `_p` array for the sender (when own posts are
 * bucketed) and the `_c` array of every follower. Reads walk an owner's
 * buckets by descending key, each from its end.
 */
module TimeBuckets {
  import opened Wrappers
  import opened Api
  import opened Seqs
  import opened FeedOrder
  import opened InMemoryUserService
  import opened InMemoryContentService
  import opened CacheFilter
  import opened BucketRead

  /** `FanoutOnWriteTimeBucketsConfiguration`, with the inherited feed-service fields. */
  datatype TimeConfig = TimeConfig(
    fanoutLimit: int,
    bucketTimespanDays: int,
    bucketReadBatchSize: int,
    bucketUsersPosts: bool,
    cacheAuthor: bool,
    cacheMessage: bool,
    cacheData: bool)

  const DefaultTimeConfig := TimeConfig(0x7fff_ffff, 7, 2, true, true, true, true)

  const DaySeconds := 24 * 60 * 60

  /** A Java `int` result: the value wrapped into 32-bit two's complement. */
  function Int32(x: int): (r: int)
    ensures -0x8000_0000 <= r < 0x8000_0000
    ensures (x - r) % 0x1_0000_0000 == 0
  {
    var m := x % 0x1_0000_0000;
    if m >= 0x8000_0000 then m - 0x1_0000_0000 else m
  }

  /** `bucket_timespan_days * DAY_IN_SECONDS`, in `int` arithmetic. */
  function Timespan(days: int): int {
    Int32(days * DaySeconds)
  }

  /** Java's `/` on `int`: the quotient is truncated toward zero. */
  function JavaDiv(a: int, b: int): int
    requires b != 0
  {
    var q := Abs(a) / Abs(b);
    if (a >= 0) == (b > 0) then q else -q
  }

  /** Java's `%` on `int`: the remainder takes the sign of the dividend, and `(a / b) * b + a % b == a`. */
  function JavaRem(a: int, b: int): (r: int)
    requires b != 0
    ensures a >= 0 ==> 0 <= r < Abs(b)
    ensures a < 0 ==> r <= 0 && r + Abs(b) > 0
    ensures a == JavaDiv(a, b) * b + r
  {
    if a >= 0 then a % Abs(b) else -((-a) % Abs(b))
  }

  /** The bucket key of a post created at `second`: a remainder, or a division by zero. */
  function BucketKey(second: int, span: int): (r: Result<int, Failure>)
    ensures r.Failure? <==> span == 0
    ensures r.Failure? ==> r.error == DivideByZero
    ensures r.Success? ==> second == JavaDiv(second, span) * span + r.value
    ensures r.Success? && second >= 0 ==> 0 <= r.value < Abs(span)
    ensures r.Success? && second < 0 ==> r.value <= 0 && r.value + Abs(span) > 0
  {
    if span == 0 then Failure(DivideByZero) else Success(JavaRem(second, span))
  }

  /** The two arrays a bucket can hold: followees' posts (`_c`) and the owner's own (`_p`). */
  datatype BucketField = FeedArray | PostArray

  /** A bucket document of one owner; an array is absent until something is pushed into it. */
  datatype TimeBucket = TimeBucket(key: int, feed: Option<seq<Content>>, posts: Option<seq<Content>>)

  /** The array a read finds in the bucket: none counts as empty. */
  function ArrayOf(b: TimeBucket, f: BucketField): seq<Content> {
    match f
    case FeedArray => b.feed.GetOr([])
    case PostArray => b.posts.GetOr([])
  }

  /** `$push` onto one array of a bucket, creating the array if absent. */
  function PushField(b: TimeBucket, f: BucketField, item: Content): (r: TimeBucket)
    ensures r.key == b.key
    ensures ArrayOf(r, f) == ArrayOf(b, f) + [item]
    ensures forall g :: g != f ==> ArrayOf(r, g) == ArrayOf(b, g)
  {
    match f
    case FeedArray => b.(feed := Some(b.feed.GetOr([]) + [item]))
    case PostArray => b.(posts := Some(b.posts.GetOr([]) + [item]))
  }

  /** The document an upsert creates: the key and the one pushed array. */
  function NewBucket(key: int, f: BucketField, item: Content): TimeBucket {
    PushField(TimeBucket(key, None, None), f, item)
  }

  /** An owner's buckets in the index's key order: strictly ascending. */
  predicate KeysAscending(buckets: seq<TimeBucket>) {
    forall i, j :: 0 <= i < j < |buckets| ==> buckets[i].key < buckets[j].key
  }

  /**
   * The update with upsert on `{_id: {_t: key, _u: owner}}`: push onto the
   * bucket with that key, or insert a new bucket in key order.
   */
  function Upsert(buckets: seq<TimeBucket>, key: int, f: BucketField, item: Content): seq<TimeBucket> {
    if buckets == [] then [NewBucket(key, f, item)]
    else
      var front, last := buckets[..|buckets| - 1], buckets[|buckets| - 1];
      if last.key == key then front + [PushField(last, f, item)]
      else if last.key < key then buckets + [NewBucket(key, f, item)]
      else Upsert(front, key, f, item) + [last]
  }

  /** The bucket with the given key, if the owner has one. */
  function Find(buckets: seq<TimeBucket>, key: int): Option<TimeBucket> {
    if buckets == [] then None
    else if buckets[|buckets| - 1].key == key then Some(buckets[|buckets| - 1])
    else Find(buckets[..|buckets| - 1], key)
  }

  /** Every key of the buckets is below `bound`. */
  predicate KeysBelow(buckets: seq<TimeBucket>, bound: int) {
    forall i :: 0 <= i < |buckets| ==> buckets[i].key < bound
  }

  /**
   * An upsert keeps the buckets in key order, gives the key's bucket the
   * item at the end of the named array, and leaves every other key's bucket
   * as it was.
   */
  lemma {:induction false} UpsertSpec(buckets: seq<TimeBucket>, key: int, f: BucketField, item: Content, k: int)
    requires KeysAscending(buckets)
    ensures var after := Upsert(buckets, key, f, item);
      && KeysAscending(after)
      && (k == key ==> Find(after, k) == Some(PushField(Find(buckets, key).GetOr(TimeBucket(key, None, None)), f, item)))
      && (k != key ==> Find(after, k) == Find(buckets, k))
    decreases |buckets|
  {
    if buckets != [] {
      var front, last := buckets[..|buckets| - 1], buckets[|buckets| - 1];
      var after := Upsert(buckets, key, f, item);
      if last.key == key {
        assert after[..|after| - 1] == front;
        assert Find(buckets, key) == Some(last);
      } else if last.key < key {
        assert after[..|after| - 1] == buckets;
        FindAbsent(buckets, key);
      } else {
        UpsertSpec(front, key, f, item, k);
        var inner := Upsert(front, key, f, item);
        assert after[..|after| - 1] == inner;
        UpsertBelow(front, key, f, item, last.key);
      }
    }
  }

  /** No bucket has a key above every key of the buckets. */
  lemma {:induction false} FindAbsent(buckets: seq<TimeBucket>, key: int)
    requires KeysBelow(buckets, key)
    ensures Find(buckets, key) == None
    decreases |buckets|
  {
    if buckets != [] {
      FindAbsent(buckets[..|buckets| - 1], key);
    }
  }

  /** An upsert below a bound keeps every key below it. */
  lemma {:induction false} UpsertBelow(buckets: seq<TimeBucket>, key: int, f: BucketField, item: Content, bound: int)
    requires KeysAscending(buckets) && KeysBelow(buckets, bound) && key < bound
    ensures KeysBelow(Upsert(buckets, key, f, item), bound)
    decreases |buckets|
  {
    if buckets != [] {
      var front, last := buckets[..|buckets| - 1], buckets[|buckets| - 1];
      if last.key > key {
        UpsertBelow(front, key, f, item, bound);
      }
    }
  }

  /** The named array of every bucket, in key order. */
  function Arrays(buckets: seq<TimeBucket>, f: BucketField): (r: seq<seq<Content>>)
    ensures |r| == |buckets|
  {
    if buckets == [] then [] else Arrays(buckets[..|buckets| - 1], f) + [ArrayOf(buckets[|buckets| - 1], f)]
  }

  /** Peeling the newest bucket off the arrays. */
  lemma {:induction false} ArraysSnoc(front: seq<TimeBucket>, last: TimeBucket, f: BucketField)
    ensures Arrays(front + [last], f) == Arrays(front, f) + [ArrayOf(last, f)]
  {
    assert (front + [last])[..|front|] == front;
  }

  /**
   * While keys only grow, the item pushed into the newest key is the first
   * one a read of that array returns.
   */
  lemma {:induction false} NewestKeyReadsFirst(buckets: seq<TimeBucket>, key: int, f: BucketField, item: Content)
    requires buckets == [] || buckets[|buckets| - 1].key <= key
    ensures ReadOrder(Arrays(Upsert(buckets, key, f, item), f)) == [item] + ReadOrder(Arrays(buckets, f))
  {
    if buckets == [] || buckets[|buckets| - 1].key < key {
      NewKeyReadsFirst(buckets, key, f, item);
    } else {
      SameKeyReadsFirst(buckets, key, f, item);
    }
  }

  /** An item that opens a bucket above every key is read first. */
  lemma {:induction false} NewKeyReadsFirst(buckets: seq<TimeBucket>, key: int, f: BucketField, item: Content)
    requires buckets == [] || buckets[|buckets| - 1].key < key
    ensures ReadOrder(Arrays(Upsert(buckets, key, f, item), f)) == [item] + ReadOrder(Arrays(buckets, f))
  {
    var made := NewBucket(key, f, item);
    assert Upsert(buckets, key, f, item) == buckets + [made];
    ArraysSnoc(buckets, made, f);
    ReadOrderSnoc(Arrays(buckets, f), [item]);
    ReverseAppend<Content>([], [item]);
  }

  /** An item pushed onto the bucket with the highest key is read first. */
  lemma {:induction false} SameKeyReadsFirst(buckets: seq<TimeBucket>, key: int, f: BucketField, item: Content)
    requires buckets != [] && buckets[|buckets| - 1].key == key
    ensures ReadOrder(Arrays(Upsert(buckets, key, f, item), f)) == [item] + ReadOrder(Arrays(buckets, f))
  {
    var front, last := buckets[..|buckets| - 1], buckets[|buckets| - 1];
    assert buckets == front + [last];
    var pushed := PushField(last, f, item);
    assert Upsert(buckets, key, f, item) == front + [pushed];
    ArraysSnoc(front, last, f);
    ArraysSnoc(front, pushed, f);
    var groups := Arrays(buckets, f);
    assert groups[..|groups| - 1] == Arrays(front, f);
    ReadOrderPush(groups, item);
  }

  /** A push into one array leaves the reading of the other array as it was. */
  lemma {:induction false} OtherArrayUnchanged(buckets: seq<TimeBucket>, key: int, f: BucketField, g: BucketField, item: Content)
    requires f != g
    ensures ReadOrder(Arrays(Upsert(buckets, key, f, item), g)) == ReadOrder(Arrays(buckets, g))
    decreases |buckets|
  {
    if buckets == [] {
      assert Upsert(buckets, key, f, item) == [] + [NewBucket(key, f, item)];
      NewBucketOtherEmpty([], key, f, g, item);
    } else {
      var front, last := buckets[..|buckets| - 1], buckets[|buckets| - 1];
      if last.key == key {
        assert Upsert(buckets, key, f, item) == front + [PushField(last, f, item)];
        assert buckets == front + [last];
        PushFieldOtherSame(front, last, f, g, item);
      } else if last.key < key {
        assert Upsert(buckets, key, f, item) == buckets + [NewBucket(key, f, item)];
        NewBucketOtherEmpty(buckets, key, f, g, item);
      } else {
        var inserted := Upsert(front, key, f, item);
        assert Upsert(buckets, key, f, item) == inserted + [last];
        assert buckets == front + [last];
        OtherArrayUnchanged(front, key, f, g, item);
        SameReadBelow(inserted, front, last, g);
      }
    }
  }

  /** A new bucket holding an item in one array adds nothing to the reading of the other. */
  lemma NewBucketOtherEmpty(buckets: seq<TimeBucket>, key: int, f: BucketField, g: BucketField, item: Content)
    requires f != g
    ensures ReadOrder(Arrays(buckets + [NewBucket(key, f, item)], g)) == ReadOrder(Arrays(buckets, g))
  {
    ArraysSnoc(buckets, NewBucket(key, f, item), g);
    assert ArrayOf(NewBucket(key, f, item), g) == [];
    ReadOrderEmptyGroup(Arrays(buckets, g));
  }

  /** Pushing into one array of the newest bucket leaves the reading of the other as it was. */
  lemma PushFieldOtherSame(front: seq<TimeBucket>, last: TimeBucket, f: BucketField, g: BucketField, item: Content)
    requires f != g
    ensures ReadOrder(Arrays(front + [PushField(last, f, item)], g)) == ReadOrder(Arrays(front + [last], g))
  {
    ArraysSnoc(front, PushField(last, f, item), g);
    ArraysSnoc(front, last, g);
  }

  /** Below an unchanged newest bucket, runs that read alike still read alike. */
  lemma SameReadBelow(a: seq<TimeBucket>, b: seq<TimeBucket>, last: TimeBucket, g: BucketField)
    requires ReadOrder(Arrays(a, g)) == ReadOrder(Arrays(b, g))
    ensures ReadOrder(Arrays(a + [last], g)) == ReadOrder(Arrays(b + [last], g))
  {
    ArraysSnoc(a, last, g);
    ArraysSnoc(b, last, g);
    ReadOrderSnoc(Arrays(a, g), ArrayOf(last, g));
    ReadOrderSnoc(Arrays(b, g), ArrayOf(last, g));
  }

  /** Two posts pushed into fresh buckets, the second under a lower key: the lower key's bucket comes first. */
  lemma {:induction false} LowerKeyBucketFirst(low: int, high: int, older: Content, newer: Content)
    requires low < high
    ensures Arrays(Upsert(Upsert([], high, FeedArray, older), low, FeedArray, newer), FeedArray) == [[newer], [older]]
  {
    var first := NewBucket(high, FeedArray, older);
    var second := NewBucket(low, FeedArray, newer);
    assert Upsert([], high, FeedArray, older) == [first];
    assert [first][..0] == [];
    assert Upsert([first], low, FeedArray, newer) == [second, first];
    assert ArrayOf(first, FeedArray) == [older];
    assert ArrayOf(second, FeedArray) == [newer];
    ArraysSnoc([second], first, FeedArray);
    ArraysSnoc([], second, FeedArray);
    assert [second, first] == [second] + [first];
    assert [] + [second] == [second];
  }

  /** Two one-item groups read back newest group first. */
  lemma ReadTwoGroups(a: Content, b: Content)
    ensures ReadOrder([[a], [b]]) == [b, a]
  {
    ReadOrderSnoc([[a]], [b]);
    ReadOrderSnoc([], [a]);
    assert [] + [[a]] == [[a]];
    assert [[a]] + [[b]] == [[a], [b]];
    assert Reverse([a]) == [a] && Reverse([b]) == [b];
  }

  /** The last second of a span keeps its number as key; the first second of the next span wraps to key 0. */
  lemma SpanEdgeKeys(span: int)
    requires span > 1
    ensures BucketKey(span - 1, span) == Success(span - 1)
    ensures BucketKey(span, span) == Success(0)
  {
    assert JavaRem(span, span) == span % span == 0;
    assert JavaRem(span - 1, span) == (span - 1) % span == span - 1;
  }

  /**
   * The key is a remainder, not a slot number: a post made one second
   * after a whole number of spans lands in key 0, below the key of the post
   * made the second before, so a read returns the older post first.
   */
  lemma WrappedKeyReadsOlderFirst(span: int, older: Content, newer: Content)
    requires span > 1
    ensures BucketKey(span - 1, span) == Success(span - 1)
    ensures BucketKey(span, span) == Success(0)
    ensures var buckets := Upsert(Upsert([], span - 1, FeedArray, older), 0, FeedArray, newer);
      ReadOrder(Arrays(buckets, FeedArray)) == [older, newer]
  {
    SpanEdgeKeys(span);
    LowerKeyBucketFirst(0, span - 1, older, newer);
    ReadTwoGroups(newer, older);
  }

  /** Keys are in `[0, span)` when the creation second is not negative and the span is positive. */
  lemma BucketKeyInRange(second: int, span: int)
    requires second >= 0 && span > 0
    ensures BucketKey(second, span).Success?
    ensures 0 <= BucketKey(second, span).value < span
  {
  }

  /** The buckets after each owner in `owners` received the item in the named array, in order. */
  function FanoutTime(store: map<Key, seq<TimeBucket>>, owners: seq<Key>, key: int, f: BucketField, item: Content): map<Key, seq<TimeBucket>> {
    if owners == [] then store
    else
      var before := FanoutTime(store, owners[..|owners| - 1], key, f, item);
      var owner := owners[|owners| - 1];
      before[owner := Upsert(if owner in before then before[owner] else [], key, f, item)]
  }

  /** Every owner's buckets are in key order. */
  predicate AllAscending(store: map<Key, seq<TimeBucket>>) {
    forall k :: k in store ==> KeysAscending(store[k])
  }

  /** A fan-out keeps every owner's buckets in key order. */
  lemma {:induction false} FanoutKeepsAscending(store: map<Key, seq<TimeBucket>>, owners: seq<Key>, key: int, f: BucketField, item: Content)
    requires AllAscending(store)
    ensures AllAscending(FanoutTime(store, owners, key, f, item))
  {
    if owners != [] {
      var front, owner := owners[..|owners| - 1], owners[|owners| - 1];
      FanoutKeepsAscending(store, front, key, f, item);
      UpsertKeepsAllAscending(FanoutTime(store, front, key, f, item), owner, key, f, item);
    }
  }

  /** One owner's upsert keeps every owner's buckets in key order. */
  lemma UpsertKeepsAllAscending(store: map<Key, seq<TimeBucket>>, owner: Key, key: int, f: BucketField, item: Content)
    requires AllAscending(store)
    ensures AllAscending(store[owner := Upsert(if owner in store then store[owner] else [], key, f, item)])
  {
    var owned := if owner in store then store[owner] else [];
    UpsertSpec(owned, key, f, item, key);
    var after := store[owner := Upsert(owned, key, f, item)];
    forall k | k in after
      ensures KeysAscending(after[k])
    {
      if k != owner {
        assert after[k] == store[k];
      }
    }
  }

  /** The store after `item` went into the feed array of every follower, in some listing order. */
  ghost predicate FannedOutTo(store: map<Key, seq<TimeBucket>>, before: map<Key, seq<TimeBucket>>, followers: set<User>, key: int, item: Content) {
    exists listed :: Lists(listed, followers) && store == FanoutTime(before, OwnerIds(listed), key, FeedArray, item)
  }

  const PaginationReason := Str("Pagination not yet supported by com.mongodb.socialite.feed.FanoutOnWriteTimeBuckets")

  class FanoutOnWriteTimeBuckets {
    const usergraphService: UserStore
    const contentService: ContentStore
    const config: TimeConfig
    const cacheFilter: CacheContentFilter
    /** `ObjectId.getTimeSecond`: the creation second stamped in an id. */
    const secondOf: ObjectId -> int
    const bucketTimespanSeconds: int
    /** The bucket collection: each owner's buckets in key order. */
    var buckets: map<Key, seq<TimeBucket>>

    predicate Valid()
      reads this
    {
      AllAscending(buckets)
    }

    constructor (userGraph: UserStore, content: ContentStore, svcConfig: TimeConfig, secondOf: ObjectId -> int)
      ensures usergraphService == userGraph && contentService == content && config == svcConfig
      ensures this.secondOf == secondOf
      ensures bucketTimespanSeconds == Timespan(svcConfig.bucketTimespanDays)
      ensures cacheFilter.preserveKeys == KeysFor(svcConfig.cacheAuthor, svcConfig.cacheMessage, svcConfig.cacheData)
      ensures buckets == map[] && Valid()
    {
      usergraphService := userGraph;
      contentService := content;
      cacheFilter := new CacheContentFilter(svcConfig.cacheAuthor, svcConfig.cacheMessage, svcConfig.cacheData);
      config := svcConfig;
      this.secondOf := secondOf;
      bucketTimespanSeconds := Int32(svcConfig.bucketTimespanDays * DaySeconds);
      buckets := map[];
    }

    /** The key a post is filed under. */
    function KeyOf(content: Content): (r: Result<int, Failure>)
      reads this
      ensures r.Failure? <==> bucketTimespanSeconds == 0
      ensures r.Success? ==> secondOf(content.id) == JavaDiv(secondOf(content.id), bucketTimespanSeconds) * bucketTimespanSeconds + r.value
      ensures r.Success? && secondOf(content.id) >= 0 ==> 0 <= r.value < Abs(bucketTimespanSeconds)
    {
      BucketKey(secondOf(content.id), bucketTimespanSeconds)
    }

    /** `pushContentToTimeBucket`: compute the key, then upsert-push into the owner's bucket. */
    method PushContentToTimeBucket(recipient: User, content: Content, field: BucketField) returns (r: Outcome<Failure>)
      modifies this
      ensures r.Fail? <==> KeyOf(content).Failure?
      ensures r.Fail? ==> r.error == DivideByZero && buckets == old(buckets)
      ensures r.Pass? ==> buckets == old(buckets)[recipient.userId :=
        Upsert(if recipient.userId in old(buckets) then old(buckets)[recipient.userId] else [], KeyOf(content).value, field, content)]
    {
      if bucketTimespanSeconds == 0 {
        return Fail(DivideByZero);
      }
      var bucketId := JavaRem(secondOf(content.id), bucketTimespanSeconds);
      var owned := if recipient.userId in buckets then buckets[recipient.userId] else [];
      buckets := buckets[recipient.userId := Upsert(owned, bucketId, field, content)];
      r := Pass;
    }

    /**
     * `post`: filter once; push into the sender's own-posts array when own
     * posts are bucketed; then into the feed array of every follower. A
     * zero span fails at the first push; a sender without a follower set
     * fails after the own-posts push.
     */
    method Post(sender: User, content: Content) returns (r: Outcome<Failure>)
      requires Valid()
      modifies this
      ensures Valid()
      ensures var item := cacheFilter.FilterContent(content);
        KeyOf(item).Success? ==>
          var own := if config.bucketUsersPosts
            then old(buckets)[sender.userId := Upsert(if sender.userId in old(buckets) then old(buckets)[sender.userId] else [],
                                                      KeyOf(item).value, PostArray, item)]
            else old(buckets);
          && (r.Fail? <==> sender.userId !in usergraphService.followerIndex)
          && (r.Fail? ==> r.error == NullDereference && buckets == own)
          && (r.Pass? ==> FannedOutTo(buckets, own, usergraphService.followerIndex[sender.userId], KeyOf(item).value, item))
      ensures var item := cacheFilter.FilterContent(content);
        KeyOf(item).Failure? ==>
          && buckets == old(buckets)
          && (config.bucketUsersPosts ==> r == Fail(DivideByZero))
          && (!config.bucketUsersPosts ==>
                if sender.userId !in usergraphService.followerIndex then r == Fail(NullDereference)
                else r == (if usergraphService.followerIndex[sender.userId] == {} then Pass else Fail(DivideByZero)))
    {
      var cacheContent := cacheFilter.FilterContent(content);
      if config.bucketUsersPosts {
        var pushed := PushContentToTimeBucket(sender, cacheContent, PostArray);
        if pushed.Fail? {
          return pushed;
        }
        UpsertKeepsAllAscending(old(buckets), sender.userId, KeyOf(cacheContent).value, PostArray, cacheContent);
      }
      var followers := usergraphService.GetFollowers(sender, config.fanoutLimit);
      if followers.Failure? {
        return Fail(followers.error);
      }
      assert followers.value == [] <==> usergraphService.followerIndex[sender.userId] == {} by {
        if followers.value != [] {
          assert followers.value[0] in usergraphService.followerIndex[sender.userId];
        }
      }
      r := PushToFollowers(followers.value, cacheContent);
    }

    /** The follower loop of `post`: one upsert-push into each recipient's feed array. */
    method PushToFollowers(recipients: seq<User>, item: Content) returns (r: Outcome<Failure>)
      requires Valid()
      modifies this
      ensures Valid()
      ensures KeyOf(item).Success? ==>
        r == Pass && buckets == FanoutTime(old(buckets), OwnerIds(recipients), KeyOf(item).value, FeedArray, item)
      ensures KeyOf(item).Failure? ==>
        buckets == old(buckets) && r == (if recipients == [] then Pass else Fail(DivideByZero))
    {
      var i := 0;
      while i < |recipients|
        invariant 0 <= i <= |recipients|
        invariant KeyOf(item).Failure? ==> i == 0 && buckets == old(buckets)
        invariant KeyOf(item).Success? ==>
          buckets == FanoutTime(old(buckets), OwnerIds(recipients[..i]), KeyOf(item).value, FeedArray, item)
      {
        assert OwnerIds(recipients[..i + 1]) == OwnerIds(recipients[..i]) + [recipients[i].userId] by {
          assert recipients[..i + 1][..i] == recipients[..i];
        }
        var pushed := PushContentToTimeBucket(recipients[i], item, FeedArray);
        if pushed.Fail? {
          return pushed;
        }
        i := i + 1;
      }
      assert recipients[..i] == recipients;
      if KeyOf(item).Success? {
        FanoutKeepsAscending(old(buckets), OwnerIds(recipients), KeyOf(item).value, FeedArray, item);
      }
      r := Pass;
    }

    /** The read `getContentFromBuckets` returns for an owner's array. */
    function ContentOf(user: User, field: BucketField, limit: int): Result<seq<Content>, Failure>
      reads this
    {
      if limit < 0 then Failure(IllegalArgument)
      else Success(Take(ReadOrder(Arrays(if user.userId in buckets then buckets[user.userId] else [], field)), limit))
    }

    /** `getContentFromBuckets`: drain the named arrays by descending key up to `limit`. */
    method GetContentFromBuckets(user: User, field: BucketField, limit: int) returns (r: Result<seq<Content>, Failure>)
      ensures r == ContentOf(user, field, limit)
    {
      if limit < 0 {
        return Failure(IllegalArgument);
      }
      var owned := if user.userId in buckets then buckets[user.userId] else [];
      var result := DrainNewestFirst(Arrays(owned, field), limit);
      r := Success(result);
    }

    /** `getFeedFor(user, limit)`: the feed arrays. */
    method GetLatestFeedFor(user: User, limit: int) returns (r: Result<seq<Content>, Failure>)
      ensures r == ContentOf(user, FeedArray, limit)
    {
      r := GetContentFromBuckets(user, FeedArray, limit);
    }

    /** `getFeedFor(user, anchor, limit)`: only the unanchored read is supported. */
    method GetFeedFor(user: User, anchor: Option<ContentId>, limit: int) returns (r: Result<seq<Content>, Failure>)
      ensures anchor.Some? ==> r == Failure(Raise(NotImplemented, "reason", Some(PaginationReason)))
      ensures anchor.None? ==> r == ContentOf(user, FeedArray, limit)
    {
      if anchor.None? {
        r := GetLatestFeedFor(user, limit);
        return;
      }
      r := Failure(Raise(NotImplemented, "reason", Some(PaginationReason)));
    }

    /** `getPostsBy(user, limit)`: the own-posts arrays when bucketed, else the content service. */
    method GetLatestPostsBy(user: User, limit: int) returns (r: Result<seq<Content>, Failure>)
      requires contentService.Valid()
      ensures config.bucketUsersPosts ==> r == ContentOf(user, PostArray, limit)
      ensures !config.bucketUsersPosts ==> r == Success(Extract(contentService.ListOf(user), None, limit, true))
    {
      if config.bucketUsersPosts {
        r := GetContentFromBuckets(user, PostArray, limit);
      } else {
        var page := contentService.GetContentFor(user, None, limit);
        r := Success(page);
      }
    }

    /** `getPostsBy(user, anchor, limit)`: only the unanchored read is supported. */
    method GetPostsBy(user: User, anchor: Option<ContentId>, limit: int) returns (r: Result<seq<Content>, Failure>)
      requires contentService.Valid()
      ensures anchor.Some? ==> r == Failure(Raise(NotImplemented, "reason", Some(PaginationReason)))
      ensures anchor.None? && config.bucketUsersPosts ==> r == ContentOf(user, PostArray, limit)
      ensures anchor.None? && !config.bucketUsersPosts ==> r == Success(Extract(contentService.ListOf(user), None, limit, true))
    {
      if anchor.None? {
        r := GetLatestPostsBy(user, limit);
        return;
      }
      r := Failure(Raise(NotImplemented, "reason", Some(PaginationReason)));
    }
  }
}
