/**
 * The read both bucket strategies perform: walk an owner's buckets from the
 * newest to the oldest, drain each from its last element back, and stop at
 * the limit.
 */
module BucketRead {
  import opened Api
  import opened Seqs
  import opened InMemoryUserService

  /** The owner ids of a follower listing, in listing order. */
  function OwnerIds(users: seq<User>): (r: seq<Key>)
    ensures |r| == |users|
    ensures forall i :: 0 <= i < |users| ==> r[i] == users[i].userId
  {
    if users == [] then [] else OwnerIds(users[..|users| - 1]) + [users[|users| - 1].userId]
  }

  /** Every item of `groups`, the last group's last item first. */
  function ReadOrder(groups: seq<seq<Content>>): seq<Content> {
    if groups == [] then []
    else Reverse(groups[|groups| - 1]) + ReadOrder(groups[..|groups| - 1])
  }

  /** Taking `m` from a concatenation takes from the front part first. */
  lemma {:induction false} TakeAppend<T>(a: seq<T>, b: seq<T>, m: nat)
    ensures Take(a + b, m) == Take(a, m) + Take(b, m - |Take(a, m)|)
  {
    if m <= |a| {
      assert Take(a + b, m) == a[..m];
      assert Take(b, 0) == [];
    } else {
      assert Take(a + b, m) == a + Take(b, m - |a|);
    }
  }

  /** A newer group is read before everything older. */
  lemma {:induction false} ReadOrderSnoc(groups: seq<seq<Content>>, g: seq<Content>)
    ensures ReadOrder(groups + [g]) == Reverse(g) + ReadOrder(groups)
  {
    assert (groups + [g])[..|groups|] == groups;
  }

  /** A positive read of a sequence headed by `item` is `item` and a read one shorter of the rest. */
  lemma TakeCons<T>(item: T, rest: seq<T>, m: nat)
    requires m > 0
    ensures Take([item] + rest, m) == [item] + Take(rest, m - 1)
  {
    TakeAppend([item], rest, m);
  }

  /** Appending one item to the newest group puts it at the head of the read order. */
  lemma {:induction false} ReadOrderPush(groups: seq<seq<Content>>, item: Content)
    requires groups != []
    ensures ReadOrder(groups[..|groups| - 1] + [groups[|groups| - 1] + [item]]) == [item] + ReadOrder(groups)
  {
    var front := groups[..|groups| - 1];
    var last := groups[|groups| - 1];
    assert groups == front + [last];
    ReadOrderSnoc(front, last + [item]);
    ReadOrderSnoc(front, last);
    ReverseAppend(last, [item]);
    assert Reverse([item]) == [item];
    assert Reverse(last + [item]) + ReadOrder(front) == [item] + (Reverse(last) + ReadOrder(front));
  }

  /** An empty newest group adds nothing to the read order. */
  lemma {:induction false} ReadOrderEmptyGroup(groups: seq<seq<Content>>)
    ensures ReadOrder(groups + [[]]) == ReadOrder(groups)
  {
    assert (groups + [[]])[..|groups|] == groups;
  }

  /** One bucket's worth of draining keeps the loop's account of what is left to read. */
  lemma {:induction false} DrainStep(front: seq<seq<Content>>, bucket: seq<Content>, total: seq<Content>,
                                     before: seq<Content>, taken: seq<Content>, limit: nat)
    requires |before| <= limit
    requires taken == Take(Reverse(bucket), limit - |before|)
    requires total == before + Take(ReadOrder(front + [bucket]), limit - |before|)
    ensures |before + taken| <= limit
    ensures total == (before + taken) + Take(ReadOrder(front), limit - |before + taken|)
  {
    ReadOrderSnoc(front, bucket);
    TakeAfter(total, before, Reverse(bucket), ReadOrder(front), taken, limit);
  }

  /** Reading `taken` off the front part of what is left leaves the rest of it to read. */
  lemma {:induction false} TakeAfter(total: seq<Content>, before: seq<Content>, backward: seq<Content>, rest: seq<Content>,
                                     taken: seq<Content>, limit: nat)
    requires |before| <= limit
    requires taken == Take(backward, limit - |before|)
    requires total == before + Take(backward + rest, limit - |before|)
    ensures |before + taken| <= limit
    ensures total == (before + taken) + Take(rest, limit - |before + taken|)
  {
    var m := limit - |before|;
    TakeAppend(backward, rest, m);
    var after := Take(rest, m - |taken|);
    assert before + (taken + after) == (before + taken) + after;
  }

  /**
   * The drain loop: buckets newest first, each from its end, at most
   * `limit` items in all.
   */
  method DrainNewestFirst(groups: seq<seq<Content>>, limit: nat) returns (result: seq<Content>)
    ensures result == Take(ReadOrder(groups), limit)
  {
    result := [];
    var j := |groups|;
    assert groups[..j] == groups;
    while j > 0 && |result| < limit
      invariant 0 <= j <= |groups|
      invariant |result| <= limit
      invariant Take(ReadOrder(groups), limit) == result + Take(ReadOrder(groups[..j]), limit - |result|)
    {
      var bucket := groups[j - 1];
      var before := result;
      result := DrainBucket(bucket, result, limit);
      ghost var taken := Take(Reverse(bucket), limit - |before|);
      assert groups[..j] == groups[..j - 1] + [bucket];
      DrainStep(groups[..j - 1], bucket, Take(ReadOrder(groups), limit), before, taken, limit);
      j := j - 1;
    }
  }

  /** The inner loop: one bucket from its last element back, appended to `result` until `limit` is reached. */
  method DrainBucket(bucket: seq<Content>, result: seq<Content>, limit: nat) returns (drained: seq<Content>)
    requires |result| <= limit
    ensures drained == result + Take(Reverse(bucket), limit - |result|)
  {
    drained := result;
    ghost var backward := Reverse(bucket);
    var k := 0;
    while k < |bucket| && |drained| < limit
      invariant 0 <= k <= |bucket|
      invariant |result| + k <= limit
      invariant drained == result + backward[..k]
    {
      assert backward[k] == bucket[|bucket| - 1 - k];
      assert backward[..k + 1] == backward[..k] + [backward[k]];
      drained := drained + [bucket[|bucket| - 1 - k]];
      k := k + 1;
    }
    assert backward[..k] == Take(backward, limit - |result|);
  }
}
