/**
 * ContentListHelper: anchored pages of one ascending content list, cursors
 * positioned at an anchor, and the k-way merge of such cursors. Each method
 * is proved equal to its specification in FeedOrder.
 */
module ContentListHelper {
  import opened Wrappers
  import opened Api
  import opened Seqs
  import opened FeedOrder
  import opened Walkers

  /**
   * `Collections.binarySearch(source, marker, timeOrderComparator)`: the
   * index of the item with id `key`, or -(insertion point) - 1 on an
   * ascending list; on any list, whatever the probes reach.
   */
  method BinarySearch(source: seq<Content>, key: ObjectId) returns (index: int)
    ensures index == Search(source, key)
    ensures Ascending(source) ==> index == if Found(source, key) then Below(source, key) else -(Below(source, key) + 1)
  {
    var low, high := 0, |source| - 1;
    while low <= high
      invariant 0 <= low <= high + 1 <= |source|
      invariant SearchFrom(source, key, low, high) == Search(source, key)
      decreases high - low
    {
      var mid := Midpoint(low, high);
      if source[mid].id < key {
        low := mid + 1;
      } else if source[mid].id > key {
        high := mid - 1;
      } else {
        index := mid;
        break;
      }
    }
    if low > high {
      index := -(low + 1);
    }
    if Ascending(source) {
      SearchAscending(source, key);
    }
  }

  /**
   * `extractContent`: the page of `source` around `anchor` (see
   * FeedOrder.Extract), filled by index loops that count `limit` down.
   */
  method ExtractContent(source: seq<Content>, anchor: Option<ContentId>, limit: int, allowFutureAnchor: bool)
    returns (results: seq<Content>)
    ensures results == ExtractAsWritten(source, anchor, limit, allowFutureAnchor)
    ensures anchor.None? || Ascending(source) ==> results == Extract(source, anchor, limit, allowFutureAnchor)
  {
    var count := Abs(limit);
    var forward := limit > 0;
    results := [];
    if anchor.Some? {
      var index := BinarySearch(source, anchor.value.id);
      if Abs(index) < |source| || allowFutureAnchor {
        if forward {
          results := WalkDown(source, OlderFrom(index), count);
        } else {
          results := WalkUp(source, NewerFrom(index), count);
          results := Reverse(results);
        }
      }
      assert results == ExtractAsWritten(source, anchor, limit, allowFutureAnchor);
    } else if forward {
      results := WalkDown(source, |source| - 1, count);
      assert source[..|source|] == source;
    }
    if anchor.None? || Ascending(source) {
      ExtractAsWrittenAscending(source, anchor, limit, allowFutureAnchor);
    }
  }

  /** The counting loop `for (i = from; i >= 0 && count-- > 0; --i) results.add(source.get(i))`. */
  method WalkDown(source: seq<Content>, from: int, count: nat) returns (results: seq<Content>)
    requires -1 <= from < |source|
    ensures results == Take(Reverse(source[..from + 1]), count)
  {
    results := [];
    var i, left := from, count;
    while i >= 0 && left > 0
      invariant -1 <= i <= from
      invariant |results| == from - i && left == count - |results|
      invariant forall k :: 0 <= k < |results| ==> results[k] == source[from - k]
    {
      left := left - 1;
      results := results + [source[i]];
      i := i - 1;
    }
  }

  /** The counting loop `for (i = from; i < source.size() && count-- > 0; ++i) results.add(source.get(i))`. */
  method WalkUp(source: seq<Content>, from: nat, count: nat) returns (results: seq<Content>)
    requires from <= |source|
    ensures results == Take(source[from..], count)
  {
    results := [];
    var i, left := from, count;
    while i < |source| && left > 0
      invariant from <= i <= |source|
      invariant results == source[from..i]
      invariant left == count - |results|
    {
      left := left - 1;
      results := results + [source[i]];
      i := i + 1;
    }
  }

  /**
   * `getContentWalker`: a cursor that yields, in order, what a merge should
   * draw from this list: everything newest first without an anchor, the
   * items older than the anchor newest first for a positive limit, the
   * items newer than it oldest first otherwise.
   */
  method GetContentWalker(source: seq<Content>, anchor: Option<ContentId>, limit: int) returns (walker: ListWalker)
    requires anchor.Some? ==> Ascending(source)
    ensures fresh(walker) && walker.Valid() && walker.subject == source
    ensures walker.Remaining() == WalkerYield(source, anchor, limit)
  {
    if anchor.None? {
      walker := new ListWalker.Reverse(source);
    } else {
      var index := BinarySearch(source, anchor.value.id);
      if limit > 0 {
        index := if index < 0 then Abs(index) - 2 else Abs(index) - 1;
        walker := new ListWalker.ReverseAt(source, index);
        OlderIsPrefix(source, anchor.value.id);
        if index < 0 {
          assert source[..index + 1] == [];
        }
      } else {
        index := if index < 0 then Abs(index) - 1 else Abs(index) + 1;
        walker := new ListWalker.At(source, index);
        NewerIsSuffix(source, anchor.value.id);
      }
    }
  }

  /** What a positioned cursor hands out, in terms of the reference filters. */
  function WalkerYield(source: seq<Content>, anchor: Option<ContentId>, limit: int): seq<Content> {
    if anchor.None? then Reverse(source)
    else if limit > 0 then Reverse(Older(source, anchor.value.id))
    else Newer(source, anchor.value.id)
  }

  /**
   * A positioned cursor yields in the scan direction of its limit: newest
   * first for a positive limit or no anchor, oldest first otherwise.
   */
  lemma WalkerYieldScanOrdered(source: seq<Content>, anchor: Option<ContentId>, limit: int)
    requires Ascending(source)
    requires anchor.None? ==> limit > 0
    ensures ScanOrdered(WalkerYield(source, anchor, limit), limit > 0)
  {
    if anchor.None? {
      ReverseOfAscending(source);
    } else if limit > 0 {
      OlderIsPrefix(source, anchor.value.id);
      AscendingSlice(source, 0, Below(source, anchor.value.id));
      ReverseOfAscending(source[..Below(source, anchor.value.id)]);
    } else {
      NewerIsSuffix(source, anchor.value.id);
      AscendingSlice(source, NewerStart(source, anchor.value.id), |source|);
    }
  }

  /** The walkers' remaining items, walker by walker. */
  function Rems(walkers: seq<ListWalker>): (r: seq<seq<Content>>)
    reads walkers
    requires forall i :: 0 <= i < |walkers| ==> walkers[i].Valid()
    ensures |r| == |walkers|
  {
    if walkers == [] then [] else [walkers[0].Remaining()] + Rems(walkers[1..])
  }

  lemma {:induction false} RemsAt(walkers: seq<ListWalker>)
    requires forall i :: 0 <= i < |walkers| ==> walkers[i].Valid()
    ensures forall i :: 0 <= i < |walkers| ==> Rems(walkers)[i] == walkers[i].Remaining()
  {
    if walkers != [] {
      RemsAt(walkers[1..]);
    }
  }

  predicate AllValid(walkers: seq<ListWalker>)
    reads walkers
  {
    forall i :: 0 <= i < |walkers| ==> walkers[i].Valid()
  }

  predicate Distinct(walkers: seq<ListWalker>) {
    forall i, j :: 0 <= i < j < |walkers| ==> walkers[i] != walkers[j]
  }

  /**
   * `merge`: repeatedly step the walker whose head the comparator ranks
   * lowest, until `|limit|` items are out or every walker is exhausted;
   * reverse the result when the limit is not positive.
   */
  method Merge(walkers: seq<ListWalker>, limit: int) returns (result: seq<Content>)
    requires AllValid(walkers) && Distinct(walkers)
    modifies walkers
    ensures AllValid(walkers)
    ensures result == if limit > 0 then MergeSpec(old(Rems(walkers)), limit, true)
                      else Reverse(MergeSpec(old(Rems(walkers)), -limit, false))
  {
    var count := Abs(limit);
    var forward := limit > 0;
    result := Drain(walkers, count, forward);
    if !forward {
      result := Reverse(result);
    }
  }

  /** What the merge still hands out from the walkers' current positions, at most `left` items. */
  ghost function Pending(walkers: seq<ListWalker>, left: int, forward: bool): seq<Content>
    reads walkers
    requires AllValid(walkers)
  {
    MergeSpec(Rems(walkers), left, forward)
  }

  /** `merge`'s outer loop: hand out up to `count` items, one scan and one step per item. */
  method Drain(walkers: seq<ListWalker>, count: nat, forward: bool) returns (result: seq<Content>)
    requires AllValid(walkers) && Distinct(walkers)
    modifies walkers
    ensures AllValid(walkers)
    ensures result == MergeSpec(old(Rems(walkers)), count, forward)
  {
    ghost var target := Pending(walkers, count, forward);
    ghost var left := count;
    result := [];
    while |result| < count
      invariant AllValid(walkers)
      invariant left == count - |result| >= 0
      invariant result + Pending(walkers, left, forward) == target
      decreases left
    {
      var next := TakeNext(walkers, forward, result, left, target);
      if next.None? {
        return;
      }
      result, left := result + [next.value], left - 1;
    }
    assert result + [] == result;
  }

  /**
   * One round of `merge`: scan for the walker whose head the comparator
   * ranks lowest and step it, or report that every walker is exhausted.
   * `result` is what the merge has handed out so far and `target` what it
   * will have handed out at the end.
   */
  method TakeNext(walkers: seq<ListWalker>, forward: bool, ghost result: seq<Content>, ghost left: nat,
                  ghost target: seq<Content>) returns (next: Option<Content>)
    requires AllValid(walkers) && Distinct(walkers) && left > 0
    requires result + Pending(walkers, left, forward) == target
    modifies walkers
    ensures AllValid(walkers)
    ensures next.None? ==> result == target
    ensures next.Some? ==> (result + [next.value]) + Pending(walkers, left - 1, forward) == target
  {
    ghost var rems := Rems(walkers);
    var lowest := FindLowest(walkers, forward);
    if lowest < 0 {
      assert result + [] == result;
      return None;
    }
    var item := StepWalker(walkers, lowest);
    MergeRound(result, rems, lowest, item, left, forward, target);
    next := Some(item);
  }

  /** One scan of `merge`'s inner loop: the walker whose head the comparator ranks lowest, or -1. */
  method FindLowest(walkers: seq<ListWalker>, forward: bool) returns (lowest: int)
    requires AllValid(walkers)
    ensures lowest == Pick(Rems(walkers), forward)
  {
    ghost var rems := Rems(walkers);
    RemsAt(walkers);
    lowest := -1;
    var j := 0;
    while j < |walkers|
      invariant 0 <= j <= |walkers|
      invariant lowest == PickUpTo(rems, j, forward)
    {
      var l := walkers[j];
      assert rems[j] == l.Remaining();
      assert lowest >= 0 ==> rems[lowest] == walkers[lowest].Remaining();
      if !l.AtEnd() {
        if lowest < 0 {
          lowest := j;
        } else if l.Get().Some? && Prefer(l.Get().value, walkers[lowest].Get().value, forward) {
          lowest := j;
        }
      }
      j := j + 1;
    }
  }

  /** `lowest.step()`: the chosen walker hands out its head and only it moves. */
  method StepWalker(walkers: seq<ListWalker>, k: nat) returns (item: Content)
    requires AllValid(walkers) && Distinct(walkers)
    requires k < |walkers| && Rems(walkers)[k] != []
    modifies walkers[k]
    ensures AllValid(walkers)
    ensures item == old(Rems(walkers))[k][0]
    ensures Rems(walkers) == old(Rems(walkers))[k := old(Rems(walkers))[k][1..]]
  {
    ghost var rems := Rems(walkers);
    RemsAt(walkers);
    var r := walkers[k].Step();
    item := r.value;
    RemsAt(walkers);
    forall i | 0 <= i < |walkers| && i != k ensures walkers[i].Remaining() == rems[i] {
      assert walkers[i] != walkers[k];
    }
  }

  /** The bookkeeping of one round of `merge`: the picked head joins the result. */
  lemma MergeRound(result: seq<Content>, rems: seq<seq<Content>>, p: int, item: Content, left: int,
                   forward: bool, target: seq<Content>)
    requires left > 0 && p == Pick(rems, forward) && p >= 0 && item == rems[p][0]
    requires result + MergeSpec(rems, left, forward) == target
    ensures (result + [item]) + MergeSpec(rems[p := rems[p][1..]], left - 1, forward) == target
  {
    MergeUnfold(rems, left, forward);
    var tail := MergeSpec(rems[p := rems[p][1..]], left - 1, forward);
    assert (result + [item]) + tail == result + ([item] + tail);
  }
}
