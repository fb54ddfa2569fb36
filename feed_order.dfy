/**
 * The time order of content lists, stated as functions: what an anchored page
 * of an ascending list is, and what a k-way merge of cursors yields. The
 * methods in ContentListHelper are proved equal to these; the lemmas here say
 * what the functions mean.
 */
module FeedOrder {
  import opened Wrappers
  import opened Api
  import opened Seqs

  /** A per-author content list: strictly ascending by id (oldest first). */
  predicate Ascending(s: seq<Content>) {
    forall i, j :: 0 <= i < j < |s| ==> s[i].id < s[j].id
  }

  /** Non-increasing by id: newest first. */
  predicate NewestFirst(s: seq<Content>) {
    forall i, j :: 0 <= i < j < |s| ==> s[i].id >= s[j].id
  }

  /**
   * The insertion point of `key`: how many leading items are older than it.
   * On an ascending list this is where a binary search for `key` lands.
   */
  function Below(s: seq<Content>, key: ObjectId): (r: nat)
    ensures r <= |s|
    ensures forall i :: 0 <= i < r ==> s[i].id < key
    ensures r < |s| ==> s[r].id >= key
  {
    if s == [] || s[0].id >= key then 0 else 1 + Below(s[1..], key)
  }

  /** On an ascending list every item from the insertion point on is at least `key`. */
  lemma BelowSplits(s: seq<Content>, key: ObjectId)
    requires Ascending(s)
    ensures forall i :: Below(s, key) <= i < |s| ==> s[i].id >= key
  {
  }

  /** Whether an item with id `key` is in the ascending list (at its insertion point). */
  predicate Found(s: seq<Content>, key: ObjectId) {
    Below(s, key) < |s| && s[Below(s, key)].id == key
  }

  /** The items strictly older than `key`, in list order (a reference filter). */
  function Older(s: seq<Content>, key: ObjectId): seq<Content> {
    if s == [] then [] else (if s[0].id < key then [s[0]] else []) + Older(s[1..], key)
  }

  /** The items strictly newer than `key`, in list order (a reference filter). */
  function Newer(s: seq<Content>, key: ObjectId): seq<Content> {
    if s == [] then [] else (if s[0].id > key then [s[0]] else []) + Newer(s[1..], key)
  }

  /** `Older` keeps exactly the items of the list older than `key`. */
  lemma {:induction false} OlderMembers(s: seq<Content>, key: ObjectId)
    ensures forall c :: c in Older(s, key) <==> c in s && c.id < key
  {
    if s != [] {
      OlderMembers(s[1..], key);
      assert s == [s[0]] + s[1..];
    }
  }

  /** `Newer` keeps exactly the items of the list newer than `key`. */
  lemma {:induction false} NewerMembers(s: seq<Content>, key: ObjectId)
    ensures forall c :: c in Newer(s, key) <==> c in s && c.id > key
  {
    if s != [] {
      NewerMembers(s[1..], key);
      assert s == [s[0]] + s[1..];
    }
  }

  /** Where the first newer item sits: past the anchor when it is present. */
  function NewerStart(s: seq<Content>, key: ObjectId): (r: nat)
    ensures r <= |s|
  {
    if Found(s, key) then Below(s, key) + 1 else Below(s, key)
  }

  lemma {:induction false} OlderIsPrefix(s: seq<Content>, key: ObjectId)
    requires Ascending(s)
    ensures Older(s, key) == s[..Below(s, key)]
  {
    if s != [] {
      var t := s[1..];
      if s[0].id < key {
        assert Ascending(t);
        OlderIsPrefix(t, key);
        assert Older(s, key) == [s[0]] + t[..Below(t, key)];
        assert s[..Below(s, key)] == [s[0]] + t[..Below(t, key)];
      } else {
        assert forall i :: 0 <= i < |t| ==> t[i].id >= key by {
          forall i | 0 <= i < |t| ensures t[i].id >= key {
            assert s[0].id < s[i + 1].id;
          }
        }
        NoneOlder(t, key);
      }
    }
  }

  lemma {:induction false} NoneOlder(s: seq<Content>, key: ObjectId)
    requires forall i :: 0 <= i < |s| ==> s[i].id >= key
    ensures Older(s, key) == []
  {
    if s != [] {
      NoneOlder(s[1..], key);
    }
  }

  lemma {:induction false} AllNewer(s: seq<Content>, key: ObjectId)
    requires forall i :: 0 <= i < |s| ==> s[i].id > key
    ensures Newer(s, key) == s
  {
    if s != [] {
      AllNewer(s[1..], key);
    }
  }

  lemma {:induction false} NewerIsSuffix(s: seq<Content>, key: ObjectId)
    requires Ascending(s)
    ensures Newer(s, key) == s[NewerStart(s, key)..]
  {
    if s != [] {
      AscendingSlice(s, 1, |s|);
      if s[0].id < key {
        NewerIsSuffix(s[1..], key);
        NewerPastOlderHead(s, key);
      } else {
        AllNewer(s[1..], key);
      }
    }
  }

  /** Dropping an item older than `key` moves the newer suffix's start back by one. */
  lemma NewerPastOlderHead(s: seq<Content>, key: ObjectId)
    requires s != [] && s[0].id < key
    requires Newer(s[1..], key) == s[1..][NewerStart(s[1..], key)..]
    ensures Newer(s, key) == s[NewerStart(s, key)..]
  {
    var t := s[1..];
    assert Below(s, key) == 1 + Below(t, key);
    assert Found(s, key) == Found(t, key) by {
      assert s[1 + Below(t, key)..] == t[Below(t, key)..];
    }
    assert NewerStart(s, key) == 1 + NewerStart(t, key);
    assert Newer(s, key) == Newer(t, key);
    assert s[1 + NewerStart(t, key)..] == t[NewerStart(t, key)..];
  }

  /**
   * The magnitude of `Collections.binarySearch`'s answer for `key`: the
   * index when found, the insertion point plus one when not.
   */
  function SearchDistance(source: seq<Content>, key: ObjectId): nat {
    if Found(source, key) then Below(source, key) else Below(source, key) + 1
  }

  /** Whether an anchored read goes ahead at all. */
  predicate AnchorAccepted(source: seq<Content>, key: ObjectId, allowFutureAnchor: bool) {
    SearchDistance(source, key) < |source| || allowFutureAnchor
  }

  /** Up to `limit` items just older than `key`, newest first. */
  function OlderPage(source: seq<Content>, key: ObjectId, limit: int): seq<Content> {
    Take(Reverse(source[..Below(source, key)]), limit)
  }

  /** Up to `count` items just newer than `key`, turned newest first. */
  function NewerPage(source: seq<Content>, key: ObjectId, count: int): seq<Content> {
    Reverse(Take(source[NewerStart(source, key)..], count))
  }

  /**
   * `extractContent(source, anchor, limit, allowFutureAnchor)`. With no
   * anchor, the newest `limit` items; with an anchor and a positive limit, up
   * to `limit` items just older than it; otherwise up to -limit items just
   * newer than it; always newest first. The guard drops the anchored read
   * when the binary search result's magnitude reaches the list size and
   * future anchors are not allowed.
   */
  function Extract(source: seq<Content>, anchor: Option<ContentId>, limit: int, allowFutureAnchor: bool): seq<Content> {
    if anchor.None? then
      (if limit > 0 then Take(Reverse(source), limit) else [])
    else if !AnchorAccepted(source, anchor.value.id, allowFutureAnchor) then []
    else if limit > 0 then OlderPage(source, anchor.value.id, limit)
    else NewerPage(source, anchor.value.id, -limit)
  }

  /**
   * The probe between `low` and `high`: `(low + high) >>> 1`, which for the
   * non-negative indices of a list is their halved sum.
   */
  function Midpoint(low: int, high: int): (m: int)
    requires 0 <= low <= high
    ensures low <= m <= high
  {
    (low + high) / 2
  }

  /**
   * The probes of `Collections.binarySearch` between `low` and `high`, on
   * any list: the index of a probe that hits `key`, or -(low + 1) once the
   * range is empty.
   */
  function SearchFrom(source: seq<Content>, key: ObjectId, low: int, high: int): (r: int)
    requires 0 <= low <= high + 1 <= |source|
    ensures -(|source| + 1) <= r < |source|
    ensures r >= 0 ==> source[r].id == key
    decreases high - low
  {
    if low > high then -(low + 1)
    else
      var mid := Midpoint(low, high);
      if source[mid].id < key then SearchFrom(source, key, mid + 1, high)
      else if source[mid].id > key then SearchFrom(source, key, low, mid - 1)
      else mid
  }

  /** `Collections.binarySearch(source, key)` by id, on any list. */
  function Search(source: seq<Content>, key: ObjectId): int {
    SearchFrom(source, key, 0, |source| - 1)
  }

  /**
   * The binary search is right on any list that `key` splits at `b`: older
   * items before `b`, newer items after it, and at `b` either `key` itself
   * (`found`) or a newer item. Narrowing the range around `b`, never past a
   * found `key`, keeps the answer.
   */
  lemma {:induction false} SearchFromSplit(source: seq<Content>, key: ObjectId, low: int, high: int, b: nat, found: bool)
    requires 0 <= low <= b <= high + 1 <= |source|
    requires forall i :: 0 <= i < b ==> source[i].id < key
    requires forall i :: b < i < |source| ==> source[i].id > key
    requires b < |source| ==> (found <==> source[b].id == key) && source[b].id >= key
    requires found ==> b <= high
    requires b == |source| ==> !found
    ensures SearchFrom(source, key, low, high) == if found then b else -(b + 1)
    decreases high - low
  {
    if low <= high {
      var mid := Midpoint(low, high);
      if source[mid].id < key {
        SearchFromSplit(source, key, mid + 1, high, b, found);
      } else if source[mid].id > key {
        SearchFromSplit(source, key, low, mid - 1, b, found);
      }
    }
  }

  /**
   * On an ascending list the binary search answers the index of `key` when
   * present, and -(insertion point) - 1 otherwise.
   */
  lemma SearchAscending(source: seq<Content>, key: ObjectId)
    requires Ascending(source)
    ensures Search(source, key) == if Found(source, key) then Below(source, key) else -(Below(source, key) + 1)
  {
    var b := Below(source, key);
    BelowsAreNewer(source, key);
    SearchFromSplit(source, key, 0, |source| - 1, b, Found(source, key));
  }

  /** On an ascending list every item past the insertion point is newer than `key`. */
  lemma BelowsAreNewer(source: seq<Content>, key: ObjectId)
    requires Ascending(source)
    ensures forall i :: Below(source, key) < i < |source| ==> source[i].id > key
  {
    var b := Below(source, key);
    forall i | b < i < |source| ensures source[i].id > key {
      assert source[b].id < source[i].id;
    }
  }

  /** The last index a walk toward older items reads: just before the anchor or its insertion point. */
  function OlderFrom(index: int): int {
    if index < 0 then Abs(index) - 2 else Abs(index) - 1
  }

  /** The first index a walk toward newer items reads: just past the anchor or at its insertion point. */
  function NewerFrom(index: int): int {
    if index < 0 then Abs(index) - 1 else Abs(index) + 1
  }

  /**
   * `extractContent` exactly as its index arithmetic reads, on any list
   * (a cached list need not be sorted): the binary search answer decides the
   * guard and where the counting loops start.
   */
  function ExtractAsWritten(source: seq<Content>, anchor: Option<ContentId>, limit: int, allowFutureAnchor: bool): seq<Content> {
    if anchor.None? then
      (if limit > 0 then Take(Reverse(source), limit) else [])
    else
      var index := Search(source, anchor.value.id);
      if !(Abs(index) < |source| || allowFutureAnchor) then []
      else if limit > 0 then Take(Reverse(source[..OlderFrom(index) + 1]), limit)
      else Reverse(Take(source[NewerFrom(index)..], -limit))
  }

  /** On an ascending list the index arithmetic reads exactly the pages `Extract` describes. */
  lemma ExtractAsWrittenAscending(source: seq<Content>, anchor: Option<ContentId>, limit: int, allow: bool)
    requires anchor.None? || Ascending(source)
    ensures ExtractAsWritten(source, anchor, limit, allow) == Extract(source, anchor, limit, allow)
  {
    if anchor.Some? {
      var key := anchor.value.id;
      var index := Search(source, key);
      SearchAscending(source, key);
      assert Abs(index) == SearchDistance(source, key);
      assert OlderFrom(index) + 1 == Below(source, key);
      assert NewerFrom(index) == NewerStart(source, key);
      if !AnchorAccepted(source, key, allow) {
        assert ExtractAsWritten(source, anchor, limit, allow) == [];
      } else if limit > 0 {
        assert ExtractAsWritten(source, anchor, limit, allow) == OlderPage(source, key, limit);
      } else {
        assert ExtractAsWritten(source, anchor, limit, allow) == NewerPage(source, key, -limit);
      }
    }
  }

  /** Without an anchor: the newest min(limit, |source|) items, newest first; nothing for limit <= 0. */
  lemma ExtractLatest(source: seq<Content>, limit: int, allow: bool)
    requires Ascending(source)
    ensures var r := Extract(source, None, limit, allow);
      |r| == (if limit <= 0 then 0 else Min(limit, |source|))
      && NewestFirst(r)
      && (limit > 0 ==> r == Reverse(source[|source| - |r|..]))
  {
    var r := Extract(source, None, limit, allow);
    if limit > 0 {
      ReverseSuffixIsPrefixOfReverse(source, |r|);
    }
  }

  lemma AscendingSlice(s: seq<Content>, i: nat, j: nat)
    requires Ascending(s) && i <= j <= |s|
    ensures Ascending(s[i..j])
  {
  }

  lemma ReverseOfAscending(s: seq<Content>)
    requires Ascending(s)
    ensures NewestFirst(Reverse(s))
  {
    var r := Reverse(s);
    forall i, j | 0 <= i < j < |r| ensures r[i].id >= r[j].id {
      assert r[i] == s[|s| - 1 - i] && r[j] == s[|s| - 1 - j];
    }
  }

  lemma TakeKeeps(s: seq<Content>, n: int)
    ensures NewestFirst(s) ==> NewestFirst(Take(s, n))
    ensures Ascending(s) ==> Ascending(Take(s, n))
    ensures forall c :: c in Take(s, n) ==> c in s
  {
  }

  lemma ReverseKeeps(s: seq<Content>)
    ensures forall c :: c in Reverse(s) <==> c in s
  {
    var r := Reverse(s);
    forall c | c in r ensures c in s {
      var i :| 0 <= i < |r| && r[i] == c;
      assert s[|s| - 1 - i] == c;
    }
    forall c | c in s ensures c in r {
      var i :| 0 <= i < |s| && s[i] == c;
      assert r[|s| - 1 - i] == c;
    }
  }

  /**
   * An anchored read with a positive limit returns the `limit` newest of the
   * items older than the anchor, newest first; the anchor itself never.
   */
  lemma ExtractOlder(source: seq<Content>, anchor: ContentId, limit: int, allow: bool)
    requires Ascending(source) && limit > 0
    requires AnchorAccepted(source, anchor.id, allow)
    ensures var r := Extract(source, Some(anchor), limit, allow);
      r == Take(Reverse(Older(source, anchor.id)), limit)
      && NewestFirst(r)
      && (forall c :: c in r ==> c in source && c.id < anchor.id)
  {
    var b := Below(source, anchor.id);
    var older := source[..b];
    OlderIsPrefix(source, anchor.id);
    AscendingSlice(source, 0, b);
    ReverseOfAscending(older);
    ReverseKeeps(older);
    TakeKeeps(Reverse(older), limit);
  }

  /**
   * An anchored read with a non-positive limit returns the -limit oldest of
   * the items newer than the anchor, turned newest first.
   */
  lemma ExtractNewer(source: seq<Content>, anchor: ContentId, limit: int, allow: bool)
    requires Ascending(source) && limit <= 0
    requires AnchorAccepted(source, anchor.id, allow)
    ensures var r := Extract(source, Some(anchor), limit, allow);
      r == Reverse(Take(Newer(source, anchor.id), -limit))
      && NewestFirst(r)
      && (forall c :: c in r ==> c in source && c.id > anchor.id)
  {
    var start := NewerStart(source, anchor.id);
    var newer := source[start..];
    NewerIsSuffix(source, anchor.id);
    NewerMembers(source, anchor.id);
    AscendingSlice(source, start, |source|);
    var t := Take(newer, -limit);
    TakeKeeps(newer, -limit);
    ReverseOfAscending(t);
    ReverseKeeps(t);
  }

  /**
   * Without `allowFutureAnchor`, an absent anchor newer than the
   * second-to-last item yields nothing: past the end, or between the last two.
   */
  lemma ExtractFutureAnchorRefused(source: seq<Content>, anchor: ContentId, limit: int)
    requires Ascending(source) && |source| >= 1
    requires anchor.id > (if |source| == 1 then 0 else source[|source| - 2].id) || (|source| == 1 && anchor.id != source[0].id)
    requires anchor.id != source[|source| - 1].id
    ensures Extract(source, Some(anchor), limit, false) == []
  {
    BelowSplits(source, anchor.id);
    if |source| >= 2 && anchor.id > source[|source| - 2].id {
      assert Below(source, anchor.id) >= |source| - 1;
    }
  }

  /**
   * Paging: the page after a full page of `limit` older items, anchored at
   * its last item, continues exactly where the first stopped, so the two
   * pages together are the page of 2*limit.
   */
  lemma {:induction false} ExtractPagesChain(source: seq<Content>, anchor: Option<ContentId>, limit: int)
    requires Ascending(source) && limit > 0
    requires |Extract(source, anchor, limit, true)| == limit
    ensures var first := Extract(source, anchor, limit, true);
      first + Extract(source, Some(AnchorOf(first[limit - 1])), limit, true) == Extract(source, anchor, 2 * limit, true)
  {
    var first := Extract(source, anchor, limit, true);
    var top := OlderThanAnchor(source, anchor);
    FullPageEndsAt(source, anchor, limit);
    var k: nat := top - limit;
    assert first[limit - 1] == source[k];
    var second := Extract(source, Some(AnchorOf(source[k])), limit, true);
    ExtractAtItem(source, k, limit);
    var both := Extract(source, anchor, 2 * limit, true);
    ExtractReadsOlder(source, anchor, 2 * limit);
    PagesJoin(source, top, limit, first, second, both);
  }

  /** Two consecutive pages of the reversed prefix make up the page of twice the size. */
  lemma PagesJoin(source: seq<Content>, top: nat, limit: nat, first: seq<Content>, second: seq<Content>, both: seq<Content>)
    requires limit <= top <= |source|
    requires first == Take(Reverse(source[..top]), limit)
    requires second == Take(Reverse(source[..top - limit]), limit)
    requires both == Take(Reverse(source[..top]), 2 * limit)
    ensures first + second == both
  {
    var prefix := source[..top];
    TakeReverseInPages(prefix, limit);
    assert prefix[..top - limit] == source[..top - limit];
  }

  /** A full page of `limit` older items ends at index top - limit of the list. */
  lemma FullPageEndsAt(source: seq<Content>, anchor: Option<ContentId>, limit: int)
    requires limit > 0 && |Extract(source, anchor, limit, true)| == limit
    ensures var top := OlderThanAnchor(source, anchor);
      limit <= top <= |source|
      && Extract(source, anchor, limit, true) == Take(Reverse(source[..top]), limit)
      && Extract(source, anchor, limit, true)[limit - 1] == source[top - limit]
  {
    ExtractReadsOlder(source, anchor, limit);
  }

  /** Anchored at an item of an ascending list, an older page reads the items before it. */
  lemma ExtractAtItem(source: seq<Content>, k: nat, limit: int)
    requires Ascending(source) && k < |source| && limit > 0
    ensures Extract(source, Some(AnchorOf(source[k])), limit, true) == Take(Reverse(source[..k]), limit)
  {
    BelowAt(source, k);
  }

  /** How many items of the list an anchored (or unanchored) read may look at. */
  function OlderThanAnchor(source: seq<Content>, anchor: Option<ContentId>): nat {
    if anchor.None? then |source| else Below(source, anchor.value.id)
  }

  /** With a positive limit and future anchors allowed, every read is a page of older items. */
  lemma ExtractReadsOlder(source: seq<Content>, anchor: Option<ContentId>, limit: int)
    requires limit > 0
    ensures OlderThanAnchor(source, anchor) <= |source|
    ensures Extract(source, anchor, limit, true) == Take(Reverse(source[..OlderThanAnchor(source, anchor)]), limit)
  {
    if anchor.None? {
      assert source[..|source|] == source;
    }
  }

  /** The insertion point of an item's own id in an ascending list is its index. */
  lemma BelowAt(s: seq<Content>, k: nat)
    requires Ascending(s) && k < |s|
    ensures Below(s, s[k].id) == k
  {
    BelowSplits(s, s[k].id);
  }

  /* ---------------------------------------------------------------------- */
  /* The k-way merge                                                         */
  /* ---------------------------------------------------------------------- */

  /**
   * The merge's comparison, `compare(candidate, lowest) <= 0`: reading older
   * items (newest = true) prefers the larger id, reading newer ones the
   * smaller; on a tie the candidate, the later walker, wins.
   */
  predicate Prefer(candidate: Content, lowest: Content, newest: bool) {
    if newest then candidate.id >= lowest.id else candidate.id <= lowest.id
  }

  /**
   * The walker index a scan of the first n remaining-sequences settles on,
   * or -1 when they are all exhausted.
   */
  function PickUpTo(rems: seq<seq<Content>>, n: nat, newest: bool): (r: int)
    requires n <= |rems|
    ensures -1 <= r < n
    ensures r >= 0 ==> rems[r] != []
  {
    if n == 0 then -1
    else
      var p := PickUpTo(rems, n - 1, newest);
      if rems[n - 1] == [] then p
      else if p < 0 then n - 1
      else if Prefer(rems[n - 1][0], rems[p][0], newest) then n - 1
      else p
  }

  /** The scan settles on no walker exactly when every walker it saw is exhausted. */
  lemma {:induction false} PickUpToExhausted(rems: seq<seq<Content>>, n: nat, newest: bool)
    requires n <= |rems|
    ensures PickUpTo(rems, n, newest) == -1 <==> forall j :: 0 <= j < n ==> rems[j] == []
  {
    if n > 0 {
      PickUpToExhausted(rems, n - 1, newest);
    }
  }

  function Pick(rems: seq<seq<Content>>, newest: bool): int {
    PickUpTo(rems, |rems|, newest)
  }

  /**
   * The scan's choice is preferred over every non-exhausted head it saw, and
   * no later head is preferred over it: ties go to the later walker.
   */
  lemma {:induction false} PickUpToPrefers(rems: seq<seq<Content>>, n: nat, newest: bool)
    requires n <= |rems|
    ensures var r := PickUpTo(rems, n, newest);
      r >= 0 ==> forall j :: 0 <= j < n && rems[j] != [] ==> Prefer(rems[r][0], rems[j][0], newest)
    ensures var r := PickUpTo(rems, n, newest);
      r >= 0 ==> forall j :: r < j < n && rems[j] != [] ==> !Prefer(rems[j][0], rems[r][0], newest)
  {
    if n > 0 {
      PickUpToPrefers(rems, n - 1, newest);
      PickUpToExhausted(rems, n - 1, newest);
    }
  }

  /** All items of all remaining-sequences, in walker order. */
  function Flatten(rems: seq<seq<Content>>): (r: seq<Content>)
    ensures rems == [] ==> r == []
  {
    if rems == [] then [] else rems[0] + Flatten(rems[1..])
  }

  /**
   * `merge`, before its final reversal: repeatedly hand out the head of the
   * preferred walker, at most `count` times and until every walker is
   * exhausted.
   */
  function MergeSpec(rems: seq<seq<Content>>, count: int, newest: bool): seq<Content>
    decreases count
  {
    if count <= 0 then []
    else
      var p := Pick(rems, newest);
      if p < 0 then [] else [rems[p][0]] + MergeSpec(rems[p := rems[p][1..]], count - 1, newest)
  }

  lemma {:induction false} FlattenUpdate(rems: seq<seq<Content>>, p: nat)
    requires p < |rems| && rems[p] != []
    ensures multiset(Flatten(rems)) == multiset{rems[p][0]} + multiset(Flatten(rems[p := rems[p][1..]]))
    ensures |Flatten(rems)| == 1 + |Flatten(rems[p := rems[p][1..]])|
  {
    var upd := rems[p := rems[p][1..]];
    if p == 0 {
      assert upd[1..] == rems[1..];
      assert rems[0] == [rems[0][0]] + rems[0][1..];
    } else {
      assert upd[1..] == rems[1..][p - 1 := rems[p][1..]];
      FlattenUpdate(rems[1..], p - 1);
    }
  }

  lemma {:induction false} FlattenEmpty(rems: seq<seq<Content>>)
    requires forall j :: 0 <= j < |rems| ==> rems[j] == []
    ensures Flatten(rems) == []
  {
    if rems != [] {
      FlattenEmpty(rems[1..]);
    }
  }

  /** The merge hands out min(count, total remaining) items. */
  lemma {:induction false} MergeLength(rems: seq<seq<Content>>, count: int, newest: bool)
    ensures |MergeSpec(rems, count, newest)| == (if count <= 0 then 0 else Min(count, |Flatten(rems)|))
    decreases count
  {
    if count > 0 {
      var p := Pick(rems, newest);
      if p < 0 {
        PickUpToExhausted(rems, |rems|, newest);
        FlattenEmpty(rems);
        assert MergeSpec(rems, count, newest) == [];
      } else {
        var upd := rems[p := rems[p][1..]];
        FlattenUpdate(rems, p);
        MergeLength(upd, count - 1, newest);
        assert MergeSpec(rems, count, newest) == [rems[p][0]] + MergeSpec(upd, count - 1, newest);
      }
    }
  }

  /** What the walkers still hold once the merge has handed out its items. */
  function Leftover(rems: seq<seq<Content>>, count: int, newest: bool): seq<seq<Content>>
    decreases count
  {
    if count <= 0 then rems
    else
      var p := Pick(rems, newest);
      if p < 0 then rems else Leftover(rems[p := rems[p][1..]], count - 1, newest)
  }

  /**
   * Nothing is lost or invented: the items handed out and the items left in
   * the walkers are, together, exactly the items the walkers held.
   */
  /** The items the merge hands out, counted with multiplicity. */
  function Drawn(rems: seq<seq<Content>>, count: int, newest: bool): multiset<Content> {
    multiset(MergeSpec(rems, count, newest))
  }

  /** The items the walkers still hold after the merge, counted with multiplicity. */
  function Kept(rems: seq<seq<Content>>, count: int, newest: bool): multiset<Content> {
    multiset(Flatten(Leftover(rems, count, newest)))
  }

  /** The items the walkers hold, counted with multiplicity. */
  function Held(rems: seq<seq<Content>>): multiset<Content> {
    multiset(Flatten(rems))
  }

  lemma {:induction false} MergeConserves(rems: seq<seq<Content>>, count: int, newest: bool)
    ensures Drawn(rems, count, newest) + Kept(rems, count, newest) == Held(rems)
    decreases count
  {
    if count > 0 && Pick(rems, newest) >= 0 {
      var p := Pick(rems, newest);
      MergeConserves(rems[p := rems[p][1..]], count - 1, newest);
      ConservedStep(rems, count, newest);
    }
  }

  /** One round of the merge moves one item from the walkers to the output. */
  lemma ConservedStep(rems: seq<seq<Content>>, count: int, newest: bool)
    requires count > 0 && Pick(rems, newest) >= 0
    requires var upd := rems[Pick(rems, newest) := rems[Pick(rems, newest)][1..]];
      Drawn(upd, count - 1, newest) + Kept(upd, count - 1, newest) == Held(upd)
    ensures Drawn(rems, count, newest) + Kept(rems, count, newest) == Held(rems)
  {
    var p := Pick(rems, newest);
    var h, upd := rems[p][0], rems[p := rems[p][1..]];
    var rest, left := MergeSpec(upd, count - 1, newest), Leftover(upd, count - 1, newest);
    assert MergeSpec(rems, count, newest) == [h] + rest;
    assert Leftover(rems, count, newest) == left;
    FlattenUpdate(rems, p);
    ConsConserves(h, rest, multiset(Flatten(left)), multiset(Flatten(upd)), multiset(Flatten(rems)));
  }

  lemma ConsConserves(h: Content, rest: seq<Content>, kept: multiset<Content>, held: multiset<Content>, all: multiset<Content>)
    requires multiset(rest) + kept == held && all == multiset{h} + held
    ensures multiset([h] + rest) + kept == all
  {
    assert multiset([h] + rest) == multiset{h} + multiset(rest);
  }

  /** Every item the merge hands out was taken, once, from some walker. */
  lemma MergeDrawsFromWalkers(rems: seq<seq<Content>>, count: int, newest: bool)
    ensures multiset(MergeSpec(rems, count, newest)) <= multiset(Flatten(rems))
  {
    MergeConserves(rems, count, newest);
  }

  /** Each walker yields its items in the scan direction. */
  predicate ScanOrdered(s: seq<Content>, newest: bool) {
    forall i, j :: 0 <= i < j < |s| ==> (if newest then s[i].id >= s[j].id else s[i].id <= s[j].id)
  }

  /** Turning an oldest-first sequence around makes it newest first. */
  lemma ReverseOfOldestFirst(s: seq<Content>)
    requires ScanOrdered(s, false)
    ensures NewestFirst(Reverse(s))
  {
    var r := Reverse(s);
    forall i, j | 0 <= i < j < |r| ensures r[i].id >= r[j].id {
      assert r[i] == s[|s| - 1 - i] && r[j] == s[|s| - 1 - j];
    }
  }

  /** The head a scan picks is preferred to every item still in any walker. */
  lemma PickIsExtreme(rems: seq<seq<Content>>, newest: bool)
    requires forall j :: 0 <= j < |rems| ==> ScanOrdered(rems[j], newest)
    requires Pick(rems, newest) >= 0
    ensures forall c :: c in Flatten(rems) ==> Prefer(rems[Pick(rems, newest)][0], c, newest)
  {
    var p := Pick(rems, newest);
    PickUpToPrefers(rems, |rems|, newest);
    forall c | c in Flatten(rems) ensures Prefer(rems[p][0], c, newest) {
      var j, k := FlattenIndex(rems, c);
      assert Prefer(rems[p][0], rems[j][0], newest);
      if k > 0 {
        assert ScanOrdered(rems[j], newest);
      }
    }
  }

  lemma {:induction false} FlattenIndex(rems: seq<seq<Content>>, c: Content) returns (j: nat, k: nat)
    requires c in Flatten(rems)
    ensures j < |rems| && k < |rems[j]| && rems[j][k] == c
  {
    if c in rems[0] {
      j := 0;
      var i :| 0 <= i < |rems[0]| && rems[0][i] == c;
      k := i;
    } else {
      var j', k' := FlattenIndex(rems[1..], c);
      j, k := j' + 1, k';
    }
  }

  /**
   * When every walker yields in the scan direction, the merge does too:
   * descending ids when reading older items, ascending when reading newer.
   */
  lemma {:induction false} MergeOrdered(rems: seq<seq<Content>>, count: int, newest: bool)
    requires forall j :: 0 <= j < |rems| ==> ScanOrdered(rems[j], newest)
    ensures ScanOrdered(MergeSpec(rems, count, newest), newest)
    decreases count
  {
    if count > 0 && Pick(rems, newest) >= 0 {
      var p := Pick(rems, newest);
      var upd := rems[p := rems[p][1..]];
      assert ScanOrdered(rems[p], newest);
      assert forall j :: 0 <= j < |upd| ==> ScanOrdered(upd[j], newest);
      var rest := MergeSpec(upd, count - 1, newest);
      assert MergeSpec(rems, count, newest) == [rems[p][0]] + rest;
      MergeOrdered(upd, count - 1, newest);
      PickIsExtreme(rems, newest);
      forall c | c in rest ensures Prefer(rems[p][0], c, newest) {
        MergeMember(rems, p, count - 1, newest, c);
      }
      ConsOrdered(rems[p][0], rest, newest);
    }
  }

  /** An item the rest of the merge hands out was in some walker before the step. */
  lemma MergeMember(rems: seq<seq<Content>>, p: nat, count: int, newest: bool, c: Content)
    requires p < |rems| && rems[p] != []
    requires c in MergeSpec(rems[p := rems[p][1..]], count, newest)
    ensures c in Flatten(rems)
  {
    var upd := rems[p := rems[p][1..]];
    MergeDrawsFromWalkers(upd, count, newest);
    FlattenUpdate(rems, p);
    assert c in multiset(MergeSpec(upd, count, newest));
    assert multiset(Flatten(upd))[c] > 0;
    assert multiset(Flatten(rems))[c] > 0;
  }

  lemma ConsOrdered(h: Content, rest: seq<Content>, newest: bool)
    requires ScanOrdered(rest, newest)
    requires forall c :: c in rest ==> Prefer(h, c, newest)
    ensures ScanOrdered([h] + rest, newest)
  {
    var out := [h] + rest;
    forall i, j | 0 <= i < j < |out| ensures if newest then out[i].id >= out[j].id else out[i].id <= out[j].id {
      if i == 0 {
        assert out[j] in rest;
      } else {
        assert out[i] == rest[i - 1] && out[j] == rest[j - 1];
      }
    }
  }

  /**
   * Nothing left behind is preferred over what was handed out: every item
   * still in a walker after the merge ranks at or below its last item.
   */
  lemma {:induction false} MergeTakesTheTop(rems: seq<seq<Content>>, count: int, newest: bool)
    requires forall j :: 0 <= j < |rems| ==> ScanOrdered(rems[j], newest)
    requires MergeSpec(rems, count, newest) != []
    ensures forall c :: c in Flatten(Leftover(rems, count, newest)) ==> Prefer(Last(MergeSpec(rems, count, newest)), c, newest)
    decreases count
  {
    var p := Pick(rems, newest);
    assert count > 0 && p >= 0;
    var out := MergeSpec(rems, count, newest);
    var upd := rems[p := rems[p][1..]];
    var rest := MergeSpec(upd, count - 1, newest);
    assert Leftover(rems, count, newest) == Leftover(upd, count - 1, newest);
    if rest == [] {
      assert Leftover(upd, count - 1, newest) == upd;
      MergeLastIsPick(rems, count, newest);
    } else {
      ScanOrderedAfterStep(rems, p, newest, upd);
      MergeTakesTheTop(upd, count - 1, newest);
      MergeLastFromRest(rems, count, newest);
      assert Last(out) == Last(rest);
    }
  }

  /** When the merge's first pick is also its last, that pick outranks everything left. */
  lemma MergeLastIsPick(rems: seq<seq<Content>>, count: int, newest: bool)
    requires forall j :: 0 <= j < |rems| ==> ScanOrdered(rems[j], newest)
    requires count > 0 && Pick(rems, newest) >= 0
    requires MergeSpec(rems[Pick(rems, newest) := rems[Pick(rems, newest)][1..]], count - 1, newest) == []
    ensures var p := Pick(rems, newest); var out := MergeSpec(rems, count, newest);
      out != [] && forall c :: c in Flatten(rems[p := rems[p][1..]]) ==> Prefer(Last(out), c, newest)
  {
    var p := Pick(rems, newest);
    var upd := rems[p := rems[p][1..]];
    PickIsExtreme(rems, newest);
    FlattenUpdate(rems, p);
    assert MergeSpec(rems, count, newest) == [rems[p][0]];
    forall c | c in Flatten(upd) ensures Prefer(rems[p][0], c, newest) {
      assert multiset(Flatten(upd))[c] > 0;
      assert c in multiset(Flatten(rems));
    }
  }

  /** The last item of a non-empty list. */
  function Last(s: seq<Content>): Content
    requires s != []
  {
    s[|s| - 1]
  }

  lemma ScanOrderedAfterStep(rems: seq<seq<Content>>, p: nat, newest: bool, upd: seq<seq<Content>>)
    requires forall j :: 0 <= j < |rems| ==> ScanOrdered(rems[j], newest)
    requires p < |rems| && rems[p] != [] && upd == rems[p := rems[p][1..]]
    ensures forall j :: 0 <= j < |upd| ==> ScanOrdered(upd[j], newest)
  {
    assert ScanOrdered(rems[p], newest);
  }

  /** Past its first pick, the merge ends on the same item as the rest of it does. */
  lemma MergeLastFromRest(rems: seq<seq<Content>>, count: int, newest: bool)
    requires count > 0 && Pick(rems, newest) >= 0
    requires MergeSpec(rems[Pick(rems, newest) := rems[Pick(rems, newest)][1..]], count - 1, newest) != []
    ensures var out := MergeSpec(rems, count, newest);
      var rest := MergeSpec(rems[Pick(rems, newest) := rems[Pick(rems, newest)][1..]], count - 1, newest);
      out != [] && out[|out| - 1] == rest[|rest| - 1]
  {
  }

  /** One round of the merge: the picked head, then the merge of what is left. */
  lemma MergeUnfold(rems: seq<seq<Content>>, count: int, newest: bool)
    requires count > 0 && Pick(rems, newest) >= 0
    ensures var p := Pick(rems, newest);
      MergeSpec(rems, count, newest) == [rems[p][0]] + MergeSpec(rems[p := rems[p][1..]], count - 1, newest)
  {
  }

  /** A shorter merge is a prefix of a longer one: asking for fewer items changes none of them. */
  lemma {:induction false} MergePrefix(rems: seq<seq<Content>>, m: int, n: int, newest: bool)
    requires m <= n
    ensures Take(MergeSpec(rems, n, newest), m) == MergeSpec(rems, m, newest)
    decreases m
  {
    if m > 0 {
      var p := Pick(rems, newest);
      if p >= 0 {
        var upd := rems[p := rems[p][1..]];
        var h := rems[p][0];
        MergePrefix(upd, m - 1, n - 1, newest);
        var tail := MergeSpec(upd, n - 1, newest);
        assert MergeSpec(rems, n, newest) == [h] + tail;
        assert MergeSpec(rems, m, newest) == [h] + MergeSpec(upd, m - 1, newest);
        assert Take([h] + tail, m) == [h] + Take(tail, m - 1);
      }
    }
  }

  /** Once a merge runs out of items before its count, asking for more changes nothing. */
  lemma {:induction false} MergeSaturated(rems: seq<seq<Content>>, m: int, n: int, newest: bool)
    requires n <= m && |MergeSpec(rems, n, newest)| < n
    ensures MergeSpec(rems, m, newest) == MergeSpec(rems, n, newest)
    decreases n
  {
    var p := Pick(rems, newest);
    if p >= 0 {
      var upd := rems[p := rems[p][1..]];
      var h := rems[p][0];
      assert MergeSpec(rems, n, newest) == [h] + MergeSpec(upd, n - 1, newest);
      MergeSaturated(upd, m - 1, n - 1, newest);
      assert MergeSpec(rems, m, newest) == [h] + MergeSpec(upd, m - 1, newest);
    }
  }
}
