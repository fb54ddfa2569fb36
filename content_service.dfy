/**
 * InMemoryContentService: every post by id, and each author's posts in the
 * order they were published. Reads page one author's list, or merge one
 * positioned cursor per author.
 */
module InMemoryContentService {
  import opened Wrappers
  import opened Api
  import opened Seqs
  import opened FeedOrder
  import opened Walkers
  import opened ContentListHelper
  import opened Validators
  import opened InMemoryUserService

  /** One positioned cursor's yield per listed user who has posted, in the users' order. */
  function Cursors(lists: map<User, seq<Content>>, users: seq<User>, anchor: Option<ContentId>, limit: int): seq<seq<Content>>
  {
    if users == [] then []
    else
      var last := users[|users| - 1];
      Cursors(lists, users[..|users| - 1], anchor, limit)
        + (if last in lists then [WalkerYield(lists[last], anchor, limit)] else [])
  }

  /**
   * `getContentFor(users, anchor, limit)`: nothing when reading newer items
   * from no anchor; otherwise the merge of the users' cursors.
   */
  function MultiRead(lists: map<User, seq<Content>>, users: seq<User>, anchor: Option<ContentId>, limit: int): seq<Content>
  {
    if anchor.None? && limit < 0 then []
    else
      var rems := Cursors(lists, users, anchor, limit);
      if limit > 0 then MergeSpec(rems, limit, true) else Reverse(MergeSpec(rems, -limit, false))
  }

  /** Every author's list is ascending by id. */
  predicate ListsAscending(lists: map<User, seq<Content>>) {
    forall u :: u in lists ==> Ascending(lists[u])
  }

  /** Each cursor over ascending lists yields in the scan direction of the limit. */
  lemma {:induction false} CursorsScanOrdered(lists: map<User, seq<Content>>, users: seq<User>, anchor: Option<ContentId>, limit: int)
    requires ListsAscending(lists)
    requires anchor.None? ==> limit > 0
    ensures forall j :: 0 <= j < |Cursors(lists, users, anchor, limit)| ==> ScanOrdered(Cursors(lists, users, anchor, limit)[j], limit > 0)
  {
    if users != [] {
      var last := users[|users| - 1];
      CursorsScanOrdered(lists, users[..|users| - 1], anchor, limit);
      if last in lists {
        WalkerYieldScanOrdered(lists[last], anchor, limit);
      }
    }
  }

  /**
   * A multi-author read is newest first, takes min(|limit|, available) items,
   * and takes each from the cursors at most as often as they hold it.
   */
  lemma MultiReadNewestFirst(lists: map<User, seq<Content>>, users: seq<User>, anchor: Option<ContentId>, limit: int)
    requires ListsAscending(lists)
    requires anchor.Some? || limit > 0
    ensures var r := MultiRead(lists, users, anchor, limit);
      var rems := Cursors(lists, users, anchor, limit);
      NewestFirst(r)
      && |r| == (if limit == 0 then 0 else Min(Abs(limit), |Flatten(rems)|))
      && multiset(r) <= multiset(Flatten(rems))
  {
    var rems := Cursors(lists, users, anchor, limit);
    CursorsScanOrdered(lists, users, anchor, limit);
    MergeOrdered(rems, Abs(limit), limit > 0);
    MergeLength(rems, Abs(limit), limit > 0);
    MergeDrawsFromWalkers(rems, Abs(limit), limit > 0);
    var m := MergeSpec(rems, Abs(limit), limit > 0);
    if limit <= 0 {
      ReverseOfOldestFirst(m);
      ReverseMultiset(m);
    }
  }

  /** How many posts the listed users have between them (a user listed twice counts twice). */
  function PostsBy(lists: map<User, seq<Content>>, users: seq<User>): nat {
    if users == [] then 0
    else
      var last := users[|users| - 1];
      PostsBy(lists, users[..|users| - 1]) + (if last in lists then |lists[last]| else 0)
  }

  lemma {:induction false} FlattenSnocLength(rems: seq<seq<Content>>, x: seq<Content>)
    ensures |Flatten(rems + [x])| == |Flatten(rems)| + |x|
  {
    if rems != [] {
      assert (rems + [x])[1..] == rems[1..] + [x];
      FlattenSnocLength(rems[1..], x);
    } else {
      assert rems + [x] == [x] && [x][1..] == [];
    }
  }

  /** Without an anchor, the cursors together hold every post of the listed users. */
  lemma {:induction false} LatestCursorsHoldAll(lists: map<User, seq<Content>>, users: seq<User>, limit: int)
    ensures |Flatten(Cursors(lists, users, None, limit))| == PostsBy(lists, users)
  {
    if users != [] {
      var front := users[..|users| - 1];
      var last := users[|users| - 1];
      LatestCursorsHoldAll(lists, front, limit);
      if last in lists {
        var y := WalkerYield(lists[last], None, limit);
        assert Cursors(lists, users, None, limit) == Cursors(lists, front, None, limit) + [y];
        FlattenSnocLength(Cursors(lists, front, None, limit), y);
      } else {
        assert Cursors(lists, users, None, limit) == Cursors(lists, front, None, limit) + [];
        assert Cursors(lists, front, None, limit) + [] == Cursors(lists, front, None, limit);
      }
    }
  }

  /** Without an anchor, every cursor yields its whole list whatever the limit. */
  lemma {:induction false} LatestCursorsIgnoreLimit(lists: map<User, seq<Content>>, users: seq<User>, a: int, b: int)
    ensures Cursors(lists, users, None, a) == Cursors(lists, users, None, b)
  {
    if users != [] {
      LatestCursorsIgnoreLimit(lists, users[..|users| - 1], a, b);
    }
  }

  /**
   * A multi-author read without an anchor: empty for a limit of zero or
   * below, otherwise the min(limit, posts) newest posts of those users,
   * newest first.
   */
  lemma LatestFeed(lists: map<User, seq<Content>>, users: seq<User>, limit: int)
    requires ListsAscending(lists)
    ensures var r := MultiRead(lists, users, None, limit);
      && (limit <= 0 ==> r == [])
      && (limit > 0 ==> |r| == Min(limit, PostsBy(lists, users)) && NewestFirst(r))
  {
    if limit > 0 {
      MultiReadNewestFirst(lists, users, None, limit);
      LatestCursorsHoldAll(lists, users, limit);
    }
  }

  /**
   * `page` is a multi-author read over the members of `followees`, taken in
   * one of the orders the set may be listed in.
   */
  ghost predicate FeedOver(page: seq<Content>, lists: map<User, seq<Content>>, followees: set<User>,
                           anchor: Option<ContentId>, limit: int) {
    exists following :: Lists(following, followees) && page == MultiRead(lists, following, anchor, limit)
  }

  /** The loop of `getContentFor(users, …)` that opens one cursor per user who has posted. */
  method OpenCursors(lists: map<User, seq<Content>>, users: seq<User>, anchor: Option<ContentId>, limit: int)
    returns (walkers: seq<ListWalker>)
    requires ListsAscending(lists)
    ensures AllValid(walkers) && Distinct(walkers)
    ensures Rems(walkers) == Cursors(lists, users, anchor, limit)
    ensures forall k :: 0 <= k < |walkers| ==> fresh(walkers[k])
  {
    walkers := [];
    var i := 0;
    while i < |users|
      invariant 0 <= i <= |users|
      invariant AllValid(walkers) && Distinct(walkers)
      invariant forall k :: 0 <= k < |walkers| ==> fresh(walkers[k])
      invariant Rems(walkers) == Cursors(lists, users[..i], anchor, limit)
    {
      var user := users[i];
      CursorsSnoc(lists, users, i, anchor, limit);
      if user in lists {
        var w;
        walkers, w := AddCursor(walkers, lists[user], anchor, limit);
      }
      i := i + 1;
    }
    assert users[..|users|] == users;
  }

  /** One iteration of that loop: open a cursor on one author's list and add it to the rest. */
  method AddCursor(walkers: seq<ListWalker>, source: seq<Content>, anchor: Option<ContentId>, limit: int)
    returns (more: seq<ListWalker>, w: ListWalker)
    requires AllValid(walkers) && Distinct(walkers) && Ascending(source)
    ensures more == walkers + [w] && fresh(w)
    ensures AllValid(more) && Distinct(more)
    ensures Rems(more) == Rems(walkers) + [WalkerYield(source, anchor, limit)]
  {
    w := GetContentWalker(source, anchor, limit);
    RemsAppend(walkers, w);
    more := walkers + [w];
  }

  lemma CursorsSnoc(lists: map<User, seq<Content>>, users: seq<User>, i: nat, anchor: Option<ContentId>, limit: int)
    requires i < |users|
    ensures Cursors(lists, users[..i + 1], anchor, limit)
      == Cursors(lists, users[..i], anchor, limit)
         + (if users[i] in lists then [WalkerYield(lists[users[i]], anchor, limit)] else [])
  {
    assert users[..i + 1][..i] == users[..i];
  }

  lemma {:induction false} RemsAppend(walkers: seq<ListWalker>, w: ListWalker)
    requires AllValid(walkers) && w.Valid()
    ensures AllValid(walkers + [w])
    ensures Rems(walkers + [w]) == Rems(walkers) + [w.Remaining()]
  {
    if walkers != [] {
      assert (walkers + [w])[1..] == walkers[1..] + [w];
      RemsAppend(walkers[1..], w);
    }
  }

  /** Every stored post's id is at most `newest`. */
  predicate IndexedById(index: map<ObjectId, Content>) {
    forall k :: k in index ==> index[k].id == k
  }

  predicate IdsUpTo(lists: map<User, seq<Content>>, newest: int) {
    forall u, c :: u in lists && c in lists[u] ==> c.id <= newest
  }

  /**
   * Appending a post newer than every stored one keeps each author's list
   * ascending, and the new post's id bounds all ids.
   */
  lemma PublishKeepsOrder(lists: map<User, seq<Content>>, newest: int, user: User, content: Content)
    requires ListsAscending(lists) && IdsUpTo(lists, newest) && content.id > newest
    ensures var before := if user in lists then lists[user] else [];
      var after := lists[user := before + [content]];
      ListsAscending(after) && IdsUpTo(after, content.id)
  {
    var before := if user in lists then lists[user] else [];
    var list := before + [content];
    forall i, j | 0 <= i < j < |list| ensures list[i].id < list[j].id {
      if j == |before| {
        assert list[i] in lists[user];
      }
    }
  }

  class ContentStore {
    var contentIndex: map<ObjectId, Content>
    var userContentLists: map<User, seq<Content>>
    /** The newest id ever published; ids are handed out in increasing order. */
    ghost var newest: int

    ghost predicate Valid()
      reads this
    {
      && ListsAscending(userContentLists)
      && IdsUpTo(userContentLists, newest)
      && IndexedById(contentIndex)
    }

    constructor ()
      ensures Valid() && contentIndex == map[] && userContentLists == map[]
    {
      contentIndex := map[];
      userContentLists := map[];
      newest := -1;
    }

    /** A user's list, or empty when the user never posted. */
    function ListOf(user: User): seq<Content>
      reads this
    {
      if user in userContentLists then userContentLists[user] else []
    }

    /** `getContentById`: the post with that id, or null. */
    function GetContentById(id: ContentId): (r: Option<Content>)
      reads this
      ensures Valid() ==> (r.Some? <==> exists c :: c in contentIndex.Values && c.id == id.id)
      ensures Valid() && r.Some? ==> r.value in contentIndex.Values && r.value.id == id.id
    {
      if id.id in contentIndex then Some(contentIndex[id.id]) else None
    }

    /**
     * `publishContent`: validate, index the post by id, append it to the
     * author's list (creating the list on first post).
     */
    method PublishContent(user: User, content: Content) returns (r: Outcome<Failure>)
      requires Valid() && content.id > newest
      modifies this
      ensures Valid()
      ensures r == ValidateContent(content)
      ensures r.Fail? ==> contentIndex == old(contentIndex) && userContentLists == old(userContentLists)
      ensures r.Pass? ==> contentIndex == old(contentIndex)[content.id := content]
      ensures r.Pass? ==> userContentLists == old(userContentLists)[user := old(ListOf(user)) + [content]]
      ensures r.Pass? ==> GetContentById(AnchorOf(content)) == Some(content)
    {
      r := ValidateContent(content);
      if r.Fail? {
        return;
      }
      var usersContent := ListOf(user);
      PublishKeepsOrder(userContentLists, newest, user, content);
      contentIndex := contentIndex[content.id := content];
      userContentLists := userContentLists[user := usersContent + [content]];
      newest := content.id;
    }

    /** `getContentFor(user, anchor, limit)`: a page of one author's list, future anchors allowed. */
    method GetContentFor(user: User, anchor: Option<ContentId>, limit: int) returns (r: seq<Content>)
      requires Valid()
      ensures r == Extract(ListOf(user), anchor, limit, true)
    {
      if user in userContentLists {
        r := ExtractContent(userContentLists[user], anchor, limit, true);
        return;
      }
      r := [];
    }

    /** `getContentFor(users, anchor, limit)`: one cursor per author with posts, merged. */
    method GetContentForUsers(users: seq<User>, anchor: Option<ContentId>, limit: int) returns (r: seq<Content>)
      requires Valid()
      ensures r == MultiRead(userContentLists, users, anchor, limit)
    {
      if anchor.None? && limit < 0 {
        return [];
      }
      var walkers := OpenCursors(userContentLists, users, anchor, limit);
      r := Merge(walkers, limit);
    }

    /** `reset`: forget every post. */
    method Reset()
      modifies this
      ensures contentIndex == map[] && userContentLists == map[] && newest == old(newest)
      ensures Valid()
    {
      contentIndex := map[];
      userContentLists := map[];
    }
  }

  /**
   * Publishing puts the new post at the head of its author's newest-first
   * page and leaves every other author's page as it was.
   */
  lemma PublishedPostLeadsAuthorsPage(lists: map<User, seq<Content>>, user: User, content: Content, limit: int)
    requires user in lists ==> forall c :: c in lists[user] ==> c.id < content.id
    requires limit > 0
    ensures var before := if user in lists then lists[user] else [];
      var after := lists[user := before + [content]];
      Extract(after[user], None, limit, true) == [content] + Extract(before, None, limit - 1, true)
      && forall other :: other != user && other in lists ==> other in after && after[other] == lists[other]
  {
    var before := if user in lists then lists[user] else [];
    ReverseAppend(before, [content]);
    assert Reverse([content]) == [content];
    var rb := Reverse(before);
    assert Take([content] + rb, limit) == [content] + Take(rb, limit - 1);
  }
}
