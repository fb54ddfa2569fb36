/**
 * ListWalker and ReverseListWalker: a cursor over a list that hands out one
 * element per step, moving toward the end (forward) or the start (reverse).
 * The two Java classes become one class with a `backward` flag.
 */
module Walkers {
  import opened Wrappers
  import opened Api
  import opened Seqs

  /** A position a walker over `subject` may hold without `get` failing. */
  predicate Positioned(subject: seq<Content>, backward: bool, index: int) {
    if backward then index < |subject| else 0 <= index
  }

  /** What a walker at `index` still yields, in order, until it is at its end. */
  function RemainingFrom(subject: seq<Content>, backward: bool, index: int): seq<Content>
    requires Positioned(subject, backward, index)
  {
    if backward then
      (if index < 0 then [] else Reverse(subject[..index + 1]))
    else
      (if index >= |subject| then [] else subject[index..])
  }

  /** A reverse walker started at s yields s + 1 items: subject[s], subject[s-1], ..., subject[0]. */
  lemma ReverseWalkYield(subject: seq<Content>, start: int)
    requires -1 <= start < |subject|
    ensures |RemainingFrom(subject, true, start)| == start + 1
    ensures forall j :: 0 <= j <= start ==> RemainingFrom(subject, true, start)[j] == subject[start - j]
  {
  }

  class ListWalker {
    const subject: seq<Content>
    const backward: bool
    var currentIndex: int

    predicate Valid()
      reads this
    {
      Positioned(subject, backward, currentIndex)
    }

    /** The elements the walker will still hand out. */
    function Remaining(): seq<Content>
      reads this
      requires Valid()
    {
      RemainingFrom(subject, backward, currentIndex)
    }

    /** `new ListWalker(subject)`: forward from the first element. */
    constructor (subject: seq<Content>)
      ensures Valid() && this.subject == subject && !backward && currentIndex == 0
      ensures Remaining() == subject
    {
      this.subject := subject;
      this.backward := false;
      this.currentIndex := 0;
    }

    /** `new ListWalker(subject, startIndex)`: forward from `startIndex`. */
    constructor At(subject: seq<Content>, startIndex: int)
      requires 0 <= startIndex
      ensures Valid() && this.subject == subject && !backward && currentIndex == startIndex
      ensures Remaining() == if startIndex < |subject| then subject[startIndex..] else []
    {
      this.subject := subject;
      this.backward := false;
      this.currentIndex := startIndex;
    }

    /** `new ReverseListWalker(subject)`: backward from the last element; at its end at once when empty. */
    constructor Reverse(subject: seq<Content>)
      ensures Valid() && this.subject == subject && backward && currentIndex == |subject| - 1
      ensures Remaining() == Seqs.Reverse(subject)
      ensures AtEnd() <==> subject == []
    {
      this.subject := subject;
      this.backward := true;
      this.currentIndex := |subject| - 1;
    }

    /** `new ReverseListWalker(subject, startIndex)`: backward from `startIndex`. */
    constructor ReverseAt(subject: seq<Content>, startIndex: int)
      requires startIndex < |subject|
      ensures Valid() && this.subject == subject && backward && currentIndex == startIndex
    {
      this.subject := subject;
      this.backward := true;
      this.currentIndex := startIndex;
    }

    /** `atEnd`: past the last element going forward, below index 0 going backward. */
    predicate AtEnd()
      reads this
      requires Valid()
      ensures AtEnd() <==> Remaining() == []
    {
      if backward then currentIndex < 0 else currentIndex >= |subject|
    }

    /** `get`: the current element without moving, or null at the end. */
    function Get(): (r: Option<Content>)
      reads this
      requires Valid()
      ensures r.None? <==> Remaining() == []
      ensures r.Some? ==> r.value == Remaining()[0] && r.value == subject[currentIndex]
    {
      if !AtEnd() then Some(subject[currentIndex]) else None
    }

    /** `step`: hand out the current element and move one place; at the end, null and no move. */
    method Step() returns (r: Option<Content>)
      requires Valid()
      modifies this
      ensures Valid()
      ensures r == old(Get())
      ensures old(AtEnd()) ==> currentIndex == old(currentIndex)
      ensures !old(AtEnd()) ==> currentIndex == old(currentIndex) + (if backward then -1 else 1)
      ensures Remaining() == if old(AtEnd()) then old(Remaining()) else old(Remaining())[1..]
    {
      if !AtEnd() {
        r := Some(subject[currentIndex]);
        if backward && currentIndex > 0 {
          var before, after := Seqs.Reverse(subject[..currentIndex + 1]), Seqs.Reverse(subject[..currentIndex]);
          assert before[1..] == after;
        }
        currentIndex := if backward then currentIndex - 1 else currentIndex + 1;
      } else {
        r := None;
      }
    }
  }
}
