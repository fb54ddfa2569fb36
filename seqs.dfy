/** Sequence helpers: in-place list reversal as a value, and prefix/suffix facts. */
module Seqs {

  /** `Collections.reverse`, as a function on the list's contents. */
  function Reverse<T>(s: seq<T>): (r: seq<T>)
    ensures |r| == |s|
    ensures forall i :: 0 <= i < |s| ==> r[i] == s[|s| - 1 - i]
  {
    if s == [] then [] else Reverse(s[1..]) + [s[0]]
  }

  lemma ReverseReverse<T>(s: seq<T>)
    ensures Reverse(Reverse(s)) == s
  {
    assert |Reverse(Reverse(s))| == |s|;
  }

  lemma ReverseAppend<T>(a: seq<T>, b: seq<T>)
    ensures Reverse(a + b) == Reverse(b) + Reverse(a)
  {
    assert |Reverse(a + b)| == |Reverse(b) + Reverse(a)|;
  }

  /** The last item of a list is the first one of its reversal. */
  lemma {:induction false} ReverseLast<T>(s: seq<T>)
    requires s != []
    ensures Reverse(s) == [s[|s| - 1]] + Reverse(s[..|s| - 1])
  {
    var front, last := s[..|s| - 1], s[|s| - 1];
    assert s == front + [last];
    ReverseAppend(front, [last]);
    ReverseSingleton(last);
  }

  lemma {:induction false} ReverseSingleton<T>(x: T)
    ensures Reverse([x]) == [x]
  {
    assert [x][1..] == [];
  }

  /** Reversal keeps every element, as often as it occurs. */
  lemma {:induction false} ReverseMultiset<T>(s: seq<T>)
    ensures multiset(Reverse(s)) == multiset(s)
  {
    if s != [] {
      ReverseMultiset(s[1..]);
      assert s == [s[0]] + s[1..];
    }
  }

  /** Taking the newest k of an ascending list is the same as reversing its last k. */
  lemma {:induction false} ReverseSuffixIsPrefixOfReverse<T>(s: seq<T>, k: nat)
    requires k <= |s|
    ensures Reverse(s[|s| - k..]) == Reverse(s)[..k]
  {
    var suffix := s[|s| - k..];
    var a, whole := Reverse(suffix), Reverse(s);
    var b := whole[..k];
    forall i | 0 <= i < k ensures a[i] == b[i] {
      assert a[i] == suffix[k - 1 - i];
      assert suffix[k - 1 - i] == s[|s| - 1 - i];
      assert b[i] == whole[i];
    }
    assert |a| == |b|;
  }

  /** The first min(n, |s|) elements. */
  function Take<T>(s: seq<T>, n: int): (r: seq<T>)
    ensures |r| == (if n < 0 then 0 else if n < |s| then n else |s|)
  {
    if n <= 0 then [] else if n < |s| then s[..n] else s
  }

  /** Reversing a list puts its last n items, reversed, in front of the rest reversed. */
  lemma {:induction false} ReverseSplit<T>(p: seq<T>, n: nat)
    requires n <= |p|
    ensures Reverse(p) == Reverse(p[|p| - n..]) + Reverse(p[..|p| - n])
  {
    if n < |p| {
      var t := p[1..];
      ReverseSplit(t, n);
      assert t[|t| - n..] == p[|p| - n..];
      var lo := p[..|p| - n];
      assert t[..|t| - n] == lo[1..];
      assert Reverse(lo) == Reverse(lo[1..]) + [p[0]];
      assert Reverse(p) == Reverse(t) + [p[0]];
    } else {
      assert p[..0] == [] && p[0..] == p;
    }
  }

  lemma AppendAssoc<T>(a: seq<T>, b: seq<T>, c: seq<T>)
    ensures a + b + c == a + (b + c)
  {
  }

  lemma TakeConcat<T>(a: seq<T>, b: seq<T>, n: nat)
    requires |a| == n
    ensures Take(a + b, n) == a
    ensures Take(a + b, 2 * n) == a + Take(b, n)
  {
    if 2 * n < |a + b| {
      assert (a + b)[..2 * n] == a + b[..n];
    }
  }

  /**
   * Reading a reversed list page by page: the first `n` of the reversal,
   * then the first `n` of the reversal of what is left, make the first 2n.
   */
  lemma TakeReverseInPages<T>(p: seq<T>, n: nat)
    requires n <= |p|
    ensures Take(Reverse(p), n) + Take(Reverse(p[..|p| - n]), n) == Take(Reverse(p), 2 * n)
  {
    ReverseSplit(p, n);
    TakeConcat(Reverse(p[|p| - n..]), Reverse(p[..|p| - n]), n);
  }

  /**
   * Cutting a list to `b` items after cutting it to `a` is cutting it to
   * `b` directly, when `b` is within `a` or the list is shorter than `a`.
   */
  lemma TakeTake<T>(s: seq<T>, a: int, b: int)
    requires b <= a || |s| < a
    ensures Take(Take(s, a), b) == Take(s, b)
  {
  }
}
