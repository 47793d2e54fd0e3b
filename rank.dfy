/**
 * Order statistics of a multiset of samples, defined by counting rather than
 * by sorting: `v` is the k-th smallest value of `s` (counting from 0) when it
 * occurs in `s`, at most k values of `s` lie strictly below it and at most
 * |s| - 1 - k lie strictly above it. This is what `find_median` promises of
 * the value it reads out of its sorted scratch array.
 */
module OrderStatistics {
  import opened Grid
  import opened Sorting

  /** Number of elements of `s` satisfying `p`. */
  function Count(s: seq<int>, p: int -> bool): (n: nat)
    ensures n <= |s|
  {
    if s == [] then 0 else (if p(s[0]) then 1 else 0) + Count(s[1..], p)
  }

  /** The test "strictly below v". */
  function Below(v: int): int -> bool
  {
    x => x < v
  }

  /** The test "strictly above v". */
  function Above(v: int): int -> bool
  {
    x => x > v
  }

  /** `v` is a k-th smallest element of `s`. */
  predicate IsOrderStatistic(s: seq<int>, k: int, v: int)
  {
    0 <= k < |s| && v in s && Count(s, Below(v)) <= k && Count(s, Above(v)) <= |s| - 1 - k
  }

  /** Counting distributes over concatenation. */
  lemma {:induction false} CountConcat(a: seq<int>, b: seq<int>, p: int -> bool)
    ensures Count(a + b, p) == Count(a, p) + Count(b, p)
  {
    if a == [] {
      assert a + b == b;
    } else {
      assert (a + b)[1..] == a[1..] + b;
      CountConcat(a[1..], b, p);
    }
  }

  /** A count over a sequence none of whose elements pass the test is 0. */
  lemma {:induction false} CountNone(s: seq<int>, p: int -> bool)
    requires forall t :: 0 <= t < |s| ==> !p(s[t])
    ensures Count(s, p) == 0
  {
    if s != [] {
      CountNone(s[1..], p);
    }
  }

  /** Taking out the element at index i takes one copy of it out of the multiset and the count. */
  lemma RemoveAt(b: seq<int>, i: int, p: int -> bool)
    requires 0 <= i < |b|
    ensures multiset(b[..i] + b[i + 1 ..]) == multiset(b) - multiset{b[i]}
    ensures Count(b, p) == Count(b[..i] + b[i + 1 ..], p) + (if p(b[i]) then 1 else 0)
  {
    var l, r := b[..i], b[i + 1 ..];
    SplitAt(b, i);
    assert multiset(b) == multiset(l) + multiset{b[i]} + multiset(r);
    assert multiset(l + r) == multiset(l) + multiset(r);
    CountConcat(l + [b[i]], r, p);
    CountConcat(l, [b[i]], p);
    CountConcat(l, r, p);
    assert Count([b[i]], p) == if p(b[i]) then 1 else 0 by {
      assert [b[i]][1..] == [];
    }
  }

  /** Reordering a sequence does not change any count. */
  lemma {:induction false} CountPermutation(a: seq<int>, b: seq<int>, p: int -> bool)
    requires multiset(a) == multiset(b)
    ensures Count(a, p) == Count(b, p)
    decreases |a|
  {
    if a == [] {
      assert |b| == |multiset(b)| == 0;
    } else {
      var x := a[0];
      assert x in multiset(b);
      var i :| 0 <= i < |b| && b[i] == x;
      RemoveAt(b, i, p);
      assert a == [x] + a[1..];
      assert multiset(a[1..]) == multiset(a) - multiset{x};
      CountPermutation(a[1..], b[..i] + b[i + 1 ..], p);
    }
  }

  /**
   * Two tests that together cover every element: their counts add up to at
   * least the length.
   */
  lemma {:induction false} CountCover(s: seq<int>, p: int -> bool, q: int -> bool)
    requires forall t :: 0 <= t < |s| ==> p(s[t]) || q(s[t])
    ensures Count(s, p) + Count(s, q) >= |s|
  {
    if s != [] {
      CountCover(s[1..], p, q);
    }
  }

  /** In a sorted sequence at most k elements lie strictly below the one at index k. */
  lemma SortedBelow(t: seq<int>, k: int)
    requires Sorted(t) && 0 <= k < |t|
    ensures Count(t, Below(t[k])) <= k
  {
    assert t == t[..k] + t[k..];
    CountConcat(t[..k], t[k..], Below(t[k]));
    CountNone(t[k..], Below(t[k]));
  }

  /** In a sorted sequence at most |t| - 1 - k elements lie strictly above the one at index k. */
  lemma SortedAbove(t: seq<int>, k: int)
    requires Sorted(t) && 0 <= k < |t|
    ensures Count(t, Above(t[k])) <= |t| - 1 - k
  {
    var v := t[k];
    assert t == t[..k + 1] + t[k + 1 ..];
    CountConcat(t[..k + 1], t[k + 1 ..], Above(v));
    var head := t[..k + 1];
    assert forall u :: 0 <= u < |head| ==> head[u] <= v;
    CountNone(head, Above(v));
  }

  /**
   * Reading index k of a sorted rearrangement of `s` yields a k-th smallest
   * element of `s`.
   */
  lemma SortedSelects(s: seq<int>, t: seq<int>, k: int)
    requires Sorted(t) && multiset(t) == multiset(s) && 0 <= k < |t|
    ensures IsOrderStatistic(s, k, t[k])
  {
    assert |s| == |multiset(s)| == |t|;
    assert t[k] in multiset(s);
    CountPermutation(s, t, Below(t[k]));
    CountPermutation(s, t, Above(t[k]));
    SortedBelow(t, k);
    SortedAbove(t, k);
  }

  /** A k-th smallest element is unique: the counts pin it down. */
  lemma OrderStatisticUnique(s: seq<int>, k: int, v1: int, v2: int)
    requires IsOrderStatistic(s, k, v1) && IsOrderStatistic(s, k, v2)
    ensures v1 == v2
  {
    if v1 < v2 {
      CountCover(s, Below(v2), Above(v1));
    } else if v2 < v1 {
      CountCover(s, Below(v1), Above(v2));
    }
  }

  /** A k-th smallest element lies between every lower and every upper bound of `s`. */
  lemma OrderStatisticBounds(s: seq<int>, k: int, v: int, lo: int, hi: int)
    requires IsOrderStatistic(s, k, v)
    requires forall t :: 0 <= t < |s| ==> lo <= s[t] <= hi
    ensures lo <= v <= hi
  {
    var t :| 0 <= t < |s| && s[t] == v;
  }
}
