/**
 * `merge` and `mergeSort` of pgm.c: a top-down merge sort that sorts the
 * inclusive range arr[left..right] of an `unsigned char` array in place.
 * The merge step is specified by `Merged`, the list-merge of two sequences;
 * sortedness and permutation are proved about `Merged` once and carried by the
 * methods' postconditions.
 */
module Sorting {
  import opened Grid

  /** Ascending order. */
  predicate Sorted(s: seq<int>)
  {
    forall p, q :: 0 <= p < q < |s| ==> s[p] <= s[q]
  }

  /** `a` and `b` agree everywhere outside the index range [lo, hi). */
  predicate SameOutside(a: seq<int>, b: seq<int>, lo: int, hi: int)
  {
    |a| == |b| && forall t :: 0 <= t < |a| && !(lo <= t < hi) ==> a[t] == b[t]
  }

  /**
   * Merge of two sequences taking from the left one while its head is not
   * greater than the right one's (the `L[i] <= M[j]` test of pgm.c).
   */
  function Merged(l: seq<int>, m: seq<int>): (r: seq<int>)
    ensures |r| == |l| + |m|
    decreases |l| + |m|
  {
    if l == [] then m
    else if m == [] then l
    else if l[0] <= m[0] then [l[0]] + Merged(l[1..], m)
    else [m[0]] + Merged(l, m[1..])
  }

  /** Merging loses and invents nothing. */
  lemma {:induction false} MergedPermutation(l: seq<int>, m: seq<int>)
    ensures multiset(Merged(l, m)) == multiset(l) + multiset(m)
    decreases |l| + |m|
  {
    if l != [] && m != [] {
      if l[0] <= m[0] {
        MergedPermutation(l[1..], m);
        assert l == [l[0]] + l[1..];
        assert multiset(l) == multiset{l[0]} + multiset(l[1..]);
        assert multiset(Merged(l, m)) == multiset{l[0]} + multiset(Merged(l[1..], m));
      } else {
        MergedPermutation(l, m[1..]);
        assert m == [m[0]] + m[1..];
        assert multiset(m) == multiset{m[0]} + multiset(m[1..]);
        assert multiset(Merged(l, m)) == multiset{m[0]} + multiset(Merged(l, m[1..]));
      }
    }
  }

  /** A lower bound of both runs is a lower bound of their merge. */
  lemma {:induction false} MergedAbove(l: seq<int>, m: seq<int>, b: int)
    requires forall t :: 0 <= t < |l| ==> b <= l[t]
    requires forall t :: 0 <= t < |m| ==> b <= m[t]
    ensures forall t :: 0 <= t < |Merged(l, m)| ==> b <= Merged(l, m)[t]
    decreases |l| + |m|
  {
    if l != [] && m != [] {
      if l[0] <= m[0] {
        MergedAbove(l[1..], m, b);
      } else {
        MergedAbove(l, m[1..], b);
      }
    }
  }

  /** Merging two ascending sequences gives an ascending sequence. */
  lemma {:induction false} MergedSorted(l: seq<int>, m: seq<int>)
    requires Sorted(l) && Sorted(m)
    ensures Sorted(Merged(l, m))
    decreases |l| + |m|
  {
    if l != [] && m != [] {
      if l[0] <= m[0] {
        MergedSorted(l[1..], m);
        MergedAbove(l[1..], m, l[0]);
      } else {
        MergedSorted(l, m[1..]);
        MergedAbove(l, m[1..], m[0]);
      }
    }
  }

  /** One step of the merge loop: which head goes out first, and what is left. */
  lemma MergedStep(l: seq<int>, m: seq<int>, whole: seq<int>, i: int, j: int)
    requires 0 <= i < |l| && 0 <= j < |m| && i + j <= |whole|
    requires whole[i + j ..] == Merged(l[i..], m[j..])
    ensures i + j < |whole|
    ensures l[i] <= m[j] ==> whole[i + j] == l[i] && whole[i + j + 1 ..] == Merged(l[i + 1..], m[j..])
    ensures m[j] < l[i] ==> whole[i + j] == m[j] && whole[i + j + 1 ..] == Merged(l[i..], m[j + 1..])
  {
    assert l[i..][1..] == l[i + 1..] && m[j..][1..] == m[j + 1..];
    assert whole[i + j ..][1..] == whole[i + j + 1 ..];
  }

  /** Once one run is exhausted, the merge is the other run. */
  lemma MergedDrain(l: seq<int>, m: seq<int>)
    ensures l == [] ==> Merged(l, m) == m
    ensures m == [] ==> Merged(l, m) == l
  {
  }

  /** The copy loops of `merge`: a fresh array holding arr[from .. from + n - 1]. */
  method CopyRun(arr: array<byte>, from: int, n: int) returns (run: array<byte>)
    requires 0 <= from && 0 <= n && from + n <= arr.Length
    ensures fresh(run) && run[..] == arr[from .. from + n]
  {
    run := new byte[n];
    for t := 0 to n
      invariant forall u :: 0 <= u < t ==> run[u] == arr[from + u]
    {
      run[t] := arr[from + t];
    }
  }

  /**
   * The first loop of `merge`: moves the smaller head of L[i..] and M[j..]
   * to arr[k] until one run is used up. On exit arr[left .. k - 1] holds the
   * first i + j values of the merge and the rest of the merge is that of the
   * remaining runs. `lv` and `mv` name the runs' contents.
   */
  method MergeHeads(arr: array<byte>, L: array<byte>, M: array<byte>, left: int, ghost lv: seq<int>, ghost mv: seq<int>)
    returns (i: int, j: int)
    requires arr != L && arr != M && L[..] == lv && M[..] == mv
    requires 0 <= left && left + L.Length + M.Length <= arr.Length
    modifies arr
    ensures 0 <= i <= |lv| && 0 <= j <= |mv| && (i == |lv| || j == |mv|)
    ensures arr[..] == old(arr[..])[..left] + Merged(lv, mv)[..i + j] + old(arr[..])[left + i + j ..]
    ensures Merged(lv, mv)[i + j ..] == Merged(lv[i..], mv[j..])
  {
    ghost var whole := Merged(lv, mv);
    ghost var a0 := arr[..];
    i, j := 0, 0;
    var k := left;
    while i < L.Length && j < M.Length
      invariant 0 <= i <= L.Length && 0 <= j <= M.Length && k == left + i + j
      invariant arr[..] == a0[..left] + whole[..i + j] + a0[k..]
      invariant whole[i + j ..] == Merged(lv[i..], mv[j..])
      decreases |lv| + |mv| - i - j
    {
      i, j := MoveHead(arr, L, M, k, i, j, lv, mv, whole);
      SpliceGrow(a0, whole, left, k);
      k := k + 1;
    }
  }

  /** The body of the first loop of `merge`: the smaller head goes to arr[k]. */
  method MoveHead(arr: array<byte>, L: array<byte>, M: array<byte>, k: int, i: int, j: int,
                  ghost lv: seq<int>, ghost mv: seq<int>, ghost whole: seq<int>)
    returns (i': int, j': int)
    requires arr != L && arr != M && L[..] == lv && M[..] == mv
    requires 0 <= i < |lv| && 0 <= j < |mv| && 0 <= k < arr.Length && i + j <= |whole|
    requires whole[i + j ..] == Merged(lv[i..], mv[j..])
    modifies arr
    ensures (i', j') == (i + 1, j) || (i', j') == (i, j + 1)
    ensures i + j < |whole| && arr[..] == old(arr[..])[k := whole[i + j]]
    ensures whole[i' + j' ..] == Merged(lv[i'..], mv[j'..])
  {
    MergedStep(lv, mv, whole, i, j);
    if L[i] <= M[j] {
      arr[k] := L[i];
      i', j' := i + 1, j;
    } else {
      arr[k] := M[j];
      i', j' := i, j + 1;
    }
  }

  /**
   * The last two loops of `merge`: copy what is left of one run, run[from..],
   * to arr[k..]; `rv` names the run's contents.
   */
  method CopyRest(arr: array<byte>, run: array<byte>, from: int, k: int, ghost rv: seq<int>) returns (k': int)
    requires arr != run && run[..] == rv
    requires 0 <= from <= run.Length && 0 <= k && k + run.Length - from <= arr.Length
    modifies arr
    ensures k' == k + |rv| - from
    ensures arr[..] == old(arr[..])[..k] + rv[from..] + old(arr[..])[k'..]
  {
    var i := from;
    k' := k;
    while i < run.Length
      invariant from <= i <= run.Length && k' == k + i - from
      invariant forall t :: k <= t < k' ==> arr[t] == rv[from + t - k]
      invariant forall t :: 0 <= t < arr.Length && !(k <= t < k') ==> arr[t] == old(arr[t])
    {
      arr[k'] := run[i];
      i := i + 1;
      k' := k' + 1;
    }
    Splice(arr[..], old(arr[..]), rv[from..], k, k');
  }

  /**
   * `merge(arr, left, middle, right)`: copies arr[left..middle] into L and
   * arr[middle+1..right] into M, then writes their merge back over
   * arr[left..right]. Nothing outside that range changes.
   */
  method Merge(arr: array<byte>, left: int, middle: int, right: int)
    requires 0 <= left <= middle + 1 && middle <= right < arr.Length
    modifies arr
    ensures arr[left .. right + 1] == Merged(old(arr[left .. middle + 1]), old(arr[middle + 1 .. right + 1]))
    ensures SameOutside(old(arr[..]), arr[..], left, right + 1)
    ensures Sorted(old(arr[left .. middle + 1])) && Sorted(old(arr[middle + 1 .. right + 1])) ==>
              Sorted(arr[left .. right + 1])
    ensures multiset(arr[left .. right + 1]) == old(multiset(arr[left .. right + 1]))
  {
    ghost var a0 := arr[..];
    var n1 := middle - left + 1;
    var n2 := right - middle;
    var L := CopyRun(arr, left, n1);
    var M := CopyRun(arr, middle + 1, n2);
    ghost var lv, mv := L[..], M[..];
    var i, j := MergeHeads(arr, L, M, left, lv, mv);
    ghost var a1 := arr[..];
    var k1 := CopyRest(arr, L, i, left + i + j, lv);
    ghost var a2 := arr[..];
    var k2 := CopyRest(arr, M, j, k1, mv);
    MergeWritten(a0, a1, a2, arr[..], lv, mv, left, i, j, k1, k2);
    MergeAssemble(a0, arr[..], lv, mv, left, middle, right, k2);
  }

  /** The pieces written by the three loops of `merge` make up the whole merge. */
  lemma MergeWritten(a0: seq<int>, a1: seq<int>, a2: seq<int>, a3: seq<int>, lv: seq<int>, mv: seq<int>,
                     left: int, i: int, j: int, k1: int, k2: int)
    requires 0 <= left && left + |lv| + |mv| <= |a0|
    requires 0 <= i <= |lv| && 0 <= j <= |mv| && (i == |lv| || j == |mv|)
    requires a1 == a0[..left] + Merged(lv, mv)[..i + j] + a0[left + i + j ..]
    requires Merged(lv, mv)[i + j ..] == Merged(lv[i..], mv[j..])
    requires k1 == left + i + j + |lv| - i
    requires a2 == a1[..left + i + j] + lv[i..] + a1[k1..]
    requires k2 == k1 + |mv| - j
    requires a3 == a2[..k1] + mv[j..] + a2[k2..]
    ensures a3 == a0[..left] + Merged(lv, mv) + a0[k2..]
  {
    var whole := Merged(lv, mv);
    MergedDrain(lv[i..], mv[j..]);
    SpliceIndex(a1, a0, whole[..i + j], left, left + i + j);
    SpliceIndex(a2, a1, lv[i..], left + i + j, k1);
    SpliceIndex(a3, a2, mv[j..], k1, k2);
    forall t | left <= t < k2
      ensures a3[t] == whole[t - left]
    {
      if t < left + i + j {
        assert a3[t] == whole[..i + j][t - left];
      } else if t < k1 {
        assert a3[t] == lv[i..][t - left - i - j] == whole[i + j ..][t - left - i - j];
      } else {
        assert a3[t] == mv[j..][t - k1] == whole[i + j ..][t - left - i - j];
      }
    }
    Splice(a3, a0, whole, left, k2);
  }

  /** `merge` in terms of the array before and after: the range holds the merge of its halves. */
  lemma MergeAssemble(a0: seq<int>, a3: seq<int>, lv: seq<int>, mv: seq<int>, left: int, middle: int, right: int, k2: int)
    requires 0 <= left <= middle + 1 && middle <= right < |a0|
    requires lv == a0[left .. left + (middle - left + 1)] && mv == a0[middle + 1 .. middle + 1 + (right - middle)]
    requires k2 == left + |lv| + |mv| && a3 == a0[..left] + Merged(lv, mv) + a0[k2..]
    ensures a3[left .. right + 1] == Merged(a0[left .. middle + 1], a0[middle + 1 .. right + 1])
    ensures SameOutside(a0, a3, left, right + 1)
    ensures Sorted(a0[left .. middle + 1]) && Sorted(a0[middle + 1 .. right + 1]) ==> Sorted(a3[left .. right + 1])
    ensures multiset(a3[left .. right + 1]) == multiset(a0[left .. right + 1])
  {
    assert lv == a0[left .. middle + 1] && mv == a0[middle + 1 .. right + 1] && k2 == right + 1;
    SpliceIndex(a3, a0, Merged(a0[left .. middle + 1], a0[middle + 1 .. right + 1]), left, right + 1);
    assert a3[left .. right + 1] == Merged(a0[left .. middle + 1], a0[middle + 1 .. right + 1]);
    MergeFacts(a0, left, middle, right);
  }

  /** What `Merged` of the two halves of a range says about the whole range. */
  lemma MergeFacts(a0: seq<int>, left: int, middle: int, right: int)
    requires 0 <= left <= middle + 1 && middle <= right < |a0|
    ensures multiset(Merged(a0[left .. middle + 1], a0[middle + 1 .. right + 1])) == multiset(a0[left .. right + 1])
    ensures Sorted(a0[left .. middle + 1]) && Sorted(a0[middle + 1 .. right + 1]) ==>
              Sorted(Merged(a0[left .. middle + 1], a0[middle + 1 .. right + 1]))
  {
    MergedHalves(a0[left .. middle + 1], a0[middle + 1 .. right + 1], a0[left .. right + 1]);
  }

  /** `Merged` of two runs that make up `whole` keeps the contents of `whole`, and sorts it when the runs are sorted. */
  lemma MergedHalves(lv: seq<int>, mv: seq<int>, whole: seq<int>)
    requires whole == lv + mv
    ensures multiset(Merged(lv, mv)) == multiset(whole)
    ensures Sorted(lv) && Sorted(mv) ==> Sorted(Merged(lv, mv))
  {
    MergedPermutation(lv, mv);
    if Sorted(lv) && Sorted(mv) {
      MergedSorted(lv, mv);
    }
  }

  /**
   * `mergeSort(arr, left, right)`: sorts arr[left..right] (inclusive) in place,
   * splitting at `middle = left + (right - left) / 2`. Terminates because
   * left <= middle < right whenever left < right.
   */
  method MergeSort(arr: array<byte>, left: int, right: int)
    requires 0 <= left <= right + 1 <= arr.Length
    modifies arr
    ensures Sorted(arr[left .. right + 1])
    ensures multiset(arr[left .. right + 1]) == old(multiset(arr[left .. right + 1]))
    ensures SameOutside(old(arr[..]), arr[..], left, right + 1)
    decreases right - left
  {
    if left < right {
      var middle := left + (right - left) / 2;
      ghost var a0 := arr[..];
      MergeSort(arr, left, middle);
      ghost var a1 := arr[..];
      MergeSort(arr, middle + 1, right);
      ghost var a2 := arr[..];
      Merge(arr, left, middle, right);
      SortStep(a0, a1, a2, arr[..], left, middle, right);
    }
  }

  /** The three steps of `mergeSort` compose into a sort of the whole range. */
  lemma SortStep(a0: seq<int>, a1: seq<int>, a2: seq<int>, a3: seq<int>, left: int, middle: int, right: int)
    requires |a1| == |a0| && |a2| == |a0| && |a3| == |a0|
    requires 0 <= left <= middle < right < |a0|
    requires Sorted(a1[left .. middle + 1]) && SameOutside(a0, a1, left, middle + 1)
    requires multiset(a1[left .. middle + 1]) == multiset(a0[left .. middle + 1])
    requires Sorted(a2[middle + 1 .. right + 1]) && SameOutside(a1, a2, middle + 1, right + 1)
    requires multiset(a2[middle + 1 .. right + 1]) == multiset(a1[middle + 1 .. right + 1])
    requires SameOutside(a2, a3, left, right + 1)
    requires Sorted(a2[left .. middle + 1]) && Sorted(a2[middle + 1 .. right + 1]) ==> Sorted(a3[left .. right + 1])
    requires multiset(a3[left .. right + 1]) == multiset(a2[left .. right + 1])
    ensures Sorted(a3[left .. right + 1])
    ensures multiset(a3[left .. right + 1]) == multiset(a0[left .. right + 1])
    ensures SameOutside(a0, a3, left, right + 1)
  {
    assert a2[left .. middle + 1] == a1[left .. middle + 1];
    assert a1[middle + 1 .. right + 1] == a0[middle + 1 .. right + 1];
    assert a2[left .. right + 1] == a2[left .. middle + 1] + a2[middle + 1 .. right + 1];
    assert a0[left .. right + 1] == a0[left .. middle + 1] + a0[middle + 1 .. right + 1];
  }
}
