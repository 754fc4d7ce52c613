/** `CalculateMedian`: sort the sample in place, then take the middle element
    (odd count) or the mean of the two middle elements (even count); 0 for an
    empty sample. The reference `Median` is defined through a functional
    insertion sort; since a sorted permutation is unique, any correct in-place
    sort yields the same median. */
module Medians {

  ghost predicate Sorted(s: seq<real>) {
    forall i, j :: 0 <= i < j < |s| ==> s[i] <= s[j]
  }

  /** Inserts `x` into `s` before the first element that is not smaller. */
  function Insert(x: real, s: seq<real>): seq<real> {
    if s == [] || x <= s[0] then [x] + s else [s[0]] + Insert(x, s[1..])
  }

  /** Functional insertion sort, the reference ordering of a sample. */
  function SortSeq(s: seq<real>): seq<real> {
    if s == [] then [] else Insert(s[0], SortSeq(s[1..]))
  }

  lemma SortedTail(s: seq<real>)
    requires s != [] && Sorted(s)
    ensures Sorted(s[1..])
  {
    forall i, j | 0 <= i < j < |s[1..]| ensures s[1..][i] <= s[1..][j] {
      assert s[1..][i] == s[i + 1] && s[1..][j] == s[j + 1];
    }
  }

  lemma SortedCons(y: real, r: seq<real>)
    requires Sorted(r)
    requires forall k :: 0 <= k < |r| ==> y <= r[k]
    ensures Sorted([y] + r)
  {
    forall i, j | 0 <= i < j < |r| + 1 ensures ([y] + r)[i] <= ([y] + r)[j] {
      if i > 0 {
        assert ([y] + r)[i] == r[i - 1] && ([y] + r)[j] == r[j - 1];
      }
    }
  }

  /** In a sorted sequence the first element is below every value it holds. */
  lemma SortedFirstIsLeast(s: seq<real>, v: real)
    requires Sorted(s) && v in multiset(s)
    ensures s[0] <= v
  {
    var k :| 0 <= k < |s| && s[k] == v;
  }

  lemma {:induction false} InsertPermutes(x: real, s: seq<real>)
    ensures multiset(Insert(x, s)) == multiset(s) + multiset{x}
    ensures |Insert(x, s)| == |s| + 1
  {
    if s != [] && x > s[0] {
      InsertPermutes(x, s[1..]);
      assert s == [s[0]] + s[1..];
    }
  }

  lemma {:induction false} InsertLowerBound(x: real, s: seq<real>, y: real)
    requires y <= x
    requires forall k :: 0 <= k < |s| ==> y <= s[k]
    ensures forall k :: 0 <= k < |Insert(x, s)| ==> y <= Insert(x, s)[k]
  {
    if s != [] && x > s[0] {
      InsertLowerBound(x, s[1..], y);
      var r := Insert(x, s[1..]);
      assert forall k :: 0 <= k < |r| + 1 ==> ([s[0]] + r)[k] == if k == 0 then s[0] else r[k - 1];
    }
  }

  lemma {:induction false} InsertSorted(x: real, s: seq<real>)
    requires Sorted(s)
    ensures Sorted(Insert(x, s))
  {
    if s == [] || x <= s[0] {
      SortedCons(x, s);
    } else {
      SortedTail(s);
      InsertSorted(x, s[1..]);
      InsertLowerBound(x, s[1..], s[0]);
      SortedCons(s[0], Insert(x, s[1..]));
    }
  }

  /** `SortSeq` returns a sorted permutation of its input. */
  lemma {:induction false} SortSeqCorrect(s: seq<real>)
    ensures Sorted(SortSeq(s))
    ensures multiset(SortSeq(s)) == multiset(s)
    ensures |SortSeq(s)| == |s|
  {
    if s != [] {
      SortSeqCorrect(s[1..]);
      InsertSorted(s[0], SortSeq(s[1..]));
      InsertPermutes(s[0], SortSeq(s[1..]));
      assert s == [s[0]] + s[1..];
    }
  }

  /** Two sorted sequences holding the same values are equal. */
  lemma {:induction false} SortedPermutationUnique(a: seq<real>, b: seq<real>)
    requires Sorted(a) && Sorted(b)
    requires multiset(a) == multiset(b)
    ensures a == b
  {
    if a != [] {
      assert |a| == |multiset(a)| == |b|;
      assert a[0] in multiset(a);
      assert b[0] in multiset(b);
      SortedFirstIsLeast(b, a[0]);
      SortedFirstIsLeast(a, b[0]);
      assert a[0] == b[0];
      assert a == [a[0]] + a[1..];
      assert b == [b[0]] + b[1..];
      assert multiset(a[1..]) == multiset(a) - multiset{a[0]};
      assert multiset(b[1..]) == multiset(b) - multiset{b[0]};
      SortedTail(a);
      SortedTail(b);
      SortedPermutationUnique(a[1..], b[1..]);
    }
  }

  /** The middle of an already sorted sample, 0 when it is empty. */
  function MiddleOfSorted(s: seq<real>): real {
    var n := |s|;
    if n == 0 then 0.0
    else if n % 2 == 0 then (s[n / 2 - 1] + s[n / 2]) / 2.0
    else s[n / 2]
  }

  /** The median of a sample in any order. */
  function Median(s: seq<real>): real {
    MiddleOfSorted(SortSeq(s))
  }

  /** The median depends only on the values of the sample, not their order. */
  lemma MedianIgnoresOrder(s: seq<real>, t: seq<real>)
    requires multiset(s) == multiset(t)
    ensures Median(s) == Median(t)
  {
    SortSeqCorrect(s);
    SortSeqCorrect(t);
    SortedPermutationUnique(SortSeq(s), SortSeq(t));
  }

  /** Any sorted permutation of the sample has the median in its middle. */
  lemma MedianOfSortedPermutation(s: seq<real>, sorted: seq<real>)
    requires Sorted(sorted) && multiset(sorted) == multiset(s)
    ensures Median(s) == MiddleOfSorted(sorted)
  {
    SortSeqCorrect(s);
    SortedPermutationUnique(SortSeq(s), sorted);
  }

  /** The median of a non-empty sample lies between its smallest and largest values. */
  lemma MedianBounds(s: seq<real>, lo: real, hi: real)
    requires |s| > 0
    requires forall i :: 0 <= i < |s| ==> lo <= s[i] <= hi
    ensures lo <= Median(s) <= hi
  {
    SortSeqCorrect(s);
    var t := SortSeq(s);
    forall k | 0 <= k < |t| ensures lo <= t[k] <= hi {
      assert t[k] in multiset(s);
      var m :| 0 <= m < |s| && s[m] == t[k];
    }
  }

  lemma MedianExamples()
    ensures Median([]) == 0.0
    ensures Median([10.0]) == 10.0
    ensures Median([10.0, 12.0]) == 11.0
    ensures Median([12.0, 10.0]) == 11.0
    ensures Median([9.0, 10.0, 11.0]) == 10.0
    ensures Median([11.0, 9.0, 10.0]) == 10.0
  {
    assert SortSeq([12.0]) == [12.0];
    assert SortSeq([12.0, 10.0]) == Insert(12.0, [10.0]) == [10.0, 12.0];
    assert SortSeq([10.0, 12.0]) == Insert(10.0, [12.0]) == [10.0, 12.0];
    assert SortSeq([11.0]) == [11.0];
    assert [9.0, 10.0, 11.0][1..] == [10.0, 11.0];
    assert [10.0, 11.0][1..] == [11.0];
    assert SortSeq([10.0, 11.0]) == [10.0, 11.0];
    assert SortSeq([9.0, 10.0, 11.0]) == [9.0, 10.0, 11.0];
    assert [11.0, 9.0, 10.0][1..] == [9.0, 10.0];
    assert [9.0, 10.0][1..] == [10.0];
    assert SortSeq([10.0]) == [10.0];
    assert SortSeq([9.0, 10.0]) == [9.0, 10.0];
    assert Insert(11.0, [10.0]) == [10.0, 11.0];
    assert SortSeq([11.0, 9.0, 10.0]) == [9.0, 10.0, 11.0];
  }

  method Swap(a: array<real>, i: nat)
    requires 0 < i < a.Length
    modifies a
    ensures a[i - 1] == old(a[i]) && a[i] == old(a[i - 1])
    ensures forall k :: 0 <= k < a.Length && k != i - 1 && k != i ==> a[k] == old(a[k])
    ensures multiset(a[..]) == multiset(old(a[..]))
  {
    a[i - 1], a[i] := a[i], a[i - 1];
  }

  /** `List<double>.Sort`: orders `a` ascending in place (insertion sort). */
  method SortInPlace(a: array<real>)
    modifies a
    ensures Sorted(a[..])
    ensures multiset(a[..]) == multiset(old(a[..]))
  {
    var i := 0;
    while i < a.Length
      invariant 0 <= i <= a.Length
      invariant forall p, q :: 0 <= p < q < i ==> a[p] <= a[q]
      invariant multiset(a[..]) == multiset(old(a[..]))
    {
      var j := i;
      while j > 0 && a[j - 1] > a[j]
        invariant 0 <= j <= i
        invariant forall p, q :: 0 <= p < q <= i && p != j && q != j ==> a[p] <= a[q]
        invariant forall q :: j < q <= i ==> a[j] <= a[q]
        invariant 0 < j < i ==> a[j - 1] <= a[j + 1]
        invariant multiset(a[..]) == multiset(old(a[..]))
      {
        Swap(a, j);
        j := j - 1;
      }
      i := i + 1;
    }
  }

  /** `CalculateMedian`: leaves an empty list alone and answers 0; otherwise
      sorts the list in place and answers its middle. */
  method CalculateMedian(values: array<real>) returns (m: real)
    modifies values
    ensures m == Median(old(values[..]))
    ensures values.Length == 0 ==> m == 0.0
    ensures values.Length > 0 ==> Sorted(values[..])
    ensures multiset(values[..]) == multiset(old(values[..]))
  {
    if values.Length == 0 {
      return 0.0;
    }
    SortInPlace(values);
    MedianOfSortedPermutation(old(values[..]), values[..]);
    var count := values.Length;
    if count % 2 == 0 {
      var a := values[count / 2 - 1];
      var b := values[count / 2];
      m := (a + b) / 2.0;
    } else {
      m := values[count / 2];
    }
  }
}
