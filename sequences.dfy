/** Reference definitions of the list operations the statistics pass performs
    on the fly: filter-and-map, counting, summing, the running minimum and the
    collapse of consecutive repeats. Each is defined on its own terms and the
    lemmas here state what it means, so that the loops of the analyzer can be
    proved against them. */
module Sequences {
  import opened Wrappers

  function Init<T>(s: seq<T>): seq<T>
    requires s != []
  {
    s[..|s| - 1]
  }

  function Last<T>(s: seq<T>): T
    requires s != []
  {
    s[|s| - 1]
  }

  lemma InitOfSnoc<T>(s: seq<T>, x: T)
    ensures Init(s + [x]) == s && Last(s + [x]) == x
  {
    assert (s + [x])[..|s|] == s;
  }

  // ---------------------------------------------------------------------------
  // Filter-and-map

  /** The values `f` picks out of `s`, in the order of `s`. */
  function Keep<T, U>(s: seq<T>, f: T -> Option<U>): (r: seq<U>)
    ensures |r| <= |s|
  {
    if s == [] then []
    else
      match f(Last(s))
      case Some(u) => Keep(Init(s), f) + [u]
      case None => Keep(Init(s), f)
  }

  lemma KeepSnoc<T, U>(s: seq<T>, x: T, f: T -> Option<U>)
    ensures Keep(s + [x], f) == Keep(s, f) + (if f(x).Some? then [f(x).value] else [])
  {
    InitOfSnoc(s, x);
  }

  /** Keeping distributes over concatenation: nothing is reordered, dropped
      twice or duplicated across a split of the input. */
  lemma {:induction false} KeepAppend<T, U>(a: seq<T>, b: seq<T>, f: T -> Option<U>)
    ensures Keep(a + b, f) == Keep(a, f) + Keep(b, f)
  {
    if b == [] {
      assert a + b == a;
    } else {
      KeepAppend(a, Init(b), f);
      assert a + b == (a + Init(b)) + [Last(b)];
      assert b == Init(b) + [Last(b)];
      KeepSnoc(a + Init(b), Last(b), f);
      KeepSnoc(Init(b), Last(b), f);
    }
  }

  /** `u` is kept exactly when `f` picks it from some element. */
  lemma {:induction false} KeepMember<T, U>(s: seq<T>, f: T -> Option<U>, u: U)
    ensures u in Keep(s, f) <==> exists i :: 0 <= i < |s| && f(s[i]) == Some(u)
  {
    if s != [] {
      KeepMember(Init(s), f, u);
      if exists i :: 0 <= i < |s| && f(s[i]) == Some(u) {
        var i :| 0 <= i < |s| && f(s[i]) == Some(u);
        if i < |s| - 1 {
          assert Init(s)[i] == s[i];
        }
      }
      if u in Keep(Init(s), f) {
        var i :| 0 <= i < |Init(s)| && f(Init(s)[i]) == Some(u);
        assert s[i] == Init(s)[i];
      }
    }
  }

  // ---------------------------------------------------------------------------
  // Counting

  /** The number of elements of `s` satisfying `p`. */
  function Count<T>(s: seq<T>, p: T -> bool): (n: nat)
    ensures n <= |s|
  {
    if s == [] then 0
    else Count(Init(s), p) + (if p(Last(s)) then 1 else 0)
  }

  // ---------------------------------------------------------------------------
  // Sums and means

  function Sum(s: seq<real>): real {
    if s == [] then 0.0 else Sum(Init(s)) + Last(s)
  }

  /** The mean, with 0 standing for "no samples". */
  function Average(s: seq<real>): real {
    if |s| > 0 then Sum(s) / (|s| as real) else 0.0
  }

  lemma {:induction false} SumBounds(s: seq<real>, lo: real, hi: real)
    requires forall i :: 0 <= i < |s| ==> lo <= s[i] <= hi
    ensures lo * (|s| as real) <= Sum(s) <= hi * (|s| as real)
  {
    if s != [] {
      SumBounds(Init(s), lo, hi);
      var n := (|s| - 1) as real;
      assert lo * (n + 1.0) == lo * n + lo;
      assert hi * (n + 1.0) == hi * n + hi;
    }
  }

  /** A mean of samples in [lo, hi] lies in [lo, hi]. */
  lemma AverageBounds(s: seq<real>, lo: real, hi: real)
    requires |s| > 0
    requires forall i :: 0 <= i < |s| ==> lo <= s[i] <= hi
    ensures lo <= Average(s) <= hi
  {
    SumBounds(s, lo, hi);
    var n := |s| as real;
    assert Sum(s) / n >= lo by {
      assert (Sum(s) / n) * n == Sum(s);
    }
    assert Sum(s) / n <= hi by {
      assert (Sum(s) / n) * n == Sum(s);
    }
  }

  // ---------------------------------------------------------------------------
  // Running minimum

  /** The minimum of `start` and every element of `s`, taken as a left-to-right
      scan that replaces the current value only by a strictly smaller one. */
  function RunningMin(start: real, s: seq<real>): (m: real)
    ensures m <= start
    ensures forall i :: 0 <= i < |s| ==> m <= s[i]
    ensures m == start || m in s
  {
    if s == [] then start
    else
      var m := RunningMin(start, Init(s));
      assert forall i :: 0 <= i < |s| - 1 ==> s[i] == Init(s)[i];
      if Last(s) < m then Last(s) else m
  }

  // ---------------------------------------------------------------------------
  // Collapse of consecutive repeats

  ghost predicate NoAdjacentRepeats<T>(s: seq<T>) {
    forall i :: 0 < i < |s| ==> s[i - 1] != s[i]
  }

  /** `s` with every run of equal adjacent elements reduced to one element. */
  function Collapse<T(==)>(s: seq<T>): seq<T> {
    if |s| <= 1 then s
    else if s[0] == s[1] then Collapse(s[1..])
    else [s[0]] + Collapse(s[1..])
  }

  /** A collapse keeps the first and the last element of its input. */
  lemma {:induction false} CollapseEnds<T>(s: seq<T>)
    requires s != []
    ensures Collapse(s) != []
    ensures Collapse(s)[0] == s[0] && Last(Collapse(s)) == Last(s)
  {
    if |s| > 1 {
      CollapseEnds(s[1..]);
    }
  }

  lemma {:induction false} CollapseHasNoRepeats<T>(s: seq<T>)
    ensures NoAdjacentRepeats(Collapse(s))
  {
    if |s| > 1 {
      CollapseHasNoRepeats(s[1..]);
      if s[0] != s[1] {
        CollapseEnds(s[1..]);
        var c := Collapse(s[1..]);
        assert forall i :: 0 < i < |c| + 1 ==> ([s[0]] + c)[i - 1] != ([s[0]] + c)[i] by {
          forall i | 0 < i < |c| + 1
            ensures ([s[0]] + c)[i - 1] != ([s[0]] + c)[i]
          {
            if i > 1 {
              assert ([s[0]] + c)[i - 1] == c[i - 2] && ([s[0]] + c)[i] == c[i - 1];
            }
          }
        }
      }
    }
  }

  /** A collapse contains exactly the values of its input. */
  lemma {:induction false} CollapseElements<T>(s: seq<T>, x: T)
    ensures x in Collapse(s) <==> x in s
  {
    if |s| > 1 {
      CollapseElements(s[1..], x);
      assert s == [s[0]] + s[1..];
    }
  }

  /** Appending one element to the input either extends the collapse by it or,
      when it repeats the last element, leaves the collapse unchanged. */
  lemma {:induction false} CollapseSnoc<T>(s: seq<T>, x: T)
    ensures Collapse(s + [x]) == if s != [] && Last(s) == x then Collapse(s) else Collapse(s) + [x]
  {
    if |s| == 1 {
      assert s + [x] == [s[0], x];
      assert [s[0], x][1..] == [x];
    } else if |s| > 1 {
      var t := s + [x];
      assert t[0] == s[0] && t[1] == s[1];
      assert t[1..] == s[1..] + [x];
      assert Last(s[1..]) == Last(s);
      CollapseSnoc(s[1..], x);
    }
  }

  /** A sequence without adjacent repeats is its own collapse; in particular
      collapsing is idempotent. */
  lemma {:induction false} CollapseFixesRepeatFree<T>(s: seq<T>)
    requires NoAdjacentRepeats(s)
    ensures Collapse(s) == s
  {
    if |s| > 1 {
      assert s[0] != s[1];
      assert NoAdjacentRepeats(s[1..]) by {
        forall i | 0 < i < |s[1..]| ensures s[1..][i - 1] != s[1..][i] {
          assert s[1..][i - 1] == s[i] && s[1..][i] == s[i + 1];
        }
      }
      CollapseFixesRepeatFree(s[1..]);
    }
  }

  lemma CollapseIdempotent<T>(s: seq<T>)
    ensures Collapse(Collapse(s)) == Collapse(s)
  {
    CollapseHasNoRepeats(s);
    CollapseFixesRepeatFree(Collapse(s));
  }
}
