/**
 * Order statistics over real-valued windows, as numpy computes them:
 * the median of a sorted copy (the mean of the two middle elements for an
 * even length) and the median absolute deviation (MAD).
 */
module Stats {

  function Abs(x: real): (r: real)
    ensures r >= 0.0 && (r == x || r == -x)
  {
    if x < 0.0 then -x else x
  }

  /** Ascending order, stated between neighbours. */
  predicate Sorted(s: seq<real>)
  {
    |s| < 2 || (s[0] <= s[1] && Sorted(s[1..]))
  }

  lemma {:induction false} SortedLe(s: seq<real>, i: int, j: int)
    requires Sorted(s)
    requires 0 <= i <= j < |s|
    ensures s[i] <= s[j]
  {
    if i < j {
      if i == 0 {
        SortedLe(s[1..], 0, j - 1);
      } else {
        SortedLe(s[1..], i - 1, j - 1);
      }
    }
  }

  /** Inserts x before the first element not smaller than it. */
  function Insert(x: real, s: seq<real>): (r: seq<real>)
    ensures |r| == |s| + 1
  {
    if s == [] || x <= s[0] then [x] + s
    else
      assert s == [s[0]] + s[1..];
      [s[0]] + Insert(x, s[1..])
  }

  lemma {:induction false} InsertSorted(x: real, s: seq<real>)
    requires Sorted(s)
    ensures Sorted(Insert(x, s))
  {
    if s == [] || x <= s[0] {
      SortedCons(x, s);
    } else {
      InsertSorted(x, s[1..]);
      SortedCons(s[0], Insert(x, s[1..]));
    }
  }

  lemma {:induction false} InsertPermutes(x: real, s: seq<real>)
    ensures multiset(Insert(x, s)) == multiset(s) + multiset{x}
  {
    if s != [] && x > s[0] {
      InsertPermutes(x, s[1..]);
      assert s == [s[0]] + s[1..];
    }
  }

  /** The sorted copy of a window, as np.median takes it. */
  function SortedCopy(s: seq<real>): (r: seq<real>)
    ensures |r| == |s|
  {
    if s == [] then [] else Insert(s[0], SortedCopy(s[1..]))
  }

  /** The sorted copy is in ascending order. */
  lemma {:induction false} SortedCopySorted(s: seq<real>)
    ensures Sorted(SortedCopy(s))
  {
    if s != [] {
      SortedCopySorted(s[1..]);
      InsertSorted(s[0], SortedCopy(s[1..]));
    }
  }

  lemma SortedCons(x: real, t: seq<real>)
    requires Sorted(t)
    requires t == [] || x <= t[0]
    ensures Sorted([x] + t)
  {
    assert ([x] + t)[1..] == t;
  }

  function Median(s: seq<real>): real
    requires |s| > 0
  {
    var t := SortedCopy(s);
    var n := |t|;
    if n % 2 == 1 then t[n / 2] else (t[n / 2 - 1] + t[n / 2]) / 2.0
  }

  /** |w[i] - m| for every element of the window. */
  function Deviations(w: seq<real>, m: real): (r: seq<real>)
    ensures |r| == |w|
    ensures forall i {:trigger r[i]} :: 0 <= i < |w| ==> r[i] == Abs(w[i] - m)
  {
    if w == [] then [] else [Abs(w[0] - m)] + Deviations(w[1..], m)
  }

  /** Median absolute deviation: the median of the deviations from the median. */
  function Mad(w: seq<real>): real
    requires |w| > 0
  {
    Median(Deviations(w, Median(w)))
  }

  /** The value a MAD of exactly zero is replaced by before dividing. */
  const MadFloor: real := 0.00000001

  /** The MAD, with an exact zero replaced by the floor: always a positive divisor. */
  function FlooredMad(w: seq<real>): (d: real)
    requires |w| > 0
    ensures d > 0.0
    ensures Mad(w) > 0.0 ==> d == Mad(w)
    ensures Mad(w) == 0.0 ==> d == MadFloor
  {
    MadNonNegative(w);
    var m := Mad(w);
    if m == 0.0 then MadFloor else m
  }

  // ---------------------------------------------------------------------
  // Properties of the median

  /** The sorted copy holds exactly the window's values. */
  lemma {:induction false} SortedCopyPermutes(s: seq<real>)
    ensures multiset(SortedCopy(s)) == multiset(s)
  {
    if s != [] {
      SortedCopyPermutes(s[1..]);
      InsertPermutes(s[0], SortedCopy(s[1..]));
      assert s == [s[0]] + s[1..];
    }
  }

  lemma SortedCopyElements(s: seq<real>, i: int)
    requires 0 <= i < |s|
    ensures SortedCopy(s)[i] in multiset(s)
  {
    var t := SortedCopy(s);
    SortedCopyPermutes(s);
    assert t[i] in multiset(t);
  }

  /** A lower bound of every element bounds the median from below. */
  lemma MedianAtLeast(s: seq<real>, lo: real)
    requires |s| > 0
    requires forall i :: 0 <= i < |s| ==> lo <= s[i]
    ensures lo <= Median(s)
  {
    var t := SortedCopy(s);
    var n := |t|;
    SortedCopyElements(s, n / 2);
    if n % 2 == 0 {
      SortedCopyElements(s, n / 2 - 1);
    }
  }

  /** An upper bound of every element bounds the median from above. */
  lemma MedianAtMost(s: seq<real>, hi: real)
    requires |s| > 0
    requires forall i :: 0 <= i < |s| ==> s[i] <= hi
    ensures Median(s) <= hi
  {
    var t := SortedCopy(s);
    var n := |t|;
    SortedCopyElements(s, n / 2);
    if n % 2 == 0 {
      SortedCopyElements(s, n / 2 - 1);
    }
  }

  /** In ascending order, the middle element (or the mean of the two middle ones) lies between the ends. */
  lemma MiddleBetweenEnds(t: seq<real>)
    requires Sorted(t) && |t| > 0
    ensures var n := |t|;
      t[0] <= (if n % 2 == 1 then t[n / 2] else (t[n / 2 - 1] + t[n / 2]) / 2.0) <= t[n - 1]
  {
    var n := |t|;
    if n % 2 == 1 {
      SortedLe(t, 0, n / 2);
      SortedLe(t, n / 2, n - 1);
    } else {
      SortedLe(t, 0, n / 2 - 1);
      SortedLe(t, n / 2 - 1, n / 2);
      SortedLe(t, n / 2, n - 1);
    }
  }

  /** The median lies between the first and the last element of the sorted copy. */
  lemma MedianBetweenEnds(s: seq<real>)
    requires |s| > 0
    ensures SortedCopy(s)[0] <= Median(s) <= SortedCopy(s)[|s| - 1]
  {
    SortedCopySorted(s);
    MiddleBetweenEnds(SortedCopy(s));
  }

  /** The median lies between the smallest and the largest element of the window. */
  lemma MedianWithinRange(s: seq<real>)
    requires |s| > 0
    ensures exists i :: 0 <= i < |s| && s[i] <= Median(s)
    ensures exists j :: 0 <= j < |s| && Median(s) <= s[j]
  {
    var t, n := SortedCopy(s), |s|;
    MedianBetweenEnds(s);
    SortedCopyElements(s, 0);
    SortedCopyElements(s, n - 1);
    var i :| 0 <= i < n && s[i] == t[0];
    var j :| 0 <= j < n && s[j] == t[n - 1];
  }

  /** The median of a constant window is that constant. */
  lemma MedianOfConstant(s: seq<real>, c: real)
    requires |s| > 0
    requires forall i :: 0 <= i < |s| ==> s[i] == c
    ensures Median(s) == c
  {
    MedianAtLeast(s, c);
    MedianAtMost(s, c);
  }

  lemma MadNonNegative(w: seq<real>)
    requires |w| > 0
    ensures Mad(w) >= 0.0
  {
    MedianAtLeast(Deviations(w, Median(w)), 0.0);
  }

  lemma MultisetCancel(x: real, p: multiset<real>, q: multiset<real>)
    requires multiset{x} + p == multiset{x} + q
    ensures p == q
  {
    forall y ensures p[y] == q[y] {
      assert (multiset{x} + p)[y] == (multiset{x} + q)[y];
    }
  }

  /** Two sorted sequences holding the same elements are equal. */
  lemma {:induction false} SortedUnique(a: seq<real>, b: seq<real>)
    requires Sorted(a) && Sorted(b)
    requires multiset(a) == multiset(b)
    ensures a == b
  {
    if a != [] {
      assert |a| == |multiset(a)| == |b|;
      assert a[0] in multiset(b) && b[0] in multiset(a);
      var i :| 0 <= i < |b| && b[i] == a[0];
      var j :| 0 <= j < |a| && a[j] == b[0];
      SortedLe(b, 0, i);
      SortedLe(a, 0, j);
      assert multiset(a) == multiset{a[0]} + multiset(a[1..]) by {
        assert a == [a[0]] + a[1..];
      }
      assert multiset(b) == multiset{b[0]} + multiset(b[1..]) by {
        assert b == [b[0]] + b[1..];
      }
      assert a[0] == b[0];
      MultisetCancel(a[0], multiset(a[1..]), multiset(b[1..]));
      SortedUnique(a[1..], b[1..]);
    }
  }

  /** The median is a statistic of the bag of values: reordering the window does not change it. */
  lemma MedianPermutationInvariant(a: seq<real>, b: seq<real>)
    requires |a| > 0
    requires multiset(a) == multiset(b)
    ensures |b| > 0 && Median(a) == Median(b)
  {
    assert |a| == |multiset(a)| == |b|;
    SortedCopyPermutes(a);
    SortedCopyPermutes(b);
    SortedCopySorted(a);
    SortedCopySorted(b);
    SortedUnique(SortedCopy(a), SortedCopy(b));
  }

  /** The MAD, too, depends only on the bag of values. */
  lemma MadPermutationInvariant(a: seq<real>, b: seq<real>)
    requires |a| > 0
    requires multiset(a) == multiset(b)
    ensures |b| > 0 && Mad(a) == Mad(b)
  {
    MedianPermutationInvariant(a, b);
    var m := Median(a);
    DeviationsPermutation(a, b, m);
    MedianPermutationInvariant(Deviations(a, m), Deviations(b, m));
  }

  lemma MultisetRemove(b: seq<real>, i: nat)
    requires i < |b|
    ensures multiset(b) == multiset{b[i]} + multiset(b[..i] + b[i + 1..])
  {
    assert b == b[..i] + [b[i]] + b[i + 1..];
  }

  /** Dropping one value drops its deviation and keeps the others in order. */
  lemma DeviationsRemove(b: seq<real>, i: nat, m: real)
    requires i < |b|
    ensures Deviations(b[..i] + b[i + 1..], m) == Deviations(b, m)[..i] + Deviations(b, m)[i + 1..]
  {
    var rest := b[..i] + b[i + 1..];
    var d := Deviations(b, m);
    var lhs := Deviations(rest, m);
    var rhs := d[..i] + d[i + 1..];
    forall k | 0 <= k < |lhs| ensures lhs[k] == rhs[k] {
      if k < i {
        assert rest[k] == b[k] && rhs[k] == d[k];
      } else {
        assert rest[k] == b[k + 1] && rhs[k] == d[k + 1];
      }
    }
  }

  lemma {:induction false} DeviationsPermutation(a: seq<real>, b: seq<real>, m: real)
    requires multiset(a) == multiset(b)
    ensures multiset(Deviations(a, m)) == multiset(Deviations(b, m))
  {
    if a == [] {
      assert |b| == |multiset(b)| == 0;
    } else {
      var x := a[0];
      assert x in multiset(b);
      var i :| 0 <= i < |b| && b[i] == x;
      var rest := b[..i] + b[i + 1..];
      var d := Deviations(b, m);
      assert d[i] == Abs(x - m);
      assert Deviations(a, m) == [Abs(x - m)] + Deviations(a[1..], m);
      MultisetRemove(b, i);
      assert a == [x] + a[1..];
      assert multiset(a) == multiset{x} + multiset(a[1..]);
      MultisetCancel(x, multiset(a[1..]), multiset(rest));
      DeviationsPermutation(a[1..], rest, m);
      DeviationsRemove(b, i, m);
      MultisetRemove(d, i);
    }
  }

  // ---------------------------------------------------------------------
  // Translation: adding a constant to every value moves the median with it
  // and leaves the MAD unchanged.

  function Shift(s: seq<real>, c: real): (r: seq<real>)
    ensures |r| == |s|
    ensures forall i {:trigger r[i]} :: 0 <= i < |s| ==> r[i] == s[i] + c
  {
    if s == [] then [] else [s[0] + c] + Shift(s[1..], c)
  }

  lemma ShiftCons(a: real, t: seq<real>, c: real)
    ensures Shift([a] + t, c) == [a + c] + Shift(t, c)
  {
    assert ([a] + t)[1..] == t;
  }

  lemma {:induction false} ShiftInsert(x: real, s: seq<real>, c: real)
    ensures Shift(Insert(x, s), c) == Insert(x + c, Shift(s, c))
  {
    if s == [] || x <= s[0] {
      ShiftCons(x, s, c);
    } else {
      var t := Insert(x, s[1..]);
      ShiftInsert(x, s[1..], c);
      ShiftCons(s[0], t, c);
      ShiftCons(s[0], s[1..], c);
      assert s == [s[0]] + s[1..];
    }
  }

  lemma {:induction false} ShiftSortedCopy(s: seq<real>, c: real)
    ensures Shift(SortedCopy(s), c) == SortedCopy(Shift(s, c))
  {
    if s != [] {
      ShiftSortedCopy(s[1..], c);
      ShiftInsert(s[0], SortedCopy(s[1..]), c);
      var u := Shift(s, c);
      assert u[0] == s[0] + c;
      assert u[1..] == Shift(s[1..], c) by {
        ShiftCons(s[0], s[1..], c);
        assert s == [s[0]] + s[1..];
      }
      assert SortedCopy(u) == Insert(u[0], SortedCopy(u[1..]));
    }
  }

  lemma MedianShift(s: seq<real>, c: real)
    requires |s| > 0
    ensures Median(Shift(s, c)) == Median(s) + c
  {
    var t := SortedCopy(s);
    var u := SortedCopy(Shift(s, c));
    ShiftSortedCopy(s, c);
    var n := |t|;
    assert |u| == n;
    if n % 2 == 1 {
      assert u[n / 2] == t[n / 2] + c;
    } else {
      var lo, hi := t[n / 2 - 1], t[n / 2];
      assert u[n / 2 - 1] == lo + c && u[n / 2] == hi + c;
      assert ((lo + c) + (hi + c)) / 2.0 == (lo + hi) / 2.0 + c;
    }
  }

  lemma {:induction false} DeviationsShift(s: seq<real>, c: real, m: real)
    ensures Deviations(Shift(s, c), m + c) == Deviations(s, m)
  {
    if s != [] {
      DeviationsShift(s[1..], c, m);
      assert (s[0] + c) - (m + c) == s[0] - m;
    }
  }

  /** Two windows whose deviations from their own medians agree have the same MAD. */
  lemma MadFromDeviations(a: seq<real>, b: seq<real>, ma: real, mb: real)
    requires |a| > 0 && |b| > 0
    requires ma == Median(a) && mb == Median(b)
    requires Deviations(a, ma) == Deviations(b, mb)
    ensures Mad(a) == Mad(b)
  {
  }

  lemma MadShift(s: seq<real>, c: real)
    requires |s| > 0
    ensures Mad(Shift(s, c)) == Mad(s)
  {
    var m, u := Median(s), Shift(s, c);
    assert Median(u) == m + c by { MedianShift(s, c); }
    assert Deviations(u, m + c) == Deviations(s, m) by { DeviationsShift(s, c, m); }
    MadFromDeviations(u, s, m + c, m);
  }
}
