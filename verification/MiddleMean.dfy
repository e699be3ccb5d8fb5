/**
 The mean of the middle half of the sorted readings, and its robustness: a quarter of
 the readings may be anything at all without pulling the result out of the range of
 the others.
 */
module MiddleMean {
  import opened Sorting

  ghost predicate IsSortedCopy(s: seq<real>, t: seq<real>) {
    Sorted(t) && multiset(t) == multiset(s)
  }

  ghost function Sum(s: seq<real>): real {
    if s == [] then 0.0 else Sum(s[..|s| - 1]) + s[|s| - 1]
  }

  /** What is left when a quarter is cut off at each end. */
  ghost function MiddleHalf(t: seq<real>): seq<real> {
    t[|t| / 4..|t| - |t| / 4]
  }

  ghost function Mean(s: seq<real>): real
    requires s != []
  {
    Sum(s) / |s| as real
  }

  /** C's conversion to an integer, towards zero. */
  function Truncate(x: real): int {
    if x >= 0.0 then x.Floor else -((-x).Floor)
  }

  /** m is the mean of the middle half of the readings in order. */
  ghost predicate IsMiddleMean(s: seq<real>, m: real) {
    exists t :: IsSortedCopy(s, t) && MiddleHalf(t) != [] && m == Mean(MiddleHalf(t))
  }

  method ArrayMedian50(a: array<real>) returns (m: real)
    requires a.Length > 0
    ensures IsMiddleMean(a[..], m)
  {
    var tmp := new real[a.Length];
    forall i | 0 <= i < a.Length { tmp[i] := a[i]; }
    assert tmp[..] == a[..];
    var _ := Sort(tmp);
    m := MiddleMeanOf(tmp);
    assert IsSortedCopy(a[..], tmp[..]);
  }

  /** The averaging loop over a sorted array. */
  method MiddleMeanOf(tmp: array<real>) returns (m: real)
    requires tmp.Length > 0
    ensures MiddleHalf(tmp[..]) != [] && m == Mean(MiddleHalf(tmp[..]))
  {
    var n := tmp.Length;
    m := 0.0;
    var count := 0.0;
    for i := n / 4 to n - n / 4
      invariant count == (i - n / 4) as real
      invariant m == Sum(tmp[n / 4..i])
    {
      assert tmp[n / 4..i + 1][..i - n / 4] == tmp[n / 4..i];
      count := count + 1.0;
      m := m + tmp[i];
    }
    assert MiddleHalf(tmp[..]) == tmp[n / 4..n - n / 4];
    m := m / count;
  }

  /** The integer variants sort and average the same way and truncate at the end. */
  method ArrayMedian50Int(a: array<int>) returns (m: int)
    requires a.Length > 0
    ensures exists mean :: IsMiddleMean(Reals(a[..]), mean) && m == Truncate(mean)
  {
    var tmp := new real[a.Length];
    forall i | 0 <= i < a.Length { tmp[i] := a[i] as real; }
    assert tmp[..] == Reals(a[..]);
    var _ := Sort(tmp);
    var mean := MiddleMeanOf(tmp);
    m := Truncate(mean);
    assert IsSortedCopy(Reals(a[..]), tmp[..]);
  }

  ghost function Reals(s: seq<int>): seq<real> {
    seq(|s|, i requires 0 <= i < |s| => s[i] as real)
  }

  // Counting

  ghost function Count(s: seq<real>, p: real -> bool): nat {
    if s == [] then 0 else Count(s[..|s| - 1], p) + if p(s[|s| - 1]) then 1 else 0
  }

  lemma {:induction false} CountConcat(s: seq<real>, t: seq<real>, p: real -> bool)
    ensures Count(s + t, p) == Count(s, p) + Count(t, p)
  {
    if t == [] {
      assert s + t == s;
    } else {
      assert (s + t)[..|s + t| - 1] == s + t[..|t| - 1];
      CountConcat(s, t[..|t| - 1], p);
    }
  }

  lemma {:induction false} CountAll(s: seq<real>, p: real -> bool)
    requires forall i :: 0 <= i < |s| ==> p(s[i])
    ensures Count(s, p) == |s|
  {
    if s != [] { CountAll(s[..|s| - 1], p); }
  }

  /** Counting does not see the order. */
  lemma {:induction false} CountPermuted(s: seq<real>, t: seq<real>, p: real -> bool)
    requires multiset(s) == multiset(t)
    ensures Count(s, p) == Count(t, p)
    decreases |s|
  {
    if s == [] {
      assert |multiset(t)| == 0;
    } else {
      var x := s[|s| - 1];
      assert x in multiset(t);
      var j :| 0 <= j < |t| && t[j] == x;
      var before, after := t[..j], t[j + 1..];
      assert t == before + [x] + after;
      assert s == s[..|s| - 1] + [x];
      assert multiset(before + after) == multiset(t) - multiset{x};
      WithoutLast(s);
      CountPermuted(s[..|s| - 1], before + after, p);
      CountConcat(before, after, p);
      CountConcat(before + [x], after, p);
      CountConcat(before, [x], p);
      CountConcat(s[..|s| - 1], [x], p);
    }
  }

  ghost function Changed(a: seq<real>, b: seq<real>): set<nat>
    requires |a| == |b|
  {
    set i: nat | i < |a| && a[i] != b[i]
  }

  /** Only changed entries can have a property none of the unchanged ones has. */
  lemma {:induction false} CountChanged(a: seq<real>, b: seq<real>, p: real -> bool)
    requires |a| == |b|
    requires forall i :: 0 <= i < |a| && a[i] == b[i] ==> !p(b[i])
    ensures Count(b, p) <= |Changed(a, b)|
  {
    var n := |a|;
    if n > 0 {
      var a', b' := a[..n - 1], b[..n - 1];
      CountChanged(a', b', p);
      var last := if a[n - 1] != b[n - 1] then {n - 1} else {};
      assert Changed(a, b) == Changed(a', b') + last;
    }
  }

  // Order statistics of the sorted copy

  ghost function Below(lo: real): real -> bool { x => x < lo }

  ghost function Beyond(hi: real): real -> bool { x => x > hi }

  lemma SplitAt(t: seq<real>, k: nat)
    requires k <= |t|
    ensures t[..k] + t[k..] == t
  {
  }

  lemma MiddleAtLeast(t: seq<real>, lo: real)
    requires Sorted(t) && Count(t, Below(lo)) <= |t| / 4
    ensures forall i :: |t| / 4 <= i < |t| ==> lo <= t[i]
  {
    var m := |t| / 4;
    if m < |t| && t[m] < lo {
      CountAll(t[..m + 1], Below(lo));
      CountConcat(t[..m + 1], t[m + 1..], Below(lo));
      SplitAt(t, m + 1);
    }
  }

  lemma MiddleAtMost(t: seq<real>, hi: real)
    requires Sorted(t) && Count(t, Beyond(hi)) <= |t| / 4
    ensures forall i :: 0 <= i < |t| - |t| / 4 ==> t[i] <= hi
  {
    var k := |t| - |t| / 4;
    if 0 < k && t[k - 1] > hi {
      CountAll(t[k - 1..], Beyond(hi));
      CountConcat(t[..k - 1], t[k - 1..], Beyond(hi));
      SplitAt(t, k - 1);
    }
  }

  lemma {:induction false} SumWithin(s: seq<real>, lo: real, hi: real)
    requires forall i :: 0 <= i < |s| ==> lo <= s[i] <= hi
    ensures lo * |s| as real <= Sum(s) <= hi * |s| as real
  {
    if s != [] {
      SumWithin(s[..|s| - 1], lo, hi);
      var n := |s| as real;
      assert lo * (n - 1.0) == lo * n - lo && hi * (n - 1.0) == hi * n - hi;
    }
  }

  lemma MeanWithin(s: seq<real>, lo: real, hi: real)
    requires s != [] && forall i :: 0 <= i < |s| ==> lo <= s[i] <= hi
    ensures lo <= Mean(s) <= hi
  {
    SumWithin(s, lo, hi);
    QuotientWithin(Sum(s), |s| as real, lo, hi);
  }

  lemma QuotientWithin(sum: real, n: real, lo: real, hi: real)
    requires n > 0.0 && lo * n <= sum <= hi * n
    ensures lo <= sum / n <= hi
  {
    assert sum / n * n == sum;
  }

  lemma SortedRobust(a: seq<real>, b: seq<real>, t: seq<real>, lo: real, hi: real)
    requires |a| == |b| && a != []
    requires |Changed(a, b)| <= |a| / 4
    requires forall i :: 0 <= i < |a| && a[i] == b[i] ==> lo <= a[i] <= hi
    requires IsSortedCopy(b, t)
    ensures MiddleHalf(t) != [] && lo <= Mean(MiddleHalf(t)) <= hi
  {
    SameSize(b, t);
    CountChanged(a, b, Below(lo));
    CountChanged(a, b, Beyond(hi));
    CountPermuted(b, t, Below(lo));
    CountPermuted(b, t, Beyond(hi));
    MiddleAtLeast(t, lo);
    MiddleAtMost(t, hi);
    MeanWithin(MiddleHalf(t), lo, hi);
  }

  /** Robustness: however at most a quarter of the readings are changed, the result stays
      between any bounds that hold for the unchanged readings. */
  lemma Robust(a: seq<real>, b: seq<real>, m: real, lo: real, hi: real)
    requires |a| == |b| && a != []
    requires |Changed(a, b)| <= |a| / 4
    requires forall i :: 0 <= i < |a| && a[i] == b[i] ==> lo <= a[i] <= hi
    requires IsMiddleMean(b, m)
    ensures lo <= m <= hi
  {
    var t :| IsSortedCopy(b, t) && MiddleHalf(t) != [] && m == Mean(MiddleHalf(t));
    SortedRobust(a, b, t, lo, hi);
  }

  /** Truncation does not leave integer bounds. */
  lemma TruncateWithin(x: real, lo: int, hi: int)
    requires lo as real <= x <= hi as real
    ensures lo <= Truncate(x) <= hi
  {
  }

  /** The same for the integer variants. */
  lemma RobustInt(a: seq<int>, b: seq<int>, mean: real, lo: int, hi: int)
    requires |a| == |b| && a != []
    requires |Changed(Reals(a), Reals(b))| <= |a| / 4
    requires forall i :: 0 <= i < |a| && a[i] == b[i] ==> lo <= a[i] <= hi
    requires IsMiddleMean(Reals(b), mean)
    ensures lo <= Truncate(mean) <= hi
  {
    Robust(Reals(a), Reals(b), mean, lo as real, hi as real);
    TruncateWithin(mean, lo, hi);
  }

  /** The result is determined by the readings, in whatever order they come. */
  lemma OrderIsImmaterial(a: seq<real>, b: seq<real>, m: real, n: real)
    requires multiset(a) == multiset(b) && IsMiddleMean(a, m) && IsMiddleMean(b, n)
    ensures m == n
  {
    var s :| IsSortedCopy(a, s) && MiddleHalf(s) != [] && m == Mean(MiddleHalf(s));
    var t :| IsSortedCopy(b, t) && MiddleHalf(t) != [] && n == Mean(MiddleHalf(t));
    SortedCopyUnique(s, t);
  }

  /** Sorted copies are unique. */
  lemma {:induction false} SortedCopyUnique(s: seq<real>, t: seq<real>)
    requires Sorted(s) && Sorted(t) && multiset(s) == multiset(t)
    ensures s == t
    decreases |s|
  {
    SameSize(s, t);
    if s != [] {
      var s', t' := s[..|s| - 1], t[..|t| - 1];
      SameLast(s, t);
      SameFront(s, t);
      SortedCopyUnique(s', t');
      assert s == s' + [s[|s| - 1]] == t' + [t[|t| - 1]] == t;
    }
  }

  lemma SameFront(s: seq<real>, t: seq<real>)
    requires s != [] && t != [] && Sorted(s) && Sorted(t) && multiset(s) == multiset(t) && s[|s| - 1] == t[|t| - 1]
    ensures Sorted(s[..|s| - 1]) && Sorted(t[..|t| - 1]) && multiset(s[..|s| - 1]) == multiset(t[..|t| - 1])
  {
    WithoutLast(s);
    WithoutLast(t);
  }

  lemma SameSize(s: seq<real>, t: seq<real>)
    requires multiset(s) == multiset(t)
    ensures |s| == |t|
  {
    assert |s| == |multiset(s)| == |multiset(t)| == |t|;
  }

  lemma SameLast(s: seq<real>, t: seq<real>)
    requires s != [] && t != [] && Sorted(s) && Sorted(t) && multiset(s) == multiset(t)
    ensures s[|s| - 1] == t[|t| - 1]
  {
    WithoutLast(s);
    WithoutLast(t);
    LastIsGreatest(s, t[|t| - 1]);
    LastIsGreatest(t, s[|s| - 1]);
  }

  lemma WithoutLast(s: seq<real>)
    requires s != []
    ensures s[|s| - 1] in multiset(s)
    ensures multiset(s[..|s| - 1]) == multiset(s) - multiset{s[|s| - 1]}
  {
    assert s == s[..|s| - 1] + [s[|s| - 1]];
  }

  lemma LastIsGreatest(s: seq<real>, x: real)
    requires s != [] && Sorted(s) && x in multiset(s)
    ensures x <= s[|s| - 1]
  {
    var i :| 0 <= i < |s| && s[i] == x;
  }

  // Symmetry

  /** The readings negated, and so in reverse order. */
  ghost function Mirrored(s: seq<real>): (r: seq<real>)
    ensures |r| == |s| && forall i :: 0 <= i < |s| ==> r[i] == -s[|s| - 1 - i]
  {
    seq(|s|, i requires 0 <= i < |s| => -s[|s| - 1 - i])
  }

  ghost function Negated(s: seq<real>): (r: seq<real>)
    ensures |r| == |s| && forall i :: 0 <= i < |s| ==> r[i] == -s[i]
  {
    seq(|s|, i requires 0 <= i < |s| => -s[i])
  }

  lemma CountOneMore(s: seq<real>, y: real, x: real)
    ensures multiset(s + [y])[x] == multiset(s)[x] + (if y == x then 1 else 0)
    ensures multiset([y] + s)[x] == multiset(s)[x] + (if y == x then 1 else 0)
  {
  }

  lemma {:induction false} NegatedCounts(s: seq<real>, x: real)
    ensures multiset(Negated(s))[x] == multiset(s)[-x]
  {
    if s != [] {
      var n := |s| - 1;
      NegatedCounts(s[..n], x);
      assert s == s[..n] + [s[n]];
      assert Negated(s) == Negated(s[..n]) + [-s[n]];
      CountOneMore(s[..n], s[n], -x);
      CountOneMore(Negated(s[..n]), -s[n], x);
    }
  }

  lemma {:induction false} MirroredCounts(s: seq<real>, x: real)
    ensures multiset(Mirrored(s))[x] == multiset(s)[-x]
  {
    if s != [] {
      var n := |s| - 1;
      MirroredCounts(s[..n], x);
      assert s == s[..n] + [s[n]];
      assert Mirrored(s) == [-s[n]] + Mirrored(s[..n]);
      CountOneMore(s[..n], s[n], -x);
      CountOneMore(Mirrored(s[..n]), -s[n], x);
    }
  }

  lemma MirroredCopy(s: seq<real>, t: seq<real>)
    requires IsSortedCopy(s, t)
    ensures IsSortedCopy(Negated(s), Mirrored(t))
  {
    forall x: real ensures multiset(Mirrored(t))[x] == multiset(Negated(s))[x] {
      NegatedCounts(s, x);
      MirroredCounts(t, x);
    }
    assert multiset(Mirrored(t)) == multiset(Negated(s));
  }

  lemma {:induction false} SumFront(x: real, s: seq<real>)
    ensures Sum([x] + s) == x + Sum(s)
  {
    if s == [] {
      assert [x] + s == [x] && [x][..0] == [];
    } else {
      var n := |s| - 1;
      SumFront(x, s[..n]);
      assert ([x] + s)[..|s|] == [x] + s[..n];
    }
  }

  lemma {:induction false} SumMirrored(s: seq<real>)
    ensures Sum(Mirrored(s)) == -Sum(s)
  {
    if s != [] {
      var n := |s| - 1;
      SumMirrored(s[..n]);
      SumFront(-s[n], Mirrored(s[..n]));
      assert Mirrored(s) == [-s[n]] + Mirrored(s[..n]);
    }
  }

  lemma MeanMirrored(s: seq<real>)
    requires s != []
    ensures Mean(Mirrored(s)) == -Mean(s)
  {
    SumMirrored(s);
    NegatedQuotient(Sum(s), |s| as real);
  }

  lemma NegatedQuotient(x: real, n: real)
    requires n > 0.0
    ensures -x / n == -(x / n)
  {
    assert -x / n * n == -x && x / n * n == x;
  }

  lemma MiddleMirrored(t: seq<real>)
    ensures MiddleHalf(Mirrored(t)) == Mirrored(MiddleHalf(t))
  {
    var r, u, q := MiddleHalf(Mirrored(t)), Mirrored(MiddleHalf(t)), |t| / 4;
    forall i | 0 <= i < |r| ensures r[i] == u[i] {
      assert r[i] == Mirrored(t)[q + i] == -t[|t| - 1 - q - i];
    }
  }

  lemma ShownBy(s: seq<real>, t: seq<real>, m: real)
    requires IsSortedCopy(s, t) && MiddleHalf(t) != [] && m == Mean(MiddleHalf(t))
    ensures IsMiddleMean(s, m)
  {
  }

  /** Negating the readings negates the result: both ends are cut alike. */
  lemma NegationNegates(s: seq<real>, m: real)
    requires IsMiddleMean(s, m)
    ensures IsMiddleMean(Negated(s), -m)
  {
    var t :| IsSortedCopy(s, t) && MiddleHalf(t) != [] && m == Mean(MiddleHalf(t));
    MirroredCopy(s, t);
    MeanMirrored(MiddleHalf(t));
    MiddleMirrored(t);
    ShownBy(Negated(s), Mirrored(t), -m);
  }

  /** At least half of the readings count, and all but two quarters of them. */
  lemma HalfCounts(t: seq<real>)
    ensures 2 * |MiddleHalf(t)| >= |t| && |MiddleHalf(t)| == |t| - 2 * (|t| / 4)
  {
  }

  /** Truncation is towards zero and costs less than one. */
  lemma TruncateExactly(x: real)
    ensures x >= 0.0 ==> Truncate(x) as real <= x < Truncate(x) as real + 1.0
    ensures x <= 0.0 ==> Truncate(x) as real - 1.0 < x <= Truncate(x) as real
  {
  }
}
