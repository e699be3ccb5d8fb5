/**
 Bubble sort in place and the mean of the middle half: the light meter's and the
 shutter calibration's protection against outliers.
 */
module Sorting {

  ghost predicate Sorted(s: seq<real>) {
    forall i, j :: 0 <= i < j < |s| ==> s[i] <= s[j]
  }

  // Inversions: pairs that stand in the wrong order

  /** How many entries exceed x. */
  ghost function Above(s: seq<real>, x: real): nat {
    if s == [] then 0 else Above(s[..|s| - 1], x) + if s[|s| - 1] > x then 1 else 0
  }

  ghost function Inversions(s: seq<real>): nat {
    if s == [] then 0 else Inversions(s[..|s| - 1]) + Above(s[..|s| - 1], s[|s| - 1])
  }

  ghost function Swap(s: seq<real>, i: nat): seq<real>
    requires i + 1 < |s|
  {
    s[i := s[i + 1]][i + 1 := s[i]]
  }

  lemma SwapPermutes(s: seq<real>, i: nat)
    requires i + 1 < |s|
    ensures multiset(Swap(s, i)) == multiset(s)
  {
    assert s == s[..i] + [s[i], s[i + 1]] + s[i + 2..];
    assert Swap(s, i) == s[..i] + [s[i + 1], s[i]] + s[i + 2..];
  }

  lemma {:induction false} AboveSwap(s: seq<real>, i: nat, x: real)
    requires i + 1 < |s|
    ensures Above(Swap(s, i), x) == Above(s, x)
  {
    var n, t := |s|, Swap(s, i);
    if i + 2 == n {
      assert t[..n - 1][..n - 2] == s[..n - 1][..n - 2];
    } else {
      assert t[..n - 1] == Swap(s[..n - 1], i);
      AboveSwap(s[..n - 1], i, x);
    }
  }

  /** Swapping neighbours that stand in the wrong order removes exactly one inversion. */
  lemma {:induction false} SwapRemovesOne(s: seq<real>, i: nat)
    requires i + 1 < |s| && s[i] > s[i + 1]
    ensures Inversions(Swap(s, i)) == Inversions(s) - 1
  {
    var n, t := |s|, Swap(s, i);
    if i + 2 == n {
      var p := s[..i];
      assert s[..n - 1][..n - 2] == p && t[..n - 1][..n - 2] == p;
      assert Inversions(s[..n - 1]) == Inversions(p) + Above(p, s[i]);
      assert Inversions(t[..n - 1]) == Inversions(p) + Above(p, s[i + 1]);
    } else {
      assert t[..n - 1] == Swap(s[..n - 1], i);
      SwapRemovesOne(s[..n - 1], i);
      AboveSwap(s[..n - 1], i, s[n - 1]);
    }
  }

  /** Bubble sort: a sorted permutation of the input, after exactly as many swaps as the
      input has inversions. */
  method Sort(a: array<real>) returns (swaps: nat)
    modifies a
    ensures Sorted(a[..])
    ensures multiset(a[..]) == multiset(old(a[..]))
    ensures swaps == Inversions(old(a[..]))
  {
    swaps := 0;
    var again := true;
    while again
      invariant multiset(a[..]) == multiset(old(a[..]))
      invariant swaps + Inversions(a[..]) == Inversions(old(a[..]))
      invariant !again ==> Sorted(a[..])
      decreases Inversions(a[..]), again
    {
      var count := Pass(a);
      swaps := swaps + count;
      again := count > 0;
    }
    SortedHasNone(a[..]);
  }

  method SwapAt(a: array<real>, i: nat)
    requires i + 1 < a.Length && a[i] > a[i + 1]
    modifies a
    ensures a[..] == Swap(old(a[..]), i)
    ensures multiset(a[..]) == multiset(old(a[..]))
    ensures Inversions(a[..]) == Inversions(old(a[..])) - 1
  {
    SwapRemovesOne(a[..], i);
    SwapPermutes(a[..], i);
    var temp := a[i + 1];
    a[i + 1] := a[i];
    a[i] := temp;
    assert a[..] == Swap(old(a[..]), i);
  }

  /** One pass over the array; with no swap made the array is sorted. */
  method Pass(a: array<real>) returns (swaps: nat)
    modifies a
    ensures multiset(a[..]) == multiset(old(a[..]))
    ensures swaps + Inversions(a[..]) == Inversions(old(a[..]))
    ensures swaps == 0 ==> a[..] == old(a[..]) && Sorted(a[..])
  {
    swaps := 0;
    var i := 1;
    while i < a.Length
      invariant 1 <= i && (i <= a.Length || a.Length == 0)
      invariant multiset(a[..]) == multiset(old(a[..]))
      invariant swaps + Inversions(a[..]) == Inversions(old(a[..]))
      invariant swaps == 0 ==> a[..] == old(a[..]) && forall j :: 1 <= j < i && j < a.Length ==> a[j - 1] <= a[j]
    {
      if a[i - 1] > a[i] {
        SwapAt(a, i - 1);
        swaps := swaps + 1;
      }
      i := i + 1;
    }
    if swaps == 0 { NeighboursInOrder(a[..]); }
  }

  lemma {:induction false} NeighboursInOrder(s: seq<real>)
    requires forall j :: 1 <= j < |s| ==> s[j - 1] <= s[j]
    ensures Sorted(s)
  {
    if |s| > 1 {
      NeighboursInOrder(s[..|s| - 1]);
      assert s[|s| - 2] <= s[|s| - 1];
    }
  }

  lemma {:induction false} SortedHasNone(s: seq<real>)
    requires Sorted(s)
    ensures Inversions(s) == 0
  {
    if s != [] {
      SortedHasNone(s[..|s| - 1]);
      NoneAbove(s[..|s| - 1], s[|s| - 1]);
    }
  }

  lemma {:induction false} NoneAbove(s: seq<real>, x: real)
    requires forall i :: 0 <= i < |s| ==> s[i] <= x
    ensures Above(s, x) == 0
  {
    if s != [] { NoneAbove(s[..|s| - 1], x); }
  }
}
