/**
 slices.Sort and the upper median of converter/epub.go: the element at index len/2 of the sorted sizes.
 */
module Medians {
  import opened Wrappers

  predicate Sorted(s: seq<real>) {
    forall i, j :: 0 <= i < j < |s| ==> s[i] <= s[j]
  }

  function Insert(x: real, s: seq<real>): (r: seq<real>)
    ensures |r| == |s| + 1
    ensures forall y :: y in r <==> y == x || y in s
  {
    if s == [] || s[|s| - 1] <= x then s + [x] else Insert(x, s[..|s| - 1]) + [s[|s| - 1]]
  }

  lemma {:induction false} InsertSorted(x: real, s: seq<real>)
    requires Sorted(s)
    ensures Sorted(Insert(x, s))
  {
    if s != [] && x < s[|s| - 1] {
      var front := Insert(x, s[..|s| - 1]);
      InsertSorted(x, s[..|s| - 1]);
      assert forall i :: 0 <= i < |front| ==> front[i] in front;
    }
  }

  /** slices.Sort */
  function Sort(s: seq<real>): (r: seq<real>)
    ensures |r| == |s|
    ensures Sorted(r)
    ensures forall y :: y in r <==> y in s
  {
    if s == [] then []
    else
      var front := Sort(s[..|s| - 1]);
      InsertSorted(s[|s| - 1], front);
      Insert(s[|s| - 1], front)
  }

  function Median(s: seq<real>): Option<real> {
    if s == [] then None else Some(Sort(s)[|s| / 2])
  }

  predicate Beyond(x: real, m: real, above: bool) {
    if above then x >= m else x <= m
  }

  /** How many elements are at least m, or at most m. */
  function Count(s: seq<real>, m: real, above: bool): (n: nat)
    ensures n <= |s|
  {
    if s == [] then 0
    else Count(s[..|s| - 1], m, above) + if Beyond(s[|s| - 1], m, above) then 1 else 0
  }

  lemma {:induction false} CountAppend(s: seq<real>, t: seq<real>, m: real, above: bool)
    ensures Count(s + t, m, above) == Count(s, m, above) + Count(t, m, above)
  {
    if t == [] {
      assert s + t == s;
    } else {
      assert (s + t)[..|s + t| - 1] == s + t[..|t| - 1];
      CountAppend(s, t[..|t| - 1], m, above);
    }
  }

  lemma {:induction false} CountAll(s: seq<real>, m: real, above: bool)
    requires forall i :: 0 <= i < |s| ==> Beyond(s[i], m, above)
    ensures Count(s, m, above) == |s|
  {
    if s != [] { CountAll(s[..|s| - 1], m, above); }
  }

  lemma {:induction false} CountInsert(x: real, s: seq<real>, m: real, above: bool)
    ensures Count(Insert(x, s), m, above) == Count(s, m, above) + if Beyond(x, m, above) then 1 else 0
  {
    hide Beyond;
    if s == [] || s[|s| - 1] <= x {
      assert (s + [x])[..|s|] == s;
    } else {
      var front := Insert(x, s[..|s| - 1]);
      CountInsert(x, s[..|s| - 1], m, above);
      assert (front + [s[|s| - 1]])[..|front|] == front;
    }
  }

  lemma {:induction false} CountSort(s: seq<real>, m: real, above: bool)
    ensures Count(Sort(s), m, above) == Count(s, m, above)
  {
    hide Beyond, Insert;
    if s != [] {
      CountSort(s[..|s| - 1], m, above);
      CountInsert(s[|s| - 1], Sort(s[..|s| - 1]), m, above);
    }
  }

  lemma CountParts(s: seq<real>, k: nat, m: real, above: bool)
    requires k <= |s|
    ensures Count(s, m, above) == Count(s[..k], m, above) + Count(s[k..], m, above)
  {
    CountAppend(s[..k], s[k..], m, above);
    assert s == s[..k] + s[k..];
  }

  /** The median is an element with at least half of the elements on either side of it. */
  lemma MedianSplits(s: seq<real>, m: real)
    requires Median(s) == Some(m)
    ensures m in s
    ensures Count(s, m, true) >= |s| - |s| / 2
    ensures Count(s, m, false) >= |s| / 2 + 1
  {
    hide Count, Sort;
    var sorted, k := Sort(s), |s| / 2;
    assert sorted[k] in sorted;
    CountSort(s, m, true);
    CountSort(s, m, false);
    CountParts(sorted, k, m, true);
    CountParts(sorted, k + 1, m, false);
    CountAll(sorted[k..], m, true);
    CountAll(sorted[..k + 1], m, false);
  }
}
