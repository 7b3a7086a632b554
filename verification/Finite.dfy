/** Counting with finite sets and with sequences that do not repeat themselves. */
module Finite {

  ghost predicate Distinct<T(!new)>(s: seq<T>) {
    forall i, j :: 0 <= i < j < |s| ==> s[i] != s[j]
  }

  /** The numbers below n. */
  function Below(n: nat): (r: set<nat>)
    ensures |r| == n
    ensures forall i: nat :: i in r <==> i < n
  {
    if n == 0 then {} else Below(n - 1) + {n - 1}
  }

  ghost function Elements<T(!new)>(s: seq<T>): (r: set<T>)
    ensures forall x :: x in r <==> x in s
  {
    if s == [] then {} else Elements(s[..|s| - 1]) + {s[|s| - 1]}
  }

  lemma {:induction false} ElementsSize<T(!new)>(s: seq<T>)
    ensures |Elements(s)| <= |s|
  {
    if s != [] {
      ElementsSize(s[..|s| - 1]);
    }
  }

  lemma {:induction false} ElementsDistinct<T(!new)>(s: seq<T>)
    requires Distinct(s)
    ensures |Elements(s)| == |s|
  {
    if s != [] {
      ElementsDistinct(s[..|s| - 1]);
    }
  }

  lemma {:induction false} SubsetSize<T>(a: set<T>, b: set<T>)
    requires a <= b
    ensures |a| <= |b|
    ensures |a| == |b| ==> a == b
  {
    if a != {} {
      var x :| x in a;
      SubsetSize(a - {x}, b - {x});
    }
  }

  /** n different numbers below n are all of them. */
  lemma Pigeonhole(s: seq<nat>, n: nat)
    requires |s| == n && Distinct(s)
    requires forall k :: 0 <= k < n ==> s[k] < n
    ensures forall i: nat :: i < n ==> i in s
  {
    ElementsDistinct(s);
    assert Elements(s) <= Below(n);
    SubsetSize(Elements(s), Below(n));
    assert forall i: nat :: i < n ==> i in Below(n);
  }
}
