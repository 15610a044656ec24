/** Sequences without repetitions. */
module Sequences {
  predicate Distinct<T(==)>(s: seq<T>) {
    forall i, j :: 0 <= i < j < |s| ==> s[i] != s[j]
  }

  function ToSet<T>(s: seq<T>): set<T> {
    set x | x in s
  }

  lemma DistinctSnoc<T>(s: seq<T>, x: T)
    ensures Distinct(s + [x]) <==> Distinct(s) && x !in s
  {
    var t := s + [x];
    if Distinct(t) {
      assert forall i :: 0 <= i < |s| ==> t[i] == s[i] && t[i] != t[|s|];
      assert forall i, j :: 0 <= i < j < |s| ==> t[i] != t[j];
    }
  }

  lemma {:induction false} SetSize<T>(s: seq<T>)
    ensures |ToSet(s)| <= |s|
    ensures |ToSet(s)| == |s| <==> Distinct(s)
  {
    if s != [] {
      var rest, last := s[..|s| - 1], s[|s| - 1];
      SetSize(rest);
      DistinctSnoc(rest, last);
      assert s == rest + [last];
      assert ToSet(s) == ToSet(rest) + {last};
      assert last in rest <==> last in ToSet(rest);
    }
  }

  function Below(n: nat): (r: set<nat>)
    ensures forall x: nat :: x in r <==> x < n
    ensures |r| == n
  {
    if n == 0 then {} else Below(n - 1) + {n - 1}
  }

  /** n different indices below n are all of them. */
  lemma DistinctIsOnto(s: seq<nat>, x: nat)
    requires Distinct(s) && (forall k :: 0 <= k < |s| ==> s[k] < |s|) && x < |s|
    ensures x in s
  {
    SetSize(s);
    var all := Below(|s|);
    assert ToSet(s) <= all;
    assert |all - ToSet(s)| == |all| - |ToSet(s)|;
    assert x in all;
  }
}
