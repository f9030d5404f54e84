/** Small facts about finite sets and about sequences without repetition. */
module Counting {

  /** The first k elements differ from each other. */
  predicate DistinctUpto<T(==)>(s: seq<T>, k: nat)
    requires k <= |s|
  {
    forall i, j :: 0 <= i < j < k ==> s[i] != s[j]
  }

  predicate Distinct<T(==)>(s: seq<T>)
  {
    DistinctUpto(s, |s|)
  }

  function Elements<T(==)>(s: seq<T>): set<T>
  {
    set x | x in s
  }

  function Below(m: nat): (s: set<nat>)
    ensures forall x: nat :: x in s <==> x < m
    ensures |s| == m
  {
    if m == 0 then {} else Below(m - 1) + {m - 1}
  }

  lemma {:induction false} ElementCount<T>(s: seq<T>)
    ensures |Elements(s)| <= |s|
    ensures Distinct(s) ==> |Elements(s)| == |s|
    decreases |s|
  {
    if s == [] {
      assert Elements(s) == {};
    } else {
      var init, last := s[..|s| - 1], s[|s| - 1];
      ElementCount(init);
      assert s == init + [last];
      assert Elements(s) == Elements(init) + {last};
      if Distinct(s) {
        assert last !in init;
        assert Distinct(init);
      }
    }
  }

  lemma {:induction false} SubsetSize<T>(a: set<T>, b: set<T>)
    requires a <= b
    ensures |a| <= |b|
  {
    assert b == a + (b - a);
  }

  /** Distinct numbers below m are at most m. */
  lemma {:induction false} Pigeonhole(s: seq<nat>, m: nat)
    requires Distinct(s) && forall i :: 0 <= i < |s| ==> s[i] < m
    ensures |s| <= m
  {
    ElementCount(s);
    SubsetSize(Elements(s), Below(m));
  }

  /** m of them are all of them. */
  lemma {:induction false} PigeonholeFull(s: seq<nat>, m: nat, x: nat)
    requires Distinct(s) && (forall i :: 0 <= i < |s| ==> s[i] < m) && |s| >= m && x < m
    ensures x in s
  {
    ElementCount(s);
    if x !in s {
      SubsetSize(Elements(s) + {x}, Below(m));
    }
  }

  /** How many elements are at least m. */
  function CountFrom(s: seq<nat>, m: nat): (c: nat)
    ensures c <= |s|
  {
    if s == [] then 0 else CountFrom(s[..|s| - 1], m) + (if s[|s| - 1] >= m then 1 else 0)
  }

  /** Of distinct numbers at most m are below m. */
  lemma {:induction false} CountBelow(s: seq<nat>, m: nat)
    requires Distinct(s)
    ensures |s| <= m + CountFrom(s, m)
  {
    var below := Smaller(s, m);
    Pigeonhole(below, m);
  }

  /** The elements below m, in order. */
  lemma {:induction false} Smaller(s: seq<nat>, m: nat) returns (below: seq<nat>)
    requires Distinct(s)
    ensures Distinct(below) && (forall i :: 0 <= i < |below| ==> below[i] < m && below[i] in s)
    ensures |s| == |below| + CountFrom(s, m)
    decreases |s|
  {
    if s == [] {
      below := [];
    } else {
      var init, last := s[..|s| - 1], s[|s| - 1];
      below := Smaller(init, m);
      if last < m {
        assert last !in init;
        below := below + [last];
      }
    }
  }
}
