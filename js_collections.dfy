/**
 * A JavaScript `Set` of numbers keeps its elements in insertion order, and
 * `Array.from(set)` lists them in that order. The model keeps such a set as a
 * sequence without repetitions.
 */
module JsCollections {

  predicate Distinct(s: seq<int>) {
    forall i, j :: 0 <= i < j < |s| ==> s[i] != s[j]
  }

  function Elements(s: seq<int>): set<int> {
    set x | x in s
  }

  /** `new Set([...s, x])`: x is appended unless it is already there. */
  function Insert(s: seq<int>, x: int): (r: seq<int>)
    requires Distinct(s)
    ensures Distinct(r)
    ensures Elements(r) == Elements(s) + {x}
    ensures |r| >= |s| && r[..|s|] == s
  {
    if x in s then s else s + [x]
  }

  /**
   * `new Set(a)`, listed: every element of `a` once. The listing of a shorter
   * prefix of `a` is kept in front, so an element is placed when it is first met.
   */
  function Dedup(a: seq<int>): (r: seq<int>)
    ensures Distinct(r)
    ensures Elements(r) == Elements(a)
    ensures |r| <= |a|
    ensures a != [] ==> var front := Dedup(a[..|a| - 1]); |front| <= |r| && r[..|front|] == front
  {
    if a == [] then [] else Insert(Dedup(a[..|a| - 1]), a[|a| - 1])
  }

  /** Adding an element that is already present changes nothing. */
  lemma {:induction false} InsertPresent(s: seq<int>, x: int)
    requires Distinct(s) && x in s
    ensures Insert(s, x) == s
  {
  }

  /** A sequence without repetitions has as many elements as its set. */
  lemma {:induction false} DistinctCard(s: seq<int>)
    requires Distinct(s)
    ensures |Elements(s)| == |s|
  {
    if s != [] {
      var init := s[..|s| - 1];
      DistinctCard(init);
      assert Elements(s) == Elements(init) + {s[|s| - 1]};
      assert s[|s| - 1] !in Elements(init);
    }
  }

  lemma {:induction false} SubsetCard<T>(a: set<T>, b: set<T>)
    requires a <= b
    ensures |a| <= |b|
    decreases a
  {
    if a != {} {
      var x :| x in a;
      SubsetCard(a - {x}, b - {x});
    }
  }

  /** A subset at least as large as the set is the set. */
  lemma {:induction false} SubsetFull<T>(a: set<T>, b: set<T>)
    requires a <= b && |a| >= |b|
    ensures a == b
  {
    if a != b {
      assert exists x :: x in b && x !in a;
      var x :| x in b && x !in a;
      SubsetCard(a, b - {x});
    }
  }

  /** The indices 0 .. n-1. */
  function Range(n: nat): (r: set<int>)
    ensures forall i :: i in r <==> 0 <= i < n
  {
    if n == 0 then {} else Range(n - 1) + {n - 1}
  }

  lemma {:induction false} RangeCard(n: nat)
    ensures |Range(n)| == n
  {
    if n > 0 {
      RangeCard(n - 1);
    }
  }

  /**
   * A sequence without repetitions whose elements are all below n covers every
   * index below n exactly when it is at least n long.
   */
  lemma {:induction false} CoversRange(s: seq<int>, n: nat)
    requires Distinct(s)
    requires forall x :: x in s ==> 0 <= x < n
    ensures |s| >= n <==> forall i :: 0 <= i < n ==> i in s
  {
    DistinctCard(s);
    RangeCard(n);
    assert Elements(s) <= Range(n);
    if |s| >= n {
      SubsetFull(Elements(s), Range(n));
      forall i | 0 <= i < n ensures i in s {
        assert i in Elements(s);
      }
    }
    if forall i :: 0 <= i < n ==> i in s {
      assert Range(n) <= Elements(s) by {
        forall i | i in Range(n) ensures i in Elements(s) {
          assert i in s;
        }
      }
      SubsetCard(Range(n), Elements(s));
    }
  }
}
