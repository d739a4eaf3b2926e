/** Counting facts about finite sets and lists without repetitions. */
module Finite {

  function SetOf<T(!new, ==)>(xs: seq<T>): (s: set<T>)
    ensures forall x :: x in s <==> x in xs
  {
    set x | x in xs
  }

  function Below(n: nat): (s: set<int>)
    ensures |s| == n && forall i :: i in s <==> 0 <= i < n
  {
    if n == 0 then {} else Below(n - 1) + {n - 1}
  }

  lemma {:induction false} SubsetSize<T>(a: set<T>, b: set<T>)
    requires a <= b
    ensures |a| <= |b| && (|a| == |b| ==> a == b)
  {
    assert b == a + (b - a);
    assert |b| == |a| + |b - a|;
  }

  /** Marking one more element leaves fewer unmarked. */
  lemma SmallerRest<T>(all: set<T>, marked: set<T>, x: T)
    requires x in all && x !in marked
    ensures |all - (marked + {x})| < |all - marked|
  {
    assert all - marked == (all - (marked + {x})) + {x};
  }

  ghost predicate NoRepeats<T>(xs: seq<T>) {
    forall i, j :: 0 <= i < j < |xs| ==> xs[i] != xs[j]
  }

  lemma {:induction false} DistinctSize<T(!new)>(xs: seq<T>)
    requires NoRepeats(xs)
    ensures |SetOf(xs)| == |xs|
  {
    if xs != [] {
      var n := |xs| - 1;
      DistinctSize(xs[..n]);
      assert xs == xs[..n] + [xs[n]];
      assert SetOf(xs) == SetOf(xs[..n]) + {xs[n]};
    }
  }

  /** Distinct numbers below `n` reach every number below `n` exactly when there are `n` of them. */
  lemma DistinctBelow(xs: seq<int>, n: nat)
    requires NoRepeats(xs) && forall k :: 0 <= k < |xs| ==> 0 <= xs[k] < n
    ensures |xs| == n <==> forall i :: 0 <= i < n ==> i in xs
  {
    DistinctSize(xs);
    assert SetOf(xs) <= Below(n);
    SubsetSize(SetOf(xs), Below(n));
    if forall i :: 0 <= i < n ==> i in xs {
      assert SetOf(xs) == Below(n);
    }
  }
}
