/** Cardinality facts about finite sets of indices. */
module SetFacts {

  /** The indices 0 .. n-1. */
  function Range(n: nat): (r: set<nat>)
    ensures forall k: nat :: k in r <==> k < n
    ensures |r| == n
  {
    if n == 0 then {} else Range(n - 1) + {n - 1}
  }

  /** A subset is no larger than its superset, and one of the same size is the superset. */
  lemma {:induction false} SubsetCard<T>(a: set<T>, b: set<T>)
    requires a <= b
    ensures |a| <= |b|
    ensures |a| == |b| ==> a == b
  {
    if a != {} {
      var x :| x in a;
      SubsetCard(a - {x}, b - {x});
      assert a == (a - {x}) + {x};
      assert b == (b - {x}) + {x};
    }
  }

  /** A set holding all of 0 .. n-1 has at least n elements. */
  lemma RangeInside(n: nat, s: set<nat>)
    requires forall k: nat | k < n :: k in s
    ensures n <= |s|
  {
    SubsetCard(Range(n), s);
  }
}
