/** Facts about sequences used by option collection and shuffling. */
module Sequences {

  /** No element occurs twice. */
  predicate Distinct<T(==)>(s: seq<T>) {
    forall i, j :: 0 <= i < j < |s| ==> s[i] != s[j]
  }

  function Elements<T(==)>(s: seq<T>): set<T> {
    set x | x in s
  }

  /** Exchange the elements at positions `i` and `j`
      (`[array[i], array[j]] = [array[j], array[i]]`). */
  function Swap<T>(a: seq<T>, i: nat, j: nat): (b: seq<T>)
    requires i < |a| && j < |a|
    ensures |b| == |a|
  {
    a[i := a[j]][j := a[i]]
  }

  /** A swap only rearranges: the two positions trade places, every other
      position is untouched, so the multiset of elements is unchanged and
      a duplicate-free sequence stays duplicate-free. */
  lemma SwapPermutes<T>(a: seq<T>, i: nat, j: nat)
    requires i < |a| && j < |a|
    ensures Swap(a, i, j)[i] == a[j] && Swap(a, i, j)[j] == a[i]
    ensures forall k :: 0 <= k < |a| && k != i && k != j ==> Swap(a, i, j)[k] == a[k]
    ensures multiset(Swap(a, i, j)) == multiset(a)
    ensures Distinct(a) ==> Distinct(Swap(a, i, j))
  {
  }

  /** A duplicate-free sequence has as many elements as its set. */
  lemma {:induction false} DistinctCardinality<T>(s: seq<T>)
    requires Distinct(s)
    ensures |Elements(s)| == |s|
  {
    if |s| > 0 {
      var t := s[..|s| - 1];
      assert Distinct(t);
      DistinctCardinality(t);
      assert s == t + [s[|s| - 1]];
      assert s[|s| - 1] !in t;
      assert Elements(s) == Elements(t) + {s[|s| - 1]};
    } else {
      assert Elements(s) == {};
    }
  }

  /** A subset is no larger than its superset. */
  lemma {:induction false} SubsetCardinality<T>(a: set<T>, b: set<T>)
    requires a <= b
    ensures |a| <= |b|
    decreases a
  {
    if a != {} {
      var x :| x in a;
      SubsetCardinality(a - {x}, b - {x});
    }
  }

  /** A duplicate-free sequence drawn from a set is no longer than the set. */
  lemma DistinctWithin<T>(s: seq<T>, bound: set<T>)
    requires Distinct(s)
    requires forall x :: x in s ==> x in bound
    ensures |s| <= |bound|
  {
    DistinctCardinality(s);
    SubsetCardinality(Elements(s), bound);
  }

  /** A subset as large as its superset is the superset. */
  lemma SubsetOfSameSize<T>(a: set<T>, b: set<T>)
    requires a <= b && |a| == |b|
    ensures a == b
  {
    if a != b {
      assert !(b <= a);
      var x :| x in b && x !in a;
      SubsetCardinality(a, b - {x});
    }
  }
}
