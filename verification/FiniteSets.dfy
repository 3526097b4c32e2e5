// Cardinality facts about finite sets that several parts of the model share.
module FiniteSets {

  lemma {:induction false} SubsetSize<T>(a: set<T>, b: set<T>)
    requires a <= b
    ensures |a| <= |b|
  {
    if a != {} {
      var x :| x in a;
      SubsetSize(a - {x}, b - {x});
    }
  }

  predicate Within(i: nat, lo: nat, hi: nat) {
    lo <= i < hi
  }

  /** The integers in [lo, hi). */
  function Interval(lo: nat, hi: nat): set<nat> {
    set i: nat | lo <= i < hi && Within(i, lo, hi)
  }

  lemma {:induction false} IntervalSize(lo: nat, hi: nat)
    requires lo <= hi
    ensures |Interval(lo, hi)| == hi - lo
    decreases hi
  {
    if lo < hi {
      IntervalSize(lo, hi - 1);
      assert Interval(lo, hi) == Interval(lo, hi - 1) + {hi - 1};
    } else {
      assert Interval(lo, hi) == {};
    }
  }

  /** Moving every element down by k is injective, so it cannot lose elements. */
  lemma {:induction false} ShiftedSize(s: set<nat>, k: nat, t: set<nat>)
    requires forall d | d in s :: d >= k && d - k in t
    ensures |s| <= |t|
  {
    if s != {} {
      var x :| x in s;
      ShiftedSize(s - {x}, k, t - {x - k});
    }
  }
}
