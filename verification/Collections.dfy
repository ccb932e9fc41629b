/** Sequences without repetition, sets built condition by condition, and sizes of sets. */
module Collections {

  predicate Distinct<T(==)>(xs: seq<T>) {
    forall i, j | 0 <= i < j < |xs| :: xs[i] != xs[j]
  }

  /** `if condition: reasons.append(reason)`, for reasons that are finally made a set. */
  function When<R>(condition: bool, reason: R): set<R> {
    if condition then {reason} else {}
  }

  lemma {:induction false} SubsetSize<T>(a: set<T>, b: set<T>)
    requires a <= b
    ensures |a| <= |b|
  {
    if a != {} {
      var x :| x in a;
      SubsetSize(a - {x}, b - {x});
    }
  }
}
