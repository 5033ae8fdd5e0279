/** The optional value used by every other module. */
module Options {

  datatype Option<+T> = None | Some(value: T)
}

/** Cardinalities of finite sets. */
module FiniteSets {

  lemma {:induction false} SubsetIsNoLarger(a: set<nat>, b: set<nat>)
    requires a <= b
    ensures |a| <= |b|
  {
    if x :| x in a {
      SubsetIsNoLarger(a - {x}, b - {x});
    }
  }
}
