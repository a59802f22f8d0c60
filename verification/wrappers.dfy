/** The usual optional value. */
module Wrappers {
  datatype Option<+T> = None | Some(value: T)
}

module Sets {
  lemma {:induction false} SubsetSize(a: set<nat>, b: set<nat>)
    requires a <= b
    ensures |a| <= |b|
  {
    if x :| x in a {
      SubsetSize(a - {x}, b - {x});
    }
  }
}
