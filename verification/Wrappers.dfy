/** Values that may be absent, and one fact about finite sets. */
module Wrappers {

  datatype Option<+T> = None | Some(value: T)

  lemma SubsetIsNoLarger<T>(a: set<T>, b: set<T>)
    requires a <= b
    ensures |a| <= |b|
  {
    assert b == a + (b - a);
  }
}
