/** The optional value used for lookups that may fail, and the one fact about sets of integers that
    picking an element of a non-empty set relies on. */
module Wrappers {

  datatype Option<+T> = None | Some(value: T)

  /** A non-empty set has an element. */
  lemma NonEmptyHasElement(s: set<int>)
    requires s != {}
    ensures exists x :: x in s
  {
    if forall x :: x !in s {
      assert false;
    }
  }

}
