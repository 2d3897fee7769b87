/** The result types shared by every module: a nullable value and a failing computation. */
module Wrappers {

  datatype Option<+T> = None | Some(value: T)

  datatype Result<+T, +E> = Ok(value: T) | Err(error: E)

  /** A non-empty set of ids has a member to pick. */
  lemma SomeId(s: set<int>)
    requires s != {}
    ensures exists k :: k in s
  {
    assert (forall k: int :: k !in s) ==> s == {};
  }
}
