/** Facts about finite sets used when picking rows out of a table. */
module Sets {
  /** A set that is not empty has an element to pick. */
  lemma Pick<T>(s: set<T>) returns (y: T)
    requires s != {}
    ensures y in s
  {
    if forall x :: x !in s { assert false; }
    y :| y in s;
  }
}
