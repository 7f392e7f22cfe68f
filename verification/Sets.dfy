/** A fact about finite sets. */
module Sets {
  /** A non-empty set has a member. */
  lemma SomeMember<T>(s: set<T>) returns (x: T)
    requires s != {}
    ensures x in s
  {
    x :| x in s;
  }
}
