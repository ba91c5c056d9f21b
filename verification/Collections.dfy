/** Small facts about the built-in collections, used by several components. */
module Collections {

  lemma Choose<T>(s: set<T>) returns (x: T)
    requires s != {}
    ensures x in s
  {
    x :| x in s;
  }
}
