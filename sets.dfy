/** Choosing an element of a non-empty finite set. */
module Sets {

  lemma Pick<T>(s: set<T>) returns (y: T)
    requires s != {}
    ensures y in s
  {
    var x :| x in s;
    y := x;
  }
}
