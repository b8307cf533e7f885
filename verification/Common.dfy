/** What several of the models share. */
module Common {

  datatype Option<+T> = None | Some(value: T)

  /** A set is no larger than one that holds it. */
  lemma {:induction false} Cardinality<T>(a: set<T>, b: set<T>)
    requires a <= b
    ensures |a| <= |b|
  {
    if a != {} {
      var x :| x in a;
      Cardinality(a - {x}, b - {x});
    }
  }
}
