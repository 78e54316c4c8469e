/** How many a set holds, beside another. */
module Sets {

  lemma {:induction false} FewerInAll<T>(a: set<T>, b: set<T>)
    requires a <= b
    ensures |a| <= |b|
  {
    if a != {} {
      var x :| x in a;
      FewerInAll(a - {x}, b - {x});
    }
  }
}
