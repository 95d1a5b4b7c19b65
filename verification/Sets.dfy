/** Sizes of finite sets. */
module Sets {
  lemma {:induction false} Within<T>(s: set<T>, t: set<T>)
    requires s <= t
    ensures |s| <= |t|
  {
    if s != {} {
      var x :| x in s;
      Within(s - {x}, t - {x});
    }
  }
}
