/** Taking some member of a set: the order in which a hash table is walked is not fixed. */
module Picking {

  lemma {:induction false} EmptyOrNot<T(!new)>(s: set<T>)
    ensures s == {} || exists x :: x in s
  {
    if forall x :: x !in s {
      assert s == {};
    }
  }

  method Pick<T(!new)>(s: set<T>) returns (x: T)
    requires s != {}
    ensures x in s
  {
    EmptyOrNot(s);
    x :| x in s;
  }
}
