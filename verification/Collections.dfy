/** Options, results and facts about finite sets. */
module Collections {

  datatype Option<+T> = None | Some(value: T)

  datatype Result<+T, +E> = Ok(value: T) | Err(error: E)

  lemma Nothing<T(!new)>(s: set<T>)
    requires forall x :: x !in s
    ensures s == {}
  {
    var none: set<T> := {};
    assert forall x :: x in s <==> x in none;
  }

  lemma Something<T(!new)>(s: set<T>)
    requires s != {}
    ensures exists x :: x in s
  {
    if forall x :: x !in s {
      Nothing(s);
    }
  }

  /** Some element of a set that has one. */
  ghost function Element<T(!new)>(s: set<T>): (x: T)
    requires s != {}
    ensures x in s
  {
    Something(s);
    var x :| x in s; x
  }

  lemma SubsetCard<T>(s: set<T>, u: set<T>)
    requires s <= u
    ensures |s| <= |u|
  {
    assert u == s + (u - s);
  }
}
