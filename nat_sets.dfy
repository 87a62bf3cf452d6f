/** The least element of a finite set of ids: the store's lookups by SKU, by
    term name and by attachment title may match several rows, and the model
    resolves such a lookup to the lowest matching id. */
module NatSets {

  /** The least element of a non-empty finite set of naturals. */
  ghost function Least(s: set<nat>): (m: nat)
    requires s != {}
    ensures m in s
    ensures forall x :: x in s ==> m <= x
    decreases |s|
  {
    var y :| y in s;
    if s - {y} == {} then
      assert forall x :: x in s ==> x == y || x in s - {y};
      y
    else
      assert forall x :: x in s ==> x == y || x in s - {y};
      var m := Least(s - {y});
      if y < m then y else m
  }

  /** Two least elements of the same set are the same. */
  lemma LeastUnique(s: set<nat>, m: nat)
    requires m in s && forall x :: x in s ==> m <= x
    ensures Least(s) == m
  {
  }

  /** The least id of a set, found by visiting its elements one by one. */
  method FindLeast(s: set<nat>) returns (m: nat)
    requires s != {}
    ensures m == Least(s)
  {
    var rest := s;
    m :| m in rest;
    rest := rest - {m};
    while rest != {}
      invariant rest <= s && m in s
      invariant forall x :: x in s && x !in rest ==> m <= x
      decreases |rest|
    {
      var y :| y in rest;
      if y < m {
        m := y;
      }
      rest := rest - {y};
    }
    LeastUnique(s, m);
  }
}
