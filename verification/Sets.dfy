/** Finite sets of integers. */
module Sets {

  lemma SameSet(a: set<int>, b: set<int>)
    requires forall j :: j in a <==> j in b
    ensures a == b
  {
    forall j | j in a ensures j in b {}
    forall j | j in b ensures j in a {}
    assert a <= b && b <= a;
  }

  lemma NotEmpty(s: set<int>)
    requires s != {}
    ensures exists x :: x in s
  {
    if forall x :: x !in s { SameSet(s, {}); }
  }
}
