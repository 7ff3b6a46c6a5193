/** The greatest element of a finite set of integers, which the prime selector
    takes as its natural-order maximum. */
module Greatest {

  /** `m` belongs to `s` and no element of `s` exceeds it. */
  predicate IsGreatest(m: int, s: set<int>) {
    m in s && forall x :: x in s ==> x <= m
  }

  /** Every non-empty finite set of integers has a greatest element. */
  lemma {:induction false} HasGreatest(s: set<int>)
    requires s != {}
    ensures exists m :: IsGreatest(m, s)
    decreases |s|
  {
    assert exists y :: y in s by {
      if forall y :: y !in s {
        assert false;
      }
    }
    var y :| y in s;
    var rest := s - {y};
    if rest == {} {
      assert s == {y};
      assert IsGreatest(y, s);
    } else {
      HasGreatest(rest);
      var m :| IsGreatest(m, rest);
      var top := if y <= m then m else y;
      forall x | x in s
        ensures x <= top
      {
        if x != y {
          assert x in rest;
        }
      }
      assert IsGreatest(top, s);
    }
  }

  /** The greatest element of a non-empty set. */
  function Max(s: set<int>): (m: int)
    requires s != {}
    ensures IsGreatest(m, s)
  {
    HasGreatest(s);
    var m :| IsGreatest(m, s);
    m
  }
}
