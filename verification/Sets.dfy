/** Small facts about finite sets. */
module Sets {
  /** Some member of a non-empty set. */
  ghost function Pick<T>(s: set<T>): (x: T)
    requires s != {}
    ensures x in s
  {
    var x :| x in s;
    x
  }

  lemma {:induction false} MaxExists(s: set<int>)
    requires s != {}
    ensures exists x :: x in s && forall y :: y in s ==> y <= x
    decreases |s|
  {
    var x := Pick(s);
    if s != {x} {
      var rest := s - {x};
      assert rest != {};
      MaxExists(rest);
      var m :| m in rest && forall y :: y in rest ==> y <= m;
      var best := if m < x then x else m;
      assert forall y :: y in s ==> y == x || y in rest;
      assert best in s && forall y :: y in s ==> y <= best;
    }
  }

  lemma {:induction false} MinExists(s: set<int>)
    requires s != {}
    ensures exists x :: x in s && forall y :: y in s ==> x <= y
    decreases |s|
  {
    var x := Pick(s);
    if s != {x} {
      var rest := s - {x};
      assert rest != {};
      MinExists(rest);
      var m :| m in rest && forall y :: y in rest ==> m <= y;
      var best := if x < m then x else m;
      assert forall y :: y in s ==> y == x || y in rest;
      assert best in s && forall y :: y in s ==> best <= y;
    }
  }

  function Least(s: set<int>): (m: int)
    requires s != {}
    ensures m in s && forall x :: x in s ==> m <= x
  {
    MinExists(s);
    var m :| m in s && forall x :: x in s ==> m <= x;
    m
  }

  lemma SubsetSize<T>(s: set<T>, t: set<T>)
    requires s <= t
    ensures |s| <= |t| && (s != t ==> |s| < |t|)
  {
    assert t == s + (t - s) && |t| == |s| + |t - s|;
    if s != t {
      assert t - s != {};
    }
  }
}
