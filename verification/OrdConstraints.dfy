/** Ordinal constraints between tags (src/generic/ord_constraints.ml), over the natural numbers. */
module OrdConstraints {
  import opened Sets
  import opened Outcomes

  datatype Constraint = LT(lo: int, hi: int) | LTE(lo: int, hi: int)

  type Constraints = set<Constraint>

  ghost predicate Holds(f: int -> nat, c: Constraint) {
    match c
    case LT(a, b) => f(a) < f(b)
    case LTE(a, b) => f(a) <= f(b)
  }

  ghost predicate Satisfies(f: int -> nat, cs: Constraints) {
    forall c :: c in cs ==> Holds(f, c)
  }

  function Tags(cs: Constraints): set<int> {
    (set c | c in cs :: c.lo) + (set c | c in cs :: c.hi)
  }

  // ---------- Closure ----------

  function InferConstraint(c: Constraint, c': Constraint): Option<Constraint> {
    if c.hi != c'.lo then None
    else if c.LTE? && c'.LTE? then Some(LTE(c.lo, c'.hi))
    else Some(LT(c.lo, c'.hi))
  }

  /** Reflexive constraints, and the weak form of every strict one. */
  function Seed(cs: Constraints): Constraints {
    var cs' := cs + (set t | t in Tags(cs) :: LTE(t, t));
    cs' + (set c | c in cs' && c.LT? :: LTE(c.lo, c.hi))
  }

  function Gen(cs: Constraints): Constraints {
    cs + (set c, c' | c in cs && c' in cs && InferConstraint(c, c').Some? :: InferConstraint(c, c').value)
  }

  function Universe(ts: set<int>): Constraints {
    (set a, b | a in ts && b in ts :: LT(a, b)) + (set a, b | a in ts && b in ts :: LTE(a, b))
  }

  lemma InUniverse(ts: set<int>, c: Constraint)
    ensures c in Universe(ts) <==> c.lo in ts && c.hi in ts
  {
    if c.lo in ts && c.hi in ts {
      assert c == LT(c.lo, c.hi) || c == LTE(c.lo, c.hi);
    }
  }

  lemma GenWithin(ts: set<int>, cs: Constraints)
    requires cs <= Universe(ts)
    ensures Gen(cs) <= Universe(ts)
  {
    forall c | c in Gen(cs)
      ensures c in Universe(ts)
    {
      InUniverse(ts, c);
      if c !in cs {
        var d, d' :| d in cs && d' in cs && InferConstraint(d, d') == Some(c);
        InUniverse(ts, d);
        InUniverse(ts, d');
      }
    }
  }

  /** `fixpoint gen`; it stops because only constraints over the same tags are added. */
  function Fixpoint(ts: set<int>, cs: Constraints): (r: Constraints)
    requires cs <= Universe(ts)
    ensures cs <= r <= Universe(ts) && Gen(r) == r
    decreases Universe(ts) - cs
  {
    var cs' := Gen(cs);
    if cs' == cs then cs
    else
      GenWithin(ts, cs);
      Fixpoint(ts, cs')
  }

  lemma SeedWithin(cs: Constraints)
    ensures Seed(cs) <= Universe(Tags(cs))
  {
    forall c | c in Seed(cs)
      ensures c in Universe(Tags(cs))
    {
      InUniverse(Tags(cs), c);
      if c in cs {
        assert c.lo in Tags(cs) && c.hi in Tags(cs);
      } else if c.lo != c.hi {
        assert LT(c.lo, c.hi) in cs;
      }
    }
  }

  function Close(cs: Constraints): (r: Constraints)
    ensures cs <= r <= Universe(Tags(cs)) && Gen(r) == r
  {
    SeedWithin(cs);
    Fixpoint(Tags(cs), Seed(cs))
  }

  predicate Satisfiable(c: Constraint) {
    c.LT? ==> c.lo != c.hi
  }

  predicate Inconsistent(cs: Constraints) {
    || !(forall c :: c in Close(cs) ==> Satisfiable(c))
    || exists c :: c in cs && c.LT? && LTE(c.hi, c.lo) in cs
  }

  // ---------- Inference is sound ----------

  lemma GenSound(f: int -> nat, cs: Constraints)
    requires Satisfies(f, cs)
    ensures Satisfies(f, Gen(cs))
  {
    forall c | c in Gen(cs)
      ensures Holds(f, c)
    {
      if c !in cs {
        var d, d' :| d in cs && d' in cs && InferConstraint(d, d') == Some(c);
        assert Holds(f, d) && Holds(f, d');
      }
    }
  }

  lemma {:induction false} FixpointSound(f: int -> nat, ts: set<int>, cs: Constraints)
    requires cs <= Universe(ts) && Satisfies(f, cs)
    ensures Satisfies(f, Fixpoint(ts, cs))
    decreases Universe(ts) - cs
  {
    GenSound(f, cs);
    GenWithin(ts, cs);
    if Gen(cs) != cs {
      FixpointSound(f, ts, Gen(cs));
    }
  }

  /** The closure has the same models. */
  lemma CloseSound(f: int -> nat, cs: Constraints)
    ensures Satisfies(f, cs) <==> Satisfies(f, Close(cs))
  {
    if Satisfies(f, cs) {
      forall c | c in Seed(cs)
        ensures Holds(f, c)
      {
        if c !in cs && c.lo != c.hi {
          assert LT(c.lo, c.hi) in cs;
          assert Holds(f, LT(c.lo, c.hi));
        }
      }
      SeedWithin(cs);
      FixpointSound(f, Tags(cs), Seed(cs));
    }
  }

  // ---------- The closure is complete ----------

  /** Every strict constraint comes with its weak form. */
  ghost predicate Weakened(cs: Constraints) {
    forall a, b :: LT(a, b) in cs ==> LTE(a, b) in cs
  }

  lemma GenWeakened(cs: Constraints)
    requires Weakened(cs)
    ensures Weakened(Gen(cs))
  {
    forall a, c | LT(a, c) in Gen(cs)
      ensures LTE(a, c) in Gen(cs)
    {
      if LT(a, c) !in cs {
        var d, d' :| d in cs && d' in cs && InferConstraint(d, d') == Some(LT(a, c));
        var e, e' := LTE(d.lo, d.hi), LTE(d'.lo, d'.hi);
        assert d == LT(d.lo, d.hi) || d == e;
        assert d' == LT(d'.lo, d'.hi) || d' == e';
        assert e in cs && e' in cs && InferConstraint(e, e') == Some(LTE(a, c));
      }
    }
  }

  lemma {:induction false} FixpointWeakened(ts: set<int>, cs: Constraints)
    requires cs <= Universe(ts) && Weakened(cs)
    ensures Weakened(Fixpoint(ts, cs))
    decreases Universe(ts) - cs
  {
    GenWeakened(cs);
    GenWithin(ts, cs);
    if Gen(cs) != cs {
      FixpointWeakened(ts, Gen(cs));
    }
  }

  /** What a closed set of constraints over `ts` provides. */
  ghost predicate Closed(ts: set<int>, cl: Constraints) {
    && cl <= Universe(ts) && Weakened(cl)
    && (forall t :: t in ts ==> LTE(t, t) in cl)
    && (forall a, b, c :: LTE(a, b) in cl && LTE(b, c) in cl ==> LTE(a, c) in cl)
    && (forall a, b, c :: LT(a, b) in cl && LTE(b, c) in cl ==> LT(a, c) in cl)
    && (forall a, b, c :: LTE(a, b) in cl && LT(b, c) in cl ==> LT(a, c) in cl)
  }

  lemma GenClosed(cl: Constraints, c: Constraint, c': Constraint)
    requires Gen(cl) == cl && c in cl && c' in cl && c.hi == c'.lo
    ensures InferConstraint(c, c').value in cl
  {
    assert InferConstraint(c, c').Some?;
  }

  lemma FixpointTransitive(cl: Constraints)
    requires Gen(cl) == cl
    ensures forall a, b, c :: LTE(a, b) in cl && LTE(b, c) in cl ==> LTE(a, c) in cl
    ensures forall a, b, c :: LT(a, b) in cl && LTE(b, c) in cl ==> LT(a, c) in cl
    ensures forall a, b, c :: LTE(a, b) in cl && LT(b, c) in cl ==> LT(a, c) in cl
  {
    forall a, b, c | LTE(a, b) in cl && LTE(b, c) in cl
      ensures LTE(a, c) in cl
    {
      GenClosed(cl, LTE(a, b), LTE(b, c));
    }
    forall a, b, c | LT(a, b) in cl && LTE(b, c) in cl
      ensures LT(a, c) in cl
    {
      GenClosed(cl, LT(a, b), LTE(b, c));
    }
    forall a, b, c | LTE(a, b) in cl && LT(b, c) in cl
      ensures LT(a, c) in cl
    {
      GenClosed(cl, LTE(a, b), LT(b, c));
    }
  }

  lemma CloseClosed(cs: Constraints)
    ensures Closed(Tags(cs), Close(cs))
  {
    SeedWithin(cs);
    var seed := Seed(cs);
    forall t | t in Tags(cs)
      ensures LTE(t, t) in Close(cs)
    {
      assert LTE(t, t) in seed;
    }
    assert Weakened(seed);
    FixpointWeakened(Tags(cs), seed);
    FixpointTransitive(Close(cs));
  }

  ghost predicate Acyclic(cl: Constraints) {
    forall t :: LT(t, t) !in cl
  }

  /** The tags forced strictly below `t`, among those forced to be at least `a` if one is given. */
  ghost function Below(ts: set<int>, cl: Constraints, a: Option<int>, t: int): set<int> {
    set s | s in ts && LT(s, t) in cl && (a.Some? ==> LTE(a.value, s) in cl)
  }

  /** A model in which `a` is as large as the constraints allow, and what lies above it as small. */
  ghost function Rank(ts: set<int>, cl: Constraints, a: int, t: int): nat {
    if LTE(a, t) in cl then |ts| + 1 + |Below(ts, cl, Some(a), t)| else |Below(ts, cl, None, t)|
  }

  lemma BelowGrows(ts: set<int>, cl: Constraints, a: Option<int>, t: int, t': int)
    requires Closed(ts, cl) && LTE(t, t') in cl
    ensures |Below(ts, cl, a, t)| <= |Below(ts, cl, a, t')| <= |ts|
    ensures LT(t, t') in cl && LT(t, t) !in cl && (a.Some? ==> LTE(a.value, t) in cl) ==>
              |Below(ts, cl, a, t)| < |Below(ts, cl, a, t')|
  {
    SubsetSize(Below(ts, cl, a, t), Below(ts, cl, a, t'));
    SubsetSize(Below(ts, cl, a, t'), ts);
    if LT(t, t') in cl && LT(t, t) !in cl && (a.Some? ==> LTE(a.value, t) in cl) {
      InUniverse(ts, LT(t, t'));
      assert t in Below(ts, cl, a, t') && t !in Below(ts, cl, a, t);
    }
  }

  lemma RankSatisfies(ts: set<int>, cl: Constraints, a: int, c: Constraint)
    requires Closed(ts, cl) && Acyclic(cl) && c in cl
    ensures Holds(t => Rank(ts, cl, a, t), c)
  {
    assert c == LT(c.lo, c.hi) || c == LTE(c.lo, c.hi);
    assert LTE(c.lo, c.hi) in cl;
    BelowGrows(ts, cl, Some(a), c.lo, c.hi);
    BelowGrows(ts, cl, None, c.lo, c.hi);
  }

  /** In that model `a` is below exactly the tags it has to be below. */
  lemma RankSeparates(ts: set<int>, cl: Constraints, a: int, b: int)
    requires Closed(ts, cl) && Acyclic(cl) && a in ts && b in ts
    ensures LTE(a, b) !in cl ==> Rank(ts, cl, a, b) < Rank(ts, cl, a, a)
    ensures LT(a, b) !in cl ==> Rank(ts, cl, a, b) <= Rank(ts, cl, a, a)
  {
    assert Below(ts, cl, Some(a), a) == {};
    assert LT(a, b) !in cl ==> Below(ts, cl, Some(a), b) == {};
    SubsetSize(Below(ts, cl, None, b), ts);
  }

  lemma RankModel(ts: set<int>, cl: Constraints, a: int) returns (f: int -> nat)
    requires Closed(ts, cl) && Acyclic(cl)
    ensures Satisfies(f, cl) && forall t :: f(t) == Rank(ts, cl, a, t)
  {
    f := t => Rank(ts, cl, a, t);
    forall c | c in cl
      ensures Holds(f, c)
    {
      RankSatisfies(ts, cl, a, c);
      assert f(c.lo) == Rank(ts, cl, a, c.lo) && f(c.hi) == Rank(ts, cl, a, c.hi);
    }
  }

  /** The consistency check is exact. */
  lemma InconsistentIffUnsatisfiable(cs: Constraints)
    ensures Inconsistent(cs) <==> !exists f :: Satisfies(f, cs)
  {
    var cl := Close(cs);
    CloseClosed(cs);
    if Inconsistent(cs) {
      forall f
        ensures !Satisfies(f, cs)
      {
        CloseSound(f, cs);
        if c :| c in cl && !Satisfiable(c) {
          assert !Holds(f, c);
        } else {
          var c :| c in cs && c.LT? && LTE(c.hi, c.lo) in cs;
          assert !(Holds(f, c) && Holds(f, LTE(c.hi, c.lo)));
        }
      }
    } else {
      assert forall t :: LT(t, t) in cl ==> !Satisfiable(LT(t, t));
      var f := RankModel(Tags(cs), cl, 0);
      CloseSound(f, cs);
    }
  }

  ghost predicate Entails(cs: Constraints, c: Constraint) {
    forall f :: Satisfies(f, cs) ==> Holds(f, c)
  }

  /** The closure of a consistent set is the set of all its consequences over its tags. */
  lemma CloseIsEntailment(cs: Constraints, c: Constraint)
    requires !Inconsistent(cs)
    ensures c in Close(cs) <==> c.lo in Tags(cs) && c.hi in Tags(cs) && Entails(cs, c)
  {
    var ts, cl := Tags(cs), Close(cs);
    CloseClosed(cs);
    if c in cl {
      InUniverse(ts, c);
      forall f | Satisfies(f, cs)
        ensures Holds(f, c)
      {
        CloseSound(f, cs);
      }
    } else if c.lo in ts && c.hi in ts {
      assert forall t :: LT(t, t) in cl ==> !Satisfiable(LT(t, t));
      var f := RankModel(ts, cl, c.lo);
      RankSeparates(ts, cl, c.lo, c.hi);
      CloseSound(f, cs);
      assert c == LT(c.lo, c.hi) || c == LTE(c.lo, c.hi);
      assert !Holds(f, c);
    }
  }
}
