/** Tautological schemas of ordinal constraints (src/generic/ord_constraints.ml) and the tag pairs
    of left unfolding (src/seplog/rules.ml). */
module Schemas {
  import opened Sets
  import opened OrdConstraints
  import opened Outcomes

  predicate Mentions(c: Constraint, t: int) {
    c.lo == t || c.hi == t
  }

  function About(cs: Constraints, t: int): Constraints {
    set c | c in cs && Mentions(c, t)
  }

  predicate UBound(cs': Constraints, t: int) {
    forall c :: c in cs' ==> c.hi == t && (c.LT? ==> c.lo != t)
  }

  predicate LBound(cs': Constraints, t: int) {
    forall c :: c in cs' ==> c.LTE? && c.lo == t
  }

  /** The tags that bound a removable set of constraints; `exist` tells existential tags. */
  function Removable(exist: int -> bool, cs: Constraints, used: set<int>): set<int> {
    set t | t in Tags(cs) && exist(t) && t !in used && (UBound(About(cs, t), t) || LBound(About(cs, t), t))
  }

  /** What remains after removing the schema of the least such tag. */
  function RemoveSchema(exist: int -> bool, cs: Constraints, used: set<int>): Option<Constraints> {
    var candidates := Removable(exist, cs, used);
    if candidates == {} then None
    else
      var t := Least(candidates);
      Some(cs - About(cs, t))
  }

  lemma RemovedSomething(cs: Constraints, t: int)
    requires t in Tags(cs)
    ensures cs - About(cs, t) < cs
  {
    var c :| c in cs && (c.lo == t || c.hi == t);
    assert c in About(cs, t);
  }

  /** The removal loop; every round deletes a constraint. */
  function RemoveSchemas(exist: int -> bool, cs: Constraints, used: set<int>): Constraints
    decreases cs
  {
    match RemoveSchema(exist, cs, used)
    case None => cs
    case Some(cs') =>
      RemovedSomething(cs, Least(Removable(exist, cs, used)));
      RemoveSchemas(exist, cs', used)
  }

  predicate VerifySchemas(exist: int -> bool, used: set<int>, cs: Constraints) {
    RemoveSchemas(exist, cs, used) == {}
  }

  // ---------- Schemas are tautological ----------

  ghost function Update(f: int -> nat, t: int, v: nat): int -> nat {
    x => if x == t then v else f(x)
  }

  lemma {:induction false} BoundExists(f: int -> nat, s: set<int>) returns (n: nat)
    ensures forall x :: x in s ==> f(x) < n
    decreases s
  {
    if s == {} {
      n := 0;
    } else {
      var x := Pick(s);
      var m := BoundExists(f, s - {x});
      n := if m <= f(x) then f(x) + 1 else m;
      forall y | y in s
        ensures f(y) < n
      {
        assert y == x || y in s - {x};
      }
    }
  }

  /** Agreement except on existential tags that are not used elsewhere. */
  ghost predicate AgreeOutside(exist: int -> bool, used: set<int>, f: int -> nat, f': int -> nat) {
    forall t :: !exist(t) || t in used ==> f'(t) == f(t)
  }

  /** Constraints that a schema's tag bounds hold once that tag has the right value. */
  lemma SolveSchema(cs: Constraints, t: int, f: int -> nat) returns (f': int -> nat)
    requires UBound(About(cs, t), t) || LBound(About(cs, t), t)
    requires Satisfies(f, cs - About(cs, t))
    ensures Satisfies(f', cs) && forall x :: x != t ==> f'(x) == f(x)
  {
    var n := 0;
    if UBound(About(cs, t), t) {
      n := BoundExists(f, Tags(cs));
    }
    f' := Update(f, t, n);
    forall c | c in cs
      ensures Holds(f', c)
    {
      assert c.lo in Tags(cs) && c.hi in Tags(cs);
      if c in About(cs, t) {
        assert f'(t) == n;
      } else {
        assert c in cs - About(cs, t) && Holds(f, c);
        assert f'(c.lo) == f(c.lo) && f'(c.hi) == f(c.hi);
      }
    }
  }

  lemma {:induction false} SchemasSolvable(exist: int -> bool, used: set<int>, cs: Constraints, f: int -> nat)
    returns (f': int -> nat)
    requires VerifySchemas(exist, used, cs)
    ensures Satisfies(f', cs) && AgreeOutside(exist, used, f, f')
    decreases cs
  {
    var candidates := Removable(exist, cs, used);
    if candidates == {} {
      f' := f;
    } else {
      var t := Least(candidates);
      RemovedSomething(cs, t);
      var f1 := SchemasSolvable(exist, used, cs - About(cs, t), f);
      f' := SolveSchema(cs, t, f1);
    }
  }

  ghost predicate Adjustable(exist: int -> bool, used: set<int>, cs: Constraints, f: int -> nat) {
    exists f' :: Satisfies(f', cs) && AgreeOutside(exist, used, f, f')
  }

  /** Verified schemas constrain nothing: every assignment can be changed at unused existential tags
      only so that it satisfies them. */
  lemma VerifiedSchemasAreTautological(exist: int -> bool, used: set<int>, cs: Constraints)
    requires VerifySchemas(exist, used, cs)
    ensures forall f :: Adjustable(exist, used, cs, f)
  {
    forall f
      ensures Adjustable(exist, used, cs, f)
    {
      var f' := SchemasSolvable(exist, used, cs, f);
    }
  }

  // ---------- Which constraints are accepted ----------

  /** Every constraint on `t` has `t` as its upper side, and none puts `t` strictly below itself. */
  ghost predicate OnlyAbove(cs: Constraints, t: int) {
    forall c :: c in cs && (c.lo == t || c.hi == t) ==> c.hi == t && (c.lo == t ==> c.LTE?)
  }

  /** Every constraint on `t` is weak and has `t` as its lower side. */
  ghost predicate OnlyBelow(cs: Constraints, t: int) {
    forall c :: c in cs && (c.lo == t || c.hi == t) ==> c.LTE? && c.lo == t
  }

  ghost function Without(cs: Constraints, t: int): Constraints {
    set c | c in cs && c.lo != t && c.hi != t
  }

  /** The tags, taken one after the other, are existential, unused, and only above or only below what is left; and
      nothing is left in the end. */
  ghost predicate Empties(exist: int -> bool, used: set<int>, cs: Constraints, ts: seq<int>)
    decreases |ts|
  {
    if ts == [] then cs == {}
    else
      && exist(ts[0]) && ts[0] !in used && (OnlyAbove(cs, ts[0]) || OnlyBelow(cs, ts[0]))
      && Empties(exist, used, Without(cs, ts[0]), ts[1..])
  }

  lemma SchemaRemoved(exist: int -> bool, used: set<int>, cs: Constraints, t: int)
    ensures t in Removable(exist, cs, used) <==>
            t in Tags(cs) && exist(t) && t !in used && (OnlyAbove(cs, t) || OnlyBelow(cs, t))
    ensures cs - About(cs, t) == Without(cs, t)
  {
    assert UBound(About(cs, t), t) <==> OnlyAbove(cs, t);
    assert LBound(About(cs, t), t) <==> OnlyBelow(cs, t);
  }

  /** What the loop removes, in its order. */
  lemma {:induction false} AcceptedEmpties(exist: int -> bool, used: set<int>, cs: Constraints) returns (ts: seq<int>)
    requires VerifySchemas(exist, used, cs)
    ensures Empties(exist, used, cs, ts)
    decreases cs
  {
    var candidates := Removable(exist, cs, used);
    if candidates == {} {
      ts := [];
    } else {
      var t := Least(candidates);
      RemovedSomething(cs, t);
      SchemaRemoved(exist, used, cs, t);
      var rest := AcceptedEmpties(exist, used, cs - About(cs, t));
      ts := [t] + rest;
      assert ts[1..] == rest;
    }
  }

  /** Fewer constraints are no harder to remove. */
  lemma {:induction false} EmptiesFewer(
    exist: int -> bool, used: set<int>, cs: Constraints, cs': Constraints, ts: seq<int>
  )
    requires Empties(exist, used, cs, ts) && cs' <= cs
    ensures Empties(exist, used, cs', ts)
    decreases |ts|
  {
    if ts != [] {
      EmptiesFewer(exist, used, Without(cs, ts[0]), Without(cs', ts[0]), ts[1..]);
    }
  }

  lemma {:induction false} StuckIsEmpty(exist: int -> bool, used: set<int>, cs: Constraints, ts: seq<int>)
    requires Empties(exist, used, cs, ts) && Removable(exist, cs, used) == {}
    ensures cs == {}
    decreases |ts|
  {
    if ts != [] {
      SchemaRemoved(exist, used, cs, ts[0]);
      assert ts[0] !in Removable(exist, cs, used);
      assert Without(cs, ts[0]) == cs;
      StuckIsEmpty(exist, used, cs, ts[1..]);
    }
  }

  lemma {:induction false} EmptiedIsAccepted(exist: int -> bool, used: set<int>, cs: Constraints, ts: seq<int>)
    requires Empties(exist, used, cs, ts)
    ensures VerifySchemas(exist, used, cs)
    decreases cs
  {
    var candidates := Removable(exist, cs, used);
    if candidates == {} {
      StuckIsEmpty(exist, used, cs, ts);
    } else {
      var t := Least(candidates);
      RemovedSomething(cs, t);
      EmptiesFewer(exist, used, cs, cs - About(cs, t), ts);
      EmptiedIsAccepted(exist, used, cs - About(cs, t), ts);
    }
  }

  ghost predicate EmptiesInSomeOrder(exist: int -> bool, used: set<int>, cs: Constraints) {
    exists ts: seq<int> :: Empties(exist, used, cs, ts)
  }

  /** The loop accepts exactly the constraints that can be removed in some order, although it tries one order only. */
  lemma VerifiesIff(exist: int -> bool, used: set<int>, cs: Constraints)
    ensures VerifySchemas(exist, used, cs) <==> EmptiesInSomeOrder(exist, used, cs)
  {
    if VerifySchemas(exist, used, cs) {
      var ts := AcceptedEmpties(exist, used, cs);
      assert Empties(exist, used, cs, ts);
      assert EmptiesInSomeOrder(exist, used, cs);
    } else if EmptiesInSomeOrder(exist, used, cs) {
      var ts: seq<int> :| Empties(exist, used, cs, ts);
      EmptiedIsAccepted(exist, used, cs, ts);
    }
  }

  // ---------- Left unfolding ----------

  type Pairs = set<(int, int)>

  function AllPairs(cs: Constraints): Pairs {
    set c | c in cs :: (c.lo, c.hi)
  }

  function ProgPairs(cs: Constraints): Pairs {
    set c | c in cs && c.LT? :: (c.lo, c.hi)
  }

  /** The induction hypothesis of a case: the tags of its body lie below the unfolded tag. */
  function Generate(freshTag: int, tag: int, ts: set<int>): Constraints {
    set t | t in (if ts == {} then {freshTag} else ts) :: LT(t, tag)
  }

  /** `collect` of the unfolding rule: pairs that lead from a tag of the sequent to one below it. */
  function Collect(tps: Pairs, seqTags: set<int>): Pairs {
    set p | p in tps && p.1 in seqTags :: (p.1, p.0)
  }

  function UnfoldedConstraints(cs: Constraints, freshTag: int, tag: int, caseTags: set<int>): Constraints {
    cs + Generate(freshTag, tag, caseTags)
  }

  function ValidPairs(newCs: Constraints, seqTags: set<int>, restTags: set<int>): Pairs {
    Collect(AllPairs(Close(newCs)), seqTags) + (set t | t in restTags :: (t, t))
  }

  function ProgressPairs(newCs: Constraints, seqTags: set<int>): Pairs {
    Collect(ProgPairs(Close(newCs)), seqTags)
  }

  /** The constraints of an unfolding add exactly the hypothesis of its case. */
  lemma UnfoldedModels(f: int -> nat, cs: Constraints, freshTag: int, tag: int, caseTags: set<int>)
    ensures Satisfies(f, UnfoldedConstraints(cs, freshTag, tag, caseTags)) <==>
            && Satisfies(f, cs)
            && (if caseTags == {} then f(freshTag) < f(tag) else forall t :: t in caseTags ==> f(t) < f(tag))
  {
    var newCs, ts := UnfoldedConstraints(cs, freshTag, tag, caseTags), if caseTags == {} then {freshTag} else caseTags;
    if Satisfies(f, newCs) {
      forall c | c in cs ensures Holds(f, c) { assert c in newCs; }
      forall t | t in ts
        ensures f(t) < f(tag)
      {
        assert LT(t, tag) in newCs && Holds(f, LT(t, tag));
      }
      assert caseTags == {} ==> freshTag in ts;
    }
  }

  lemma CollectedProg(newCs: Constraints, seqTags: set<int>, x: int, y: int)
    ensures (x, y) in ProgressPairs(newCs, seqTags) <==> x in seqTags && LT(y, x) in Close(newCs)
  {
    var tps := ProgPairs(Close(newCs));
    if (x, y) in ProgressPairs(newCs, seqTags) {
      var p :| p in tps && p.1 in seqTags && (p.1, p.0) == (x, y);
      var c :| c in Close(newCs) && c.LT? && (c.lo, c.hi) == p;
      assert c == LT(y, x);
    }
    if x in seqTags && LT(y, x) in Close(newCs) {
      var c := LT(y, x);
      assert (c.lo, c.hi) in tps;
      var p := (y, x);
      assert p in tps && p.1 in seqTags && (p.1, p.0) == (x, y);
    }
  }

  lemma CollectedValid(newCs: Constraints, seqTags: set<int>, restTags: set<int>, x: int, y: int)
    ensures (x, y) in ValidPairs(newCs, seqTags, restTags) <==>
              (x in seqTags && LTE(y, x) in Close(newCs)) || (x == y && x in restTags)
  {
    var cl := Close(newCs);
    CloseClosed(newCs);
    var tps := AllPairs(cl);
    if (x, y) in Collect(tps, seqTags) {
      var p :| p in tps && p.1 in seqTags && (p.1, p.0) == (x, y);
      var c :| c in cl && (c.lo, c.hi) == p;
      assert c == LT(y, x) || c == LTE(y, x);
    }
    if x in seqTags && LTE(y, x) in cl {
      var c := LTE(y, x);
      assert (c.lo, c.hi) in tps;
      var p := (y, x);
      assert p in tps && p.1 in seqTags && (p.1, p.0) == (x, y);
    }
  }

  /** Under every assignment of the unfolded constraints, the valid pairs of an unfolding do not
      increase and its progressing pairs strictly decrease. */
  lemma UnfoldingDescends(newCs: Constraints, seqTags: set<int>, restTags: set<int>, f: int -> nat, x: int, y: int)
    requires Satisfies(f, newCs)
    ensures (x, y) in ValidPairs(newCs, seqTags, restTags) ==> f(y) <= f(x)
    ensures (x, y) in ProgressPairs(newCs, seqTags) ==> f(y) < f(x)
  {
    CollectedValid(newCs, seqTags, restTags, x, y);
    CollectedProg(newCs, seqTags, x, y);
    CloseSound(f, newCs);
    assert LTE(y, x) in Close(newCs) ==> Holds(f, LTE(y, x));
    assert LT(y, x) in Close(newCs) ==> Holds(f, LT(y, x));
  }

  lemma ForcedBy(cs: Constraints, c: Constraint)
    ensures Entails(cs, c) <==>
            forall f :: Satisfies(f, cs) ==> if c.LT? then f(c.lo) < f(c.hi) else f(c.lo) <= f(c.hi)
  {
    if Entails(cs, c) {
      forall f | Satisfies(f, cs)
        ensures if c.LT? then f(c.lo) < f(c.hi) else f(c.lo) <= f(c.hi)
      {
        assert Holds(f, c);
      }
    } else {
      var f :| Satisfies(f, cs) && !Holds(f, c);
    }
  }

  /** And no pair is missed: a tag forced below a tag of the sequent gives a valid pair, and one forced strictly
      below it a progressing pair. */
  lemma UnfoldingComplete(newCs: Constraints, seqTags: set<int>, restTags: set<int>, x: int, y: int)
    requires !Inconsistent(newCs) && x in seqTags && x in Tags(newCs) && y in Tags(newCs)
    ensures (x, y) in ValidPairs(newCs, seqTags, restTags) <==> forall f :: Satisfies(f, newCs) ==> f(y) <= f(x)
    ensures (x, y) in ProgressPairs(newCs, seqTags) <==> forall f :: Satisfies(f, newCs) ==> f(y) < f(x)
  {
    CollectedValid(newCs, seqTags, restTags, x, y);
    CollectedProg(newCs, seqTags, x, y);
    CloseIsEntailment(newCs, LTE(y, x));
    CloseIsEntailment(newCs, LT(y, x));
    ForcedBy(newCs, LTE(y, x));
    ForcedBy(newCs, LT(y, x));
  }

  /** The unfolded tag progresses to every tag of the case. */
  lemma UnfoldedTagProgresses(cs: Constraints, freshTag: int, tag: int, caseTags: set<int>, seqTags: set<int>, t: int)
    requires tag in seqTags && t in caseTags
    ensures (tag, t) in ProgressPairs(UnfoldedConstraints(cs, freshTag, tag, caseTags), seqTags)
  {
    var newCs := UnfoldedConstraints(cs, freshTag, tag, caseTags);
    assert LT(t, tag) in newCs;
    CollectedProg(newCs, seqTags, tag, t);
  }
}
