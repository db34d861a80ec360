/** The semi-naive fixpoint of the model checker (src/seplog/mc_core.ml `rule_gen`, `mk_generator`;
    src/lib/blist.ml `weave`). Interpretants and models are opaque; hash tables of interpretants
    keyed by predicate are sets of facts. */
module SemiNaive {
  import opened Sets
  import opened Outcomes

  /** The arguments of a predicate, and the locations of the part of the heap that it describes. */
  datatype Itpt = Itpt(values: seq<int>, heap: set<int>)

  /** A stack and a set of heap locations. */
  datatype Model = Model(stack: map<int, int>, heap: set<int>)

  datatype Fact = Fact(pred: int, itpt: Itpt)

  /** An inductive predicate in a rule body, and the model that an interpretant of it gives. */
  datatype Ind = Ind(pred: int, model: Itpt -> Option<Model>)

  /** A rule: the models of its points-to part, how models combine, and the interpretants of the
      head that a model of the whole body yields after saturation. */
  datatype Rule = Rule(
    head: int,
    consistent: bool,
    ptos: set<Model>,
    inds: seq<Ind>,
    cross: (Model, Model) -> Option<Model>,
    finish: Model -> set<Itpt>)

  type Facts = set<Fact>

  // ---------- What the rules derive ----------

  /** The interpretants `c`, one for each of the `inds`, extend the model `m` to one that yields `i`. */
  ghost predicate YieldsFrom(r: Rule, inds: seq<Ind>, m: Model, c: seq<Itpt>, i: Itpt)
    requires |c| == |inds|
  {
    if inds == [] then i in r.finish(m)
    else
      var g := inds[0].model(c[0]);
      g.Some? && var x := r.cross(m, g.value); x.Some? && YieldsFrom(r, inds[1..], x.value, c[1..], i)
  }

  ghost predicate Yields(r: Rule, inds: seq<Ind>, ms: set<Model>, c: seq<Itpt>, i: Itpt)
    requires |c| == |inds|
  {
    exists m :: m in ms && YieldsFrom(r, inds, m, c, i)
  }

  ghost predicate DrawnFrom(inds: seq<Ind>, c: seq<Itpt>, facts: Facts) {
    |c| == |inds| && forall k :: 0 <= k < |c| ==> Fact(inds[k].pred, c[k]) in facts
  }

  ghost predicate UsesSome(inds: seq<Ind>, c: seq<Itpt>, facts: Facts) {
    |c| == |inds| && exists k :: 0 <= k < |c| && Fact(inds[k].pred, c[k]) in facts
  }

  /** The naive reading of a rule: all combinations of known facts. */
  ghost predicate Derives(r: Rule, facts: Facts, i: Itpt) {
    r.consistent && exists c :: DrawnFrom(r.inds, c, facts) && Yields(r, r.inds, r.ptos, c, i)
  }

  // ---------- The weave ----------

  function Models(ind: Ind, facts: Facts): set<Model> {
    set f | f in facts && f.pred == ind.pred && ind.model(f.itpt).Some? :: ind.model(f.itpt).value
  }

  function CrossModels(r: Rule, ms: set<Model>, ms': set<Model>): set<Model> {
    set m, m' | m in ms && m' in ms' && r.cross(m, m').Some? :: r.cross(m, m').value
  }

  function Finish(r: Rule, ms: set<Model>): set<Itpt> {
    set m, i | m in ms && i in r.finish(m) :: i
  }

  /** `weave split tie join`: ancestors keep the flag, parents raise it, and the last predicate takes
      ancestors only if it is raised. */
  function Weave(r: Rule, ancestors: Facts, parents: Facts, inds: seq<Ind>, ms: set<Model>, flag: bool): set<Itpt> {
    if inds == [] then {}
    else
      var fromAncestors := CrossModels(r, ms, Models(inds[0], ancestors));
      var fromParents := CrossModels(r, ms, Models(inds[0], parents));
      if |inds| == 1 then
        Finish(r, fromParents) + (if flag then Finish(r, fromAncestors) else {})
      else
        Weave(r, ancestors, parents, inds[1..], fromAncestors, flag) + Weave(r, ancestors, parents, inds[1..], fromParents, true)
  }

  /** What the woven enumeration promises. */
  ghost predicate Woven(r: Rule, ancestors: Facts, parents: Facts, inds: seq<Ind>, ms: set<Model>, flag: bool, i: Itpt) {
    exists c ::
      && DrawnFrom(inds, c, ancestors + parents)
      && (flag || UsesSome(inds, c, parents))
      && Yields(r, inds, ms, c, i)
  }

  lemma InCross(r: Rule, ind: Ind, ms: set<Model>, facts: Facts, x: Model)
    ensures x in CrossModels(r, ms, Models(ind, facts)) <==>
              exists m, f :: m in ms && f in facts && f.pred == ind.pred && ind.model(f.itpt).Some? &&
                r.cross(m, ind.model(f.itpt).value) == Some(x)
  {
    if x in CrossModels(r, ms, Models(ind, facts)) {
      var m, m' :| m in ms && m' in Models(ind, facts) && r.cross(m, m') == Some(x);
      var f :| f in facts && f.pred == ind.pred && ind.model(f.itpt).Some? && ind.model(f.itpt).value == m';
      assert m in ms && f in facts && r.cross(m, ind.model(f.itpt).value) == Some(x);
    }
    forall m, f | m in ms && f in facts && f.pred == ind.pred && ind.model(f.itpt).Some? && r.cross(m, ind.model(f.itpt).value) == Some(x)
      ensures x in CrossModels(r, ms, Models(ind, facts))
    {
      var m' := ind.model(f.itpt).value;
      assert m' in Models(ind, facts);
      assert m in ms && m' in Models(ind, facts) && r.cross(m, m').Some?;
    }
  }

  lemma YieldsNothingMore(r: Rule, ms: set<Model>, i: Itpt)
    ensures Yields(r, [], ms, [], i) <==> i in Finish(r, ms)
  {
    if Yields(r, [], ms, [], i) {
      var m :| m in ms && YieldsFrom(r, [], m, [], i);
      assert m in ms && i in r.finish(m);
    }
    if i in Finish(r, ms) {
      var m :| m in ms && i in r.finish(m);
      assert m in ms && YieldsFrom(r, [], m, [], i);
    }
  }

  /** Crossing with the models of one predicate is choosing an interpretant for it. */
  lemma CrossUp(r: Rule, inds: seq<Ind>, ms: set<Model>, facts: Facts, c: seq<Itpt>, i: Itpt) returns (c0: Itpt)
    requires inds != [] && |c| == |inds| - 1
    requires Yields(r, inds[1..], CrossModels(r, ms, Models(inds[0], facts)), c, i)
    ensures Fact(inds[0].pred, c0) in facts && Yields(r, inds, ms, [c0] + c, i)
  {
    var x :| x in CrossModels(r, ms, Models(inds[0], facts)) && YieldsFrom(r, inds[1..], x, c, i);
    InCross(r, inds[0], ms, facts, x);
    var m, f :| m in ms && f in facts && f.pred == inds[0].pred && inds[0].model(f.itpt).Some? &&
      r.cross(m, inds[0].model(f.itpt).value) == Some(x);
    c0 := f.itpt;
    assert f == Fact(inds[0].pred, c0);
    assert ([c0] + c)[1..] == c;
    assert YieldsFrom(r, inds, m, [c0] + c, i);
  }

  lemma CrossDown(r: Rule, inds: seq<Ind>, ms: set<Model>, facts: Facts, c: seq<Itpt>, i: Itpt)
    requires inds != [] && |c| == |inds|
    requires Fact(inds[0].pred, c[0]) in facts && Yields(r, inds, ms, c, i)
    ensures Yields(r, inds[1..], CrossModels(r, ms, Models(inds[0], facts)), c[1..], i)
  {
    var m :| m in ms && YieldsFrom(r, inds, m, c, i);
    var x := r.cross(m, inds[0].model(c[0]).value).value;
    InCross(r, inds[0], ms, facts, x);
    var f := Fact(inds[0].pred, c[0]);
    assert m in ms && f in facts && f.pred == inds[0].pred && r.cross(m, inds[0].model(f.itpt).value) == Some(x);
    assert x in CrossModels(r, ms, Models(inds[0], facts)) && YieldsFrom(r, inds[1..], x, c[1..], i);
  }

  /** Adding the choice for the first predicate to a combination for the others. */
  lemma ConsWoven(r: Rule, ancestors: Facts, parents: Facts, inds: seq<Ind>, ms: set<Model>, flag: bool,
                  chosen: Facts, c: seq<Itpt>, i: Itpt)
    requires inds != [] && (chosen == ancestors || chosen == parents)
    requires DrawnFrom(inds[1..], c, ancestors + parents)
    requires flag || chosen == parents || UsesSome(inds[1..], c, parents)
    requires Yields(r, inds[1..], CrossModels(r, ms, Models(inds[0], chosen)), c, i)
    ensures Woven(r, ancestors, parents, inds, ms, flag, i)
  {
    var c0 := CrossUp(r, inds, ms, chosen, c, i);
    var c' := [c0] + c;
    forall k | 0 <= k < |c'|
      ensures Fact(inds[k].pred, c'[k]) in ancestors + parents
    {
      if k > 0 {
        assert inds[k] == inds[1..][k - 1] && c'[k] == c[k - 1];
      }
    }
    if !flag {
      if chosen == parents {
        assert Fact(inds[0].pred, c'[0]) in parents;
      } else {
        var k :| 0 <= k < |c| && Fact(inds[1..][k].pred, c[k]) in parents;
        assert Fact(inds[k + 1].pred, c'[k + 1]) in parents;
      }
    }
    assert DrawnFrom(inds, c', ancestors + parents) && (flag || UsesSome(inds, c', parents)) && Yields(r, inds, ms, c', i);
  }

  lemma {:induction false} WeaveSound(
    r: Rule, ancestors: Facts, parents: Facts, inds: seq<Ind>, ms: set<Model>, flag: bool, i: Itpt
  )
    requires i in Weave(r, ancestors, parents, inds, ms, flag)
    ensures Woven(r, ancestors, parents, inds, ms, flag, i)
    decreases |inds|
  {
    var fromAncestors := CrossModels(r, ms, Models(inds[0], ancestors));
    var fromParents := CrossModels(r, ms, Models(inds[0], parents));
    if |inds| == 1 {
      assert inds[1..] == [];
      if i in Finish(r, fromParents) {
        YieldsNothingMore(r, fromParents, i);
        ConsWoven(r, ancestors, parents, inds, ms, flag, parents, [], i);
      } else {
        YieldsNothingMore(r, fromAncestors, i);
        ConsWoven(r, ancestors, parents, inds, ms, flag, ancestors, [], i);
      }
    } else if i in Weave(r, ancestors, parents, inds[1..], fromParents, true) {
      WeaveSound(r, ancestors, parents, inds[1..], fromParents, true, i);
      var c :| DrawnFrom(inds[1..], c, ancestors + parents) && Yields(r, inds[1..], fromParents, c, i);
      ConsWoven(r, ancestors, parents, inds, ms, flag, parents, c, i);
    } else {
      WeaveSound(r, ancestors, parents, inds[1..], fromAncestors, flag, i);
      var c :| DrawnFrom(inds[1..], c, ancestors + parents) && (flag || UsesSome(inds[1..], c, parents)) &&
        Yields(r, inds[1..], fromAncestors, c, i);
      ConsWoven(r, ancestors, parents, inds, ms, flag, ancestors, c, i);
    }
  }

  lemma {:induction false} WeaveComplete(r: Rule, ancestors: Facts, parents: Facts, inds: seq<Ind>, ms: set<Model>, flag: bool,
                                         c: seq<Itpt>, i: Itpt)
    requires inds != [] && DrawnFrom(inds, c, ancestors + parents)
    requires flag || UsesSome(inds, c, parents)
    requires Yields(r, inds, ms, c, i)
    ensures i in Weave(r, ancestors, parents, inds, ms, flag)
    decreases |inds|
  {
    var f := Fact(inds[0].pred, c[0]);
    var chosen := if f in parents then parents else ancestors;
    var flag' := flag || f in parents;
    CrossDown(r, inds, ms, chosen, c, i);
    var ms' := CrossModels(r, ms, Models(inds[0], chosen));
    if |inds| == 1 {
      assert inds[1..] == [] && c[1..] == [];
      YieldsNothingMore(r, ms', i);
    } else {
      forall k | 0 <= k < |c| - 1
        ensures Fact(inds[1..][k].pred, c[1..][k]) in ancestors + parents
      {
        assert Fact(inds[k + 1].pred, c[k + 1]) in ancestors + parents;
      }
      if !flag' {
        var k :| 0 <= k < |c| && Fact(inds[k].pred, c[k]) in parents;
        assert Fact(inds[1..][k - 1].pred, c[1..][k - 1]) in parents;
      }
      WeaveComplete(r, ancestors, parents, inds[1..], ms', flag', c[1..], i);
    }
  }

  /** The weave enumerates exactly the combinations that use at least one newest fact. */
  lemma WeaveIsExact(r: Rule, ancestors: Facts, parents: Facts, i: Itpt)
    requires r.inds != []
    ensures i in Weave(r, ancestors, parents, r.inds, r.ptos, false) <==>
              exists c :: DrawnFrom(r.inds, c, ancestors + parents) && UsesSome(r.inds, c, parents) &&
                Yields(r, r.inds, r.ptos, c, i)
  {
    if i in Weave(r, ancestors, parents, r.inds, r.ptos, false) {
      WeaveSound(r, ancestors, parents, r.inds, r.ptos, false, i);
    }
    forall c | DrawnFrom(r.inds, c, ancestors + parents) && UsesSome(r.inds, c, parents) && Yields(r, r.inds, r.ptos, c, i)
      ensures i in Weave(r, ancestors, parents, r.inds, r.ptos, false)
    {
      WeaveComplete(r, ancestors, parents, r.inds, r.ptos, false, c, i);
    }
  }

  // ---------- The least fixpoint ----------

  ghost predicate ClosedUnder(rules: seq<Rule>, facts: Facts) {
    forall k, i :: 0 <= k < |rules| && Derives(rules[k], facts, i) ==> Fact(rules[k].head, i) in facts
  }

  /** The least set of facts that contains everything the rules derive from it. */
  ghost predicate IsLeastFixpoint(rules: seq<Rule>, facts: Facts) {
    ClosedUnder(rules, facts) && forall other :: ClosedUnder(rules, other) ==> facts <= other
  }

  lemma DerivesMonotone(r: Rule, facts: Facts, facts': Facts, i: Itpt)
    requires facts <= facts' && Derives(r, facts, i)
    ensures Derives(r, facts', i)
  {
    var c :| DrawnFrom(r.inds, c, facts) && Yields(r, r.inds, r.ptos, c, i);
    assert DrawnFrom(r.inds, c, facts');
  }

  predicate Known(pred: int, facts: Facts) {
    exists f :: f in facts && f.pred == pred
  }

  /** What `rule_gen` adds for one rule; rules without predicates are skipped once their head has facts. */
  function RoundOf(r: Rule, ancestors: Facts, parents: Facts): set<Itpt> {
    if !r.consistent || (r.inds == [] && (Known(r.head, ancestors) || Known(r.head, parents))) then {}
    else if r.inds == [] then Finish(r, r.ptos)
    else Weave(r, ancestors, parents, r.inds, r.ptos, false)
  }

  function AsFacts(pred: int, itpts: set<Itpt>): Facts {
    set i | i in itpts :: Fact(pred, i)
  }

  lemma InAsFacts(pred: int, itpts: set<Itpt>, f: Fact)
    ensures f in AsFacts(pred, itpts) <==> f.pred == pred && f.itpt in itpts
  {
    if f.pred == pred && f.itpt in itpts {
      assert f == Fact(pred, f.itpt);
    }
  }

  lemma BaseDerives(r: Rule, facts: Facts, i: Itpt)
    requires r.inds == []
    ensures Derives(r, facts, i) <==> r.consistent && i in Finish(r, r.ptos)
  {
    YieldsNothingMore(r, r.ptos, i);
    if r.consistent && i in Finish(r, r.ptos) {
      assert DrawnFrom(r.inds, [], facts) && Yields(r, r.inds, r.ptos, [], i);
    }
    forall c | DrawnFrom(r.inds, c, facts) && Yields(r, r.inds, r.ptos, c, i)
      ensures i in Finish(r, r.ptos)
    {
      assert c == [];
    }
  }

  /** A round derives only what the naive operator derives from all the facts known before it. */
  lemma RoundSound(r: Rule, ancestors: Facts, parents: Facts, i: Itpt)
    requires i in RoundOf(r, ancestors, parents)
    ensures Derives(r, ancestors + parents, i)
  {
    if r.inds == [] {
      BaseDerives(r, ancestors + parents, i);
    } else {
      WeaveIsExact(r, ancestors, parents, i);
    }
  }

  /** What it leaves out was derivable before the newest facts, or belongs to a rule already used. */
  lemma RoundComplete(r: Rule, ancestors: Facts, parents: Facts, i: Itpt)
    requires Derives(r, ancestors + parents, i)
    ensures i in RoundOf(r, ancestors, parents) || Derives(r, ancestors, i)
    ensures r.inds == [] && !Known(r.head, ancestors) && !Known(r.head, parents) ==> i in RoundOf(r, ancestors, parents)
  {
    if r.inds == [] {
      BaseDerives(r, ancestors + parents, i);
      BaseDerives(r, ancestors, i);
    } else {
      var c :| DrawnFrom(r.inds, c, ancestors + parents) && Yields(r, r.inds, r.ptos, c, i);
      WeaveIsExact(r, ancestors, parents, i);
      if !UsesSome(r.inds, c, parents) {
        assert DrawnFrom(r.inds, c, ancestors);
      }
    }
  }

  /** Everything the rules derive from the ancestors is known. Base rules count once a round has passed. */
  ghost predicate CaughtUp(rules: seq<Rule>, ancestors: Facts, parents: Facts, started: bool) {
    forall k, i :: 0 <= k < |rules| && (started || rules[k].inds != []) && Derives(rules[k], ancestors, i) ==>
      Fact(rules[k].head, i) in ancestors + parents
  }

  ghost predicate WithinEveryFixpoint(rules: seq<Rule>, facts: Facts) {
    forall other :: ClosedUnder(rules, other) ==> facts <= other
  }

  /** The facts that one round generates, rule by rule. */
  ghost function RoundFacts(rules: seq<Rule>, ancestors: Facts, parents: Facts): Facts {
    if rules == [] then {}
    else
      var n := |rules| - 1;
      RoundFacts(rules[..n], ancestors, parents) + AsFacts(rules[n].head, RoundOf(rules[n], ancestors, parents))
  }

  lemma {:induction false} InRoundFacts(rules: seq<Rule>, ancestors: Facts, parents: Facts, f: Fact)
    ensures f in RoundFacts(rules, ancestors, parents) <==>
              exists k :: 0 <= k < |rules| && rules[k].head == f.pred && f.itpt in RoundOf(rules[k], ancestors, parents)
  {
    if rules != [] {
      var n := |rules| - 1;
      InRoundFacts(rules[..n], ancestors, parents, f);
      InAsFacts(rules[n].head, RoundOf(rules[n], ancestors, parents), f);
      forall k | 0 <= k < |rules| && rules[k].head == f.pred && f.itpt in RoundOf(rules[k], ancestors, parents)
        ensures f in RoundFacts(rules, ancestors, parents)
      {
        if k < n {
          assert rules[..n][k] == rules[k];
        }
      }
    }
  }

  lemma RoundStaysWithin(rules: seq<Rule>, ancestors: Facts, parents: Facts)
    requires WithinEveryFixpoint(rules, ancestors + parents)
    ensures WithinEveryFixpoint(rules, ancestors + parents + RoundFacts(rules, ancestors, parents))
  {
    forall other, f | ClosedUnder(rules, other) && f in RoundFacts(rules, ancestors, parents)
      ensures f in other
    {
      InRoundFacts(rules, ancestors, parents, f);
      var k :| 0 <= k < |rules| && rules[k].head == f.pred && f.itpt in RoundOf(rules[k], ancestors, parents);
      RoundSound(rules[k], ancestors, parents, f.itpt);
      DerivesMonotone(rules[k], ancestors + parents, other, f.itpt);
      assert f == Fact(rules[k].head, f.itpt);
    }
  }

  lemma RoundCatchesUp(rules: seq<Rule>, ancestors: Facts, parents: Facts, started: bool)
    requires CaughtUp(rules, ancestors, parents, started)
    requires !started ==> ancestors == {} && parents == {}
    ensures CaughtUp(rules, ancestors + parents, RoundFacts(rules, ancestors, parents), true)
  {
    var added := RoundFacts(rules, ancestors, parents);
    forall k, i | 0 <= k < |rules| && Derives(rules[k], ancestors + parents, i)
      ensures Fact(rules[k].head, i) in ancestors + parents + added
    {
      RoundComplete(rules[k], ancestors, parents, i);
      InRoundFacts(rules, ancestors, parents, Fact(rules[k].head, i));
    }
  }

  lemma RoundBounded(rules: seq<Rule>, ancestors: Facts, parents: Facts, universe: Facts)
    requires ClosedUnder(rules, universe) && ancestors + parents <= universe
    ensures RoundFacts(rules, ancestors, parents) <= universe
  {
    forall f | f in RoundFacts(rules, ancestors, parents)
      ensures f in universe
    {
      InRoundFacts(rules, ancestors, parents, f);
      var k :| 0 <= k < |rules| && rules[k].head == f.pred && f.itpt in RoundOf(rules[k], ancestors, parents);
      RoundSound(rules[k], ancestors, parents, f.itpt);
      DerivesMonotone(rules[k], ancestors + parents, universe, f.itpt);
      assert f == Fact(rules[k].head, f.itpt);
    }
  }

  // ---------- Finitely many models ----------

  /** The facts that the rules obtain from the models `ms`. */
  ghost function FinishFacts(rules: seq<Rule>, ms: set<Model>): Facts {
    if rules == [] then {}
    else
      var n := |rules| - 1;
      FinishFacts(rules[..n], ms) + AsFacts(rules[n].head, Finish(rules[n], ms))
  }

  lemma {:induction false} InFinishFacts(rules: seq<Rule>, ms: set<Model>, k: nat, m: Model, i: Itpt)
    requires k < |rules| && m in ms && i in rules[k].finish(m)
    ensures Fact(rules[k].head, i) in FinishFacts(rules, ms)
  {
    var n := |rules| - 1;
    if k < n {
      InFinishFacts(rules[..n], ms, k, m, i);
    } else {
      assert i in Finish(rules[n], ms);
    }
  }

  ghost predicate StaysIn(rules: seq<Rule>, ms: set<Model>, r: Rule, ind: Ind, m: Model, f: Fact) {
    m in ms && f in FinishFacts(rules, ms) && f.pred == ind.pred && ind.model(f.itpt).Some? ==>
      var x := r.cross(m, ind.model(f.itpt).value); x.Some? ==> x.value in ms
  }

  /** No rule leaves the finite set `ms`: its stacks take finitely many values, its heaps are parts of one heap. */
  ghost predicate Confined(rules: seq<Rule>, ms: set<Model>) {
    forall k :: 0 <= k < |rules| ==>
      && rules[k].ptos <= ms
      && forall ind, m, f :: ind in rules[k].inds ==> StaysIn(rules, ms, rules[k], ind, m, f)
  }

  lemma {:induction false} ConfinedYields(
    rules: seq<Rule>, ms: set<Model>, k: nat, inds: seq<Ind>, m: Model, c: seq<Itpt>, i: Itpt
  )
    requires Confined(rules, ms) && k < |rules| && (forall ind :: ind in inds ==> ind in rules[k].inds) && m in ms
    requires DrawnFrom(inds, c, FinishFacts(rules, ms)) && YieldsFrom(rules[k], inds, m, c, i)
    ensures Fact(rules[k].head, i) in FinishFacts(rules, ms)
    decreases |inds|
  {
    if inds == [] {
      InFinishFacts(rules, ms, k, m, i);
    } else {
      var f := Fact(inds[0].pred, c[0]);
      assert StaysIn(rules, ms, rules[k], inds[0], m, f);
      var x := rules[k].cross(m, inds[0].model(c[0]).value).value;
      forall j | 0 <= j < |c| - 1
        ensures Fact(inds[1..][j].pred, c[1..][j]) in FinishFacts(rules, ms)
      {
        assert Fact(inds[j + 1].pred, c[j + 1]) in FinishFacts(rules, ms);
      }
      ConfinedYields(rules, ms, k, inds[1..], x, c[1..], i);
    }
  }

  /** Rules that build finitely many models have a finite closed set of facts. */
  lemma ConfinedIsClosed(rules: seq<Rule>, ms: set<Model>)
    requires Confined(rules, ms)
    ensures ClosedUnder(rules, FinishFacts(rules, ms))
  {
    var facts := FinishFacts(rules, ms);
    forall k, i | 0 <= k < |rules| && Derives(rules[k], facts, i)
      ensures Fact(rules[k].head, i) in facts
    {
      var r := rules[k];
      var c :| DrawnFrom(r.inds, c, facts) && Yields(r, r.inds, r.ptos, c, i);
      var m :| m in r.ptos && YieldsFrom(r, r.inds, m, c, i);
      ConfinedYields(rules, ms, k, r.inds, m, c, i);
    }
  }

  // ---------- The generator ----------

  function SetOf(ms: seq<Model>): set<Model> {
    set m | m in ms
  }

  lemma SetOfCons(m: Model, ms: seq<Model>)
    ensures SetOf([m] + ms) == SetOf(ms) + {m}
  {
  }

  lemma ModelsOneMore(ind: Ind, facts: Facts, f: Fact)
    ensures Models(ind, facts + {f}) == Models(ind, facts)
         + (if f.pred == ind.pred && ind.model(f.itpt).Some? then {ind.model(f.itpt).value} else {})
  {
  }

  /** `generate_models_ls`. */
  method GenerateModels(ind: Ind, facts: Facts) returns (ms: seq<Model>)
    ensures SetOf(ms) == Models(ind, facts)
  {
    ms := [];
    var todo := facts;
    while todo != {}
      invariant todo <= facts && SetOf(ms) == Models(ind, facts - todo)
    {
      var f :| f in todo;
      assert facts - (todo - {f}) == (facts - todo) + {f};
      ModelsOneMore(ind, facts - todo, f);
      if f.pred == ind.pred && ind.model(f.itpt).Some? {
        SetOfCons(ind.model(f.itpt).value, ms);
        ms := [ind.model(f.itpt).value] + ms;
      }
      todo := todo - {f};
    }
    assert facts - todo == facts;
  }

  lemma CrossOneMore(r: Rule, ms: set<Model>, m: Model, ms': set<Model>)
    ensures CrossModels(r, ms + {m}, ms') == CrossModels(r, ms, ms') + CrossModels(r, {m}, ms')
  {
  }

  lemma CrossOnePair(r: Rule, m: Model, ms': set<Model>, m': Model)
    ensures CrossModels(r, {m}, ms' + {m'})
         == CrossModels(r, {m}, ms') + (if r.cross(m, m').Some? then {r.cross(m, m').value} else {})
  {
  }

  lemma SetOfPrefix(ms: seq<Model>, k: nat)
    requires k < |ms|
    ensures SetOf(ms[..k + 1]) == SetOf(ms[..k]) + {ms[k]}
  {
  }

  method MergeOne(r: Rule, m: Model, ms': seq<Model>, acc: seq<Model>) returns (out: seq<Model>)
    ensures SetOf(out) == SetOf(acc) + CrossModels(r, {m}, SetOf(ms'))
  {
    out := acc;
    var k := 0;
    while k < |ms'|
      invariant 0 <= k <= |ms'|
      invariant SetOf(out) == SetOf(acc) + CrossModels(r, {m}, SetOf(ms'[..k]))
    {
      SetOfPrefix(ms', k);
      CrossOnePair(r, m, SetOf(ms'[..k]), ms'[k]);
      var x := r.cross(m, ms'[k]);
      if x.Some? {
        SetOfCons(x.value, out);
        out := [x.value] + out;
      }
      k := k + 1;
    }
    assert ms'[..k] == ms';
  }

  /** `cross_models_ls`. */
  method CrossLists(r: Rule, ms: seq<Model>, ms': seq<Model>) returns (out: seq<Model>)
    ensures SetOf(out) == CrossModels(r, SetOf(ms), SetOf(ms'))
  {
    out := [];
    var k := 0;
    while k < |ms|
      invariant 0 <= k <= |ms| && SetOf(out) == CrossModels(r, SetOf(ms[..k]), SetOf(ms'))
    {
      SetOfPrefix(ms, k);
      CrossOneMore(r, SetOf(ms[..k]), ms[k], SetOf(ms'));
      out := MergeOne(r, ms[k], ms', out);
      k := k + 1;
    }
    assert ms[..k] == ms;
  }

  method ListOf(ms: set<Model>) returns (l: seq<Model>)
    ensures SetOf(l) == ms
  {
    l := [];
    var todo := ms;
    while todo != {}
      invariant todo <= ms && SetOf(l) == ms - todo
    {
      var m :| m in todo;
      SetOfCons(m, l);
      l, todo := [m] + l, todo - {m};
    }
  }

  lemma FinishOneMore(r: Rule, ms: set<Model>, m: Model)
    ensures AsFacts(r.head, Finish(r, ms + {m})) == AsFacts(r.head, Finish(r, ms)) + AsFacts(r.head, r.finish(m))
  {
    assert Finish(r, ms + {m}) == Finish(r, ms) + r.finish(m);
  }

  lemma AsFactsUnion(pred: int, a: set<Itpt>, b: set<Itpt>)
    ensures AsFacts(pred, a + b) == AsFacts(pred, a) + AsFacts(pred, b)
  {
  }

  class Generator {
    var ancestors: Facts
    var parents: Facts
    var newFacts: Facts

    constructor ()
      ensures ancestors == {} && parents == {} && newFacts == {}
    {
      ancestors, parents, newFacts := {}, {}, {};
    }

    /** `get_mdls`: the products with the parents, and before them, on request, those with the ancestors. */
    method GetModels(r: Rule, ind: Ind, ms: seq<Model>, genAncestors: bool) returns (ls: seq<seq<Model>>)
      ensures |ls| == if genAncestors then 2 else 1
      ensures SetOf(ls[|ls| - 1]) == CrossModels(r, SetOf(ms), Models(ind, parents))
      ensures genAncestors ==> SetOf(ls[0]) == CrossModels(r, SetOf(ms), Models(ind, ancestors))
    {
      var parentModels := GenerateModels(ind, parents);
      var fromParents := CrossLists(r, ms, parentModels);
      ls := [fromParents];
      if genAncestors {
        var ancestorModels := GenerateModels(ind, ancestors);
        var fromAncestors := CrossLists(r, ms, ancestorModels);
        ls := [fromAncestors] + ls;
      }
    }

    /** `add_itpts_of_models_ls` after saturation. */
    method AddFinished(r: Rule, ms: seq<Model>)
      modifies this`newFacts
      ensures newFacts == old(newFacts) + AsFacts(r.head, Finish(r, SetOf(ms)))
    {
      var k := 0;
      while k < |ms|
        invariant 0 <= k <= |ms|
        invariant newFacts == old(newFacts) + AsFacts(r.head, Finish(r, SetOf(ms[..k])))
      {
        SetOfPrefix(ms, k);
        FinishOneMore(r, SetOf(ms[..k]), ms[k]);
        newFacts := newFacts + AsFacts(r.head, r.finish(ms[k]));
        k := k + 1;
      }
      assert ms[..k] == ms;
    }

    /** `tie`, at the last predicate. */
    method Tie(r: Rule, ind: Ind, ms: seq<Model>, flag: bool)
      modifies this`newFacts
      ensures newFacts == old(newFacts) + AsFacts(r.head, Weave(r, ancestors, parents, [ind], SetOf(ms), flag))
    {
      var ls := GetModels(r, ind, ms, flag);
      AddFinished(r, ls[0]);
      if |ls| == 2 {
        AddFinished(r, ls[1]);
      }
      AsFactsUnion(r.head, Finish(r, CrossModels(r, SetOf(ms), Models(ind, parents))),
                   Finish(r, CrossModels(r, SetOf(ms), Models(ind, ancestors))));
    }

    /** The weave with `split` at each predicate but the last. */
    method WeaveInto(r: Rule, inds: seq<Ind>, ms: seq<Model>, flag: bool)
      modifies this`newFacts
      ensures newFacts == old(newFacts) + AsFacts(r.head, Weave(r, ancestors, parents, inds, SetOf(ms), flag))
      decreases |inds|
    {
      if |inds| == 1 {
        assert inds == [inds[0]];
        Tie(r, inds[0], ms, flag);
      } else if |inds| > 1 {
        var ls := GetModels(r, inds[0], ms, true);
        WeaveInto(r, inds[1..], ls[0], flag);
        WeaveInto(r, inds[1..], ls[1], true);
        AsFactsUnion(r.head, Weave(r, ancestors, parents, inds[1..], SetOf(ls[0]), flag),
                     Weave(r, ancestors, parents, inds[1..], SetOf(ls[1]), true));
      }
    }

    /** `rule_gen`: the new interpretants of one rule. */
    method RuleGen(r: Rule)
      modifies this`newFacts
      ensures newFacts == old(newFacts) + AsFacts(r.head, RoundOf(r, ancestors, parents))
    {
      if !r.consistent || (r.inds == [] && (Known(r.head, ancestors) || Known(r.head, parents))) {
        return;
      }
      var ptos := ListOf(r.ptos);
      if r.inds == [] {
        AddFinished(r, ptos);
      } else {
        WeaveInto(r, r.inds, ptos, false);
      }
    }

    /** One pass of the generator over all rules, then the shift of the generations. */
    method Round(rules: seq<Rule>)
      requires newFacts == {}
      modifies this
      ensures ancestors == old(ancestors + parents)
      ensures parents == RoundFacts(rules, old(ancestors), old(parents)) - ancestors
      ensures newFacts == {}
    {
      var k := 0;
      while k < |rules|
        invariant 0 <= k <= |rules|
        invariant ancestors == old(ancestors) && parents == old(parents)
        invariant newFacts == RoundFacts(rules[..k], ancestors, parents)
      {
        assert rules[..k + 1][..k] == rules[..k];
        RuleGen(rules[k]);
        k := k + 1;
      }
      assert rules[..k] == rules;
      ancestors := ancestors + parents;
      parents := newFacts - ancestors;
      newFacts := {};
    }

    /**
     * If any finite set of facts is closed under the rules, the generator stops, with the least such set. Without
     * one it cannot stop, since its result would be one.
     */
    method Generate(rules: seq<Rule>, ghost universe: Facts)
      requires ancestors == {} && parents == {} && newFacts == {}
      requires ClosedUnder(rules, universe)
      modifies this
      ensures parents == {} && IsLeastFixpoint(rules, ancestors)
    {
      var done := false;
      ghost var started := false;
      while !done
        invariant newFacts == {} && ancestors + parents <= universe
        invariant WithinEveryFixpoint(rules, ancestors + parents)
        invariant CaughtUp(rules, ancestors, parents, started)
        invariant !started ==> ancestors == {} && parents == {}
        invariant done ==> started && parents == {}
        invariant started && !done ==> parents != {}
        invariant ancestors !! parents
        decreases !done, !started, universe - ancestors
      {
        ghost var a, p := ancestors, parents;
        RoundStaysWithin(rules, a, p);
        RoundCatchesUp(rules, a, p, started);
        RoundBounded(rules, a, p, universe);
        Round(rules);
        assert ancestors + parents == a + p + RoundFacts(rules, a, p);
        assert started ==> universe - ancestors < universe - a by {
          if started {
            var w := Pick(p);
            assert w in universe - a && w !in universe - ancestors;
          }
        }
        started := true;
        done := parents == {};
      }
    }
  }
}
