/** The models that the rules of the model checker build (src/seplog/mc_core.ml): finitely many, over the variables of
    the rules, the values at hand and the parts of one heap. */
module FiniteModels {
  import opened Sets
  import opened Outcomes
  import opened SemiNaive
  import opened StackConstraints

  // ---------- The functions of the source ----------

  /** `cross_model`; the test of the constraints is a parameter. */
  function CrossModel(satisfied: (Stack, Stack) -> bool, m: Model, m': Model): Option<Model> {
    if m.heap !! m'.heap && Consistent(m.stack, m'.stack) && satisfied(m.stack, m'.stack)
    then Some(Model(m.stack + m'.stack, m.heap + m'.heap))
    else None
  }

  /** `of_term_bindings`: nothing but the value of `nil` fits `nil`, and of two values of a variable the last one
      counts. */
  function Bind(ts: seq<Term>, vs: seq<int>): Option<Stack> {
    if |ts| != |vs| then None
    else if ts == [] then Some(map[])
    else
      var n := |vs| - 1;
      match Bind(ts[..n], vs[..n])
      case None => None
      case Some(s) => if ts[n].Var? then Some(s[ts[n].x := vs[n]]) else if vs[n] == NIL then Some(s) else None
  }

  /** `generate_model`. */
  function GenerateModel(ts: seq<Term>, satisfied: Stack -> bool, i: Itpt): Option<Model> {
    match Bind(ts, i.values)
    case None => None
    case Some(s) => if satisfied(s) then Some(Model(s, i.heap)) else None
  }

  /** A product exists exactly for disjoint heaps and stacks that agree and pass the test; it binds what either stack
      binds, to the same values, and its heap is both heaps. */
  lemma CrossModelExact(satisfied: (Stack, Stack) -> bool, m: Model, m': Model)
    ensures CrossModel(satisfied, m, m').Some? <==>
            && m.heap !! m'.heap
            && (forall x :: x in m.stack && x in m'.stack ==> m.stack[x] == m'.stack[x])
            && satisfied(m.stack, m'.stack)
    ensures CrossModel(satisfied, m, m').Some? ==>
              var r := CrossModel(satisfied, m, m').value;
              && (forall x :: x in r.stack <==> x in m.stack || x in m'.stack)
              && (forall x :: x in m.stack ==> r.stack[x] == m.stack[x])
              && (forall x :: x in m'.stack ==> r.stack[x] == m'.stack[x])
              && (forall a :: a in r.heap <==> a in m.heap || a in m'.heap)
  {
  }

  /** `v` is the value of the last argument that is the variable `x`. */
  ghost predicate LastValue(ts: seq<Term>, vs: seq<int>, x: int, v: int) {
    exists k :: 0 <= k < |ts| && k < |vs| && ts[k] == Var(x) && vs[k] == v && forall j :: k < j < |ts| ==> ts[j] != Var(x)
  }

  ghost predicate Binds(ts: seq<Term>, vs: seq<int>, s: Stack) {
    && (forall x :: x in s <==> Var(x) in ts)
    && (forall x :: x in s ==> LastValue(ts, vs, x, s[x]))
  }

  lemma LastValueGrows(ts: seq<Term>, vs: seq<int>, n: nat, x: int, v: int)
    requires |ts| == |vs| == n + 1 && ts[n] != Var(x) && LastValue(ts[..n], vs[..n], x, v)
    ensures LastValue(ts, vs, x, v)
  {
    var k :| 0 <= k < n && ts[..n][k] == Var(x) && vs[..n][k] == v && forall j :: k < j < n ==> ts[..n][j] != Var(x);
    forall j | k < j < n + 1
      ensures ts[j] != Var(x)
    {
      if j < n {
        assert ts[..n][j] == ts[j];
      }
    }
  }

  /** Arguments can be bound exactly if there are as many values and `nil` meets the value of `nil` only; then each
      variable among them, and no other, has the value of its last occurrence. */
  lemma {:induction false} BindExact(ts: seq<Term>, vs: seq<int>)
    ensures Bind(ts, vs).Some? <==> |ts| == |vs| && forall k :: 0 <= k < |ts| && ts[k].Nil? ==> vs[k] == NIL
    ensures Bind(ts, vs).Some? ==> Binds(ts, vs, Bind(ts, vs).value)
  {
    if |ts| == |vs| && ts != [] {
      var n := |vs| - 1;
      BindExact(ts[..n], vs[..n]);
      assert ts == ts[..n] + [ts[n]];
      if Bind(ts, vs).Some? {
        var s := Bind(ts, vs).value;
        forall x | x in s
          ensures LastValue(ts, vs, x, s[x])
        {
          if ts[n] == Var(x) {
            assert s[x] == vs[n];
          } else {
            LastValueGrows(ts, vs, n, x, s[x]);
          }
        }
      }
    }
  }

  /** The model of an interpretant binds the arguments and keeps the heap. */
  lemma GenerateModelExact(ts: seq<Term>, satisfied: Stack -> bool, i: Itpt, m: Model)
    ensures GenerateModel(ts, satisfied, i) == Some(m) <==>
            && |ts| == |i.values| && (forall k :: 0 <= k < |ts| && ts[k].Nil? ==> i.values[k] == NIL)
            && Binds(ts, i.values, m.stack) && m.heap == i.heap && satisfied(m.stack)
  {
    BindExact(ts, i.values);
    if Bind(ts, i.values).Some? && Binds(ts, i.values, m.stack) {
      BindsIsUnique(ts, i.values, m.stack, Bind(ts, i.values).value);
    }
  }

  lemma BindsIsUnique(ts: seq<Term>, vs: seq<int>, s: Stack, s': Stack)
    requires Binds(ts, vs, s) && Binds(ts, vs, s')
    ensures s == s'
  {
    forall x | x in s
      ensures x in s' && s[x] == s'[x]
    {
      var k :| 0 <= k < |ts| && k < |vs| && ts[k] == Var(x) && vs[k] == s[x] && forall j :: k < j < |ts| ==> ts[j] != Var(x);
      var k' :| 0 <= k' < |ts| && k' < |vs| && ts[k'] == Var(x) && vs[k'] == s'[x]
             && forall j :: k' < j < |ts| ==> ts[j] != Var(x);
      assert k == k';
    }
    forall x | x in s'.Keys ensures x in s.Keys { assert Var(x) in ts; }
    forall x | x in s.Keys ensures x in s'.Keys { assert Var(x) in ts; }
  }

  // ---------- Finitely many models ----------

  ghost predicate StackWithin(s: Stack, vars: set<int>, vals: set<int>) {
    forall x :: x in s ==> x in vars && s[x] in vals
  }

  ghost predicate Within(m: Model, vars: set<int>, vals: set<int>, locs: set<int>) {
    StackWithin(m.stack, vars, vals) && m.heap <= locs
  }

  /** The stacks `ss`, with each of the values for `x`. */
  ghost function Assigned(ss: set<Stack>, x: int, vals: set<int>): set<Stack>
    decreases |vals|
  {
    if vals == {} then {}
    else
      var v := Pick(vals);
      Assigned(ss, x, vals - {v}) + set s | s in ss :: s[x := v]
  }

  /** All stacks that give some of the variables some of the values. */
  ghost function Stacks(vars: set<int>, vals: set<int>): set<Stack>
    decreases |vars|
  {
    if vars == {} then {map[]}
    else
      var x := Pick(vars);
      var fewer := Stacks(vars - {x}, vals);
      fewer + Assigned(fewer, x, vals)
  }

  lemma {:induction false} AssignedExact(ss: set<Stack>, x: int, vals: set<int>, s: Stack)
    ensures s in Assigned(ss, x, vals) <==>
            x in s && s[x] in vals && exists s' :: s' in ss && s == s'[x := s[x]]
    decreases |vals|
  {
    if vals != {} {
      AssignedExact(ss, x, vals - {Pick(vals)}, s);
    }
  }

  lemma {:induction false} StacksExact(vars: set<int>, vals: set<int>, s: Stack)
    ensures s in Stacks(vars, vals) <==> StackWithin(s, vars, vals)
    decreases |vars|
  {
    if vars == {} {
      if s != map[] {
        var x := Pick(s.Keys);
        assert x in s && x !in vars;
      }
    } else {
      var x := Pick(vars);
      var fewer := Stacks(vars - {x}, vals);
      AssignedExact(fewer, x, vals, s);
      StacksExact(vars - {x}, vals, s);
      if s' :| s' in fewer && x in s && s == s'[x := s[x]] {
        StacksExact(vars - {x}, vals, s');
      }
      if StackWithin(s, vars, vals) && x in s {
        StacksExact(vars - {x}, vals, s - {x});
        assert s == (s - {x})[x := s[x]];
      }
    }
  }

  ghost function AllModels(vars: set<int>, vals: set<int>, locs: set<int>): set<Model> {
    var heaps := set h: set<int> | h <= locs;
    set s, h | s in Stacks(vars, vals) && h in heaps :: Model(s, h)
  }

  lemma AllModelsExact(vars: set<int>, vals: set<int>, locs: set<int>, m: Model)
    ensures m in AllModels(vars, vals, locs) <==> Within(m, vars, vals, locs)
  {
    StacksExact(vars, vals, m.stack);
    assert m == Model(m.stack, m.heap);
  }

  // ---------- The rules stay among them ----------

  predicate TermsOver(ts: seq<Term>, vars: set<int>) {
    forall t :: t in ts && t.Var? ==> t.x in vars
  }

  lemma {:induction false} BindWithin(ts: seq<Term>, vs: seq<int>, vars: set<int>, vals: set<int>)
    requires TermsOver(ts, vars)
    requires forall k :: 0 <= k < |vs| ==> vs[k] in vals
    ensures Bind(ts, vs).Some? ==> StackWithin(Bind(ts, vs).value, vars, vals)
  {
    if |ts| == |vs| && ts != [] {
      var n := |vs| - 1;
      assert ts[n] in ts;
      BindWithin(ts[..n], vs[..n], vars, vals);
      var b := Bind(ts[..n], vs[..n]);
      assert b.Some? && ts[n].Var? ==> Bind(ts, vs) == Some(b.value[ts[n].x := vs[n]]);
    }
  }

  ghost predicate ItptWithin(i: Itpt, vals: set<int>, locs: set<int>) {
    (forall k :: 0 <= k < |i.values| ==> i.values[k] in vals) && i.heap <= locs
  }

  lemma GeneratedWithin(
    ts: seq<Term>, satisfied: Stack -> bool, i: Itpt, vars: set<int>, vals: set<int>, locs: set<int>
  )
    requires TermsOver(ts, vars) && ItptWithin(i, vals, locs)
    ensures var m := GenerateModel(ts, satisfied, i); m.Some? ==> Within(m.value, vars, vals, locs)
  {
    BindWithin(ts, i.values, vars, vals);
  }

  lemma CrossWithin(
    satisfied: (Stack, Stack) -> bool, m: Model, m': Model, vars: set<int>, vals: set<int>, locs: set<int>
  )
    requires Within(m, vars, vals, locs) && Within(m', vars, vals, locs)
    ensures var x := CrossModel(satisfied, m, m'); x.Some? ==> Within(x.value, vars, vals, locs)
  {
  }

  /** The predicate's arguments are `ts`, and its models are those of `generate_model`. */
  ghost predicate GeneratedFrom(ind: Ind, ts: seq<Term>, satisfied: Stack -> bool) {
    forall i :: ind.model(i) == GenerateModel(ts, satisfied, i)
  }

  ghost predicate Generated(ind: Ind, vars: set<int>) {
    exists ts, satisfied :: GeneratedFrom(ind, ts, satisfied) && TermsOver(ts, vars)
  }

  ghost predicate CrossedBy(r: Rule, satisfied: (Stack, Stack) -> bool) {
    forall m, m' :: r.cross(m, m') == CrossModel(satisfied, m, m')
  }

  ghost predicate IsValue(s: Stack, v: int) {
    exists x :: x in s && s[x] == v
  }

  /** Saturation extends stacks by the values at hand; the interpretants keep the heap. */
  ghost predicate Saturated(r: Rule, vals: set<int>) {
    forall m, i :: i in r.finish(m) ==>
      i.heap == m.heap && forall k :: 0 <= k < |i.values| ==> i.values[k] in vals || IsValue(m.stack, i.values[k])
  }

  /** A rule as `rule_gen` treats it. */
  ghost predicate RuleWithin(r: Rule, vars: set<int>, vals: set<int>, locs: set<int>) {
    && (forall m :: m in r.ptos ==> Within(m, vars, vals, locs))
    && (forall ind :: ind in r.inds ==> Generated(ind, vars))
    && (exists satisfied :: CrossedBy(r, satisfied))
    && Saturated(r, vals)
  }

  ghost predicate RulesWithin(rules: seq<Rule>, vars: set<int>, vals: set<int>, locs: set<int>) {
    forall k :: 0 <= k < |rules| ==> RuleWithin(rules[k], vars, vals, locs)
  }

  lemma {:induction false} FinishWithin(
    rules: seq<Rule>, vars: set<int>, vals: set<int>, locs: set<int>, f: Fact
  )
    requires RulesWithin(rules, vars, vals, locs)
    requires f in FinishFacts(rules, AllModels(vars, vals, locs))
    ensures ItptWithin(f.itpt, vals, locs)
    decreases |rules|
  {
    var n, ms := |rules| - 1, AllModels(vars, vals, locs);
    if f in FinishFacts(rules[..n], ms) {
      FinishWithin(rules[..n], vars, vals, locs, f);
    } else {
      assert RuleWithin(rules[n], vars, vals, locs);
      var m :| m in ms && f.itpt in rules[n].finish(m);
      AllModelsExact(vars, vals, locs, m);
    }
  }

  lemma StepWithin(
    rules: seq<Rule>, vars: set<int>, vals: set<int>, locs: set<int>, r: Rule, ind: Ind, m: Model, f: Fact
  )
    requires RulesWithin(rules, vars, vals, locs) && RuleWithin(r, vars, vals, locs) && ind in r.inds
    ensures StaysIn(rules, AllModels(vars, vals, locs), r, ind, m, f)
  {
    var ms := AllModels(vars, vals, locs);
    if m in ms && f in FinishFacts(rules, ms) && ind.model(f.itpt).Some? {
      var m' := ind.model(f.itpt).value;
      FinishWithin(rules, vars, vals, locs, f);
      assert Generated(ind, vars);
      var ts, sat :| GeneratedFrom(ind, ts, sat) && TermsOver(ts, vars);
      GeneratedWithin(ts, sat, f.itpt, vars, vals, locs);
      AllModelsExact(vars, vals, locs, m);
      var sat2 :| CrossedBy(r, sat2);
      CrossWithin(sat2, m, m', vars, vals, locs);
      if r.cross(m, m').Some? {
        AllModelsExact(vars, vals, locs, r.cross(m, m').value);
      }
    }
  }

  /** The rules of the model checker never leave the models over their variables, the values at hand and the heap. */
  lemma RulesAreConfined(rules: seq<Rule>, vars: set<int>, vals: set<int>, locs: set<int>)
    requires RulesWithin(rules, vars, vals, locs)
    ensures Confined(rules, AllModels(vars, vals, locs))
  {
    var ms := AllModels(vars, vals, locs);
    forall k | 0 <= k < |rules|
      ensures rules[k].ptos <= ms
      ensures forall ind, m, f :: ind in rules[k].inds ==> StaysIn(rules, ms, rules[k], ind, m, f)
    {
      assert RuleWithin(rules[k], vars, vals, locs);
      forall m | m in rules[k].ptos ensures m in ms { AllModelsExact(vars, vals, locs, m); }
      forall ind, m, f | ind in rules[k].inds
        ensures StaysIn(rules, ms, rules[k], ind, m, f)
      {
        StepWithin(rules, vars, vals, locs, rules[k], ind, m, f);
      }
    }
  }

  /** So they have a finite closed set of facts, and generation ends, whatever the rules and the heap. */
  lemma FiniteClosedSet(rules: seq<Rule>, vars: set<int>, vals: set<int>, locs: set<int>)
    requires RulesWithin(rules, vars, vals, locs)
    ensures ClosedUnder(rules, FinishFacts(rules, AllModels(vars, vals, locs)))
  {
    RulesAreConfined(rules, vars, vals, locs);
    ConfinedIsClosed(rules, AllModels(vars, vals, locs));
  }
}
