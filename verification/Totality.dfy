/** When rules do not raise (src/generic/proofrule.ml): a property of proofs that the basic rules keep, and under which
    they are total, makes every combination of them total. */
module Totality {
  import opened Outcomes
  import opened TraceGraph
  import opened ProofTree
  import opened CyclicSoundness
  import opened Rules
  import opened Combinators

  /** The semantics without counter-models: what is left of evolution is its effect on nodes. */
  function NoModels(): Semantics<int> {
    Semantics((m, s) => false, (m, t) => 0)
  }

  type Property = Proof -> bool

  ghost predicate TotalApps(apps: Apps, inv: Property) {
    apps.Ok? && forall a :: a in apps.value ==> inv(a.prf)
  }

  ghost predicate TotalAt(r: Rule, inv: Property, idx: int, prf: Proof) {
    TotalApps(r(idx, prf), inv)
  }

  /** The rule raises at no open node of a proof with the property, and its results have the property. */
  ghost predicate Total(r: Rule, inv: Property) {
    forall idx, prf :: ProofOk(prf) && inv(prf) && CanAdd(prf, idx) ==> TotalAt(r, inv, idx, prf)
  }

  ghost predicate Fine(r: Rule, inv: Property) {
    GoodRule(NoModels(), r) && Total(r, inv)
  }

  ghost predicate AllFine(rs: seq<Rule>, inv: Property) {
    forall k :: 0 <= k < |rs| ==> Fine(rs[k], inv)
  }

  lemma AllFineGood(rs: seq<Rule>, inv: Property)
    requires AllFine(rs, inv)
    ensures AllGood(NoModels(), rs)
  {
    forall k | 0 <= k < |rs|
      ensures GoodRule(NoModels(), rs[k])
    {
      assert Fine(rs[k], inv);
    }
  }

  // ---------- The combinators ----------

  /** Applications in the course of a composition, with `goals` still to come. */
  ghost predicate Underway(prf: Proof, gone: set<int>, apps: seq<App>, goals: seq<int>, inv: Property)
    requires ProofOk(prf)
  {
    AllEvolve(NoModels(), prf, gone, apps, goals) && forall a :: a in apps ==> inv(a.prf)
  }

  lemma OneTotal(prf: Proof, gone: set<int>, r: Rule, idx: int, rest: seq<int>, app: App, inv: Property)
    requires Fine(r, inv) && ProofOk(prf) && inv(app.prf)
    requires Evolves(NoModels(), prf, gone, app.goals + ([idx] + rest), app.prf)
    ensures ProofOk(app.prf) && CanAdd(app.prf, idx) && TotalAt(r, inv, idx, app.prf)
  {
    var goals := app.goals + ([idx] + rest);
    assert goals[|app.goals|] == idx;
    assert idx in Elems(goals);
    assert idx in Opens(app.prf);
  }

  lemma {:induction false} ApplyToAllTotal(
    prf: Proof, gone: set<int>, r: Rule, idx: int, rest: seq<int>, apps: seq<App>, inv: Property
  )
    requires Fine(r, inv) && ProofOk(prf) && Underway(prf, gone, apps, [idx] + rest, inv)
    ensures ApplyToAll(r, idx, apps).Ok? && Underway(prf, gone, ApplyToAll(r, idx, apps).value, rest, inv)
  {
    if apps != [] {
      var a := apps[0];
      assert a in apps;
      OneTotal(prf, gone, r, idx, rest, a, inv);
      assert AllEvolve(NoModels(), prf, gone, apps[1..], [idx] + rest);
      ApplyToAllTotal(prf, gone, r, idx, rest, apps[1..], inv);
      ApplyToAllGood(NoModels(), prf, gone, r, idx, rest, apps);
      var added, more := Prefixed(a.goals, r(idx, a.prf).value), ApplyToAll(r, idx, apps[1..]).value;
      forall b: App | b in added + more
        ensures inv(b.prf)
      {
        if b in added {
          var k :| 0 <= k < |added| && added[k] == b;
          assert r(idx, a.prf).value[k] in r(idx, a.prf).value;
        }
      }
    }
  }

  lemma {:induction false} FoldPairwiseTotal(
    prf: Proof, gone: set<int>, apps: seq<App>, rules: seq<Rule>, goals: seq<int>, inv: Property
  )
    requires AllFine(rules, inv) && ProofOk(prf) && Underway(prf, gone, apps, goals, inv)
    ensures TotalApps(FoldPairwise(apps, rules, goals), inv)
    decreases |goals|
  {
    if rules != [] && goals != [] {
      assert goals == [goals[0]] + goals[1..];
      ApplyToAllTotal(prf, gone, rules[0], goals[0], goals[1..], apps, inv);
      FoldPairwiseTotal(prf, gone, ApplyToAll(rules[0], goals[0], apps).value, rules[1..], goals[1..], inv);
    }
  }

  lemma PairwiseTotal(prf: Proof, idx: int, rules: seq<Rule>, app: App, inv: Property)
    requires AllFine(rules, inv) && ProofOk(prf) && inv(app.prf)
    requires Evolves(NoModels(), prf, {idx}, app.goals, app.prf)
    ensures TotalApps(ApplyToSubgoalsPairwise(rules, app), inv)
  {
    assert [] + app.goals == app.goals;
    FoldPairwiseTotal(prf, {idx}, [App([], app.prf)], rules, app.goals, inv);
  }

  lemma {:induction false} BindPairwiseTotal(
    prf: Proof, idx: int, rules: App -> seq<Rule>, apps: seq<App>, inv: Property
  )
    requires ProofOk(prf) && GoodApps(NoModels(), prf, idx, Ok(apps)) && TotalApps(Ok(apps), inv)
    requires forall a :: AllFine(rules(a), inv)
    ensures TotalApps(BindPairwise(rules, apps), inv)
  {
    if apps != [] {
      assert apps[0] in apps;
      PairwiseTotal(prf, idx, rules(apps[0]), apps[0], inv);
      BindPairwiseTotal(prf, idx, rules, apps[1..], inv);
    }
  }

  lemma ComposeTotal(r: Rule, r': Rule, idx: int, prf: Proof, inv: Property)
    requires Fine(r, inv) && Fine(r', inv) && ProofOk(prf) && inv(prf) && CanAdd(prf, idx)
    ensures TotalApps(Compose(r, r', idx, prf), inv)
  {
    assert TotalAt(r, inv, idx, prf) && GoodApps(NoModels(), prf, idx, r(idx, prf));
    var rules := (a: App) => seq(|a.goals|, _ => r');
    BindPairwiseTotal(prf, idx, rules, r(idx, prf).value, inv);
    assert Compose(r, r', idx, prf) == BindPairwise(rules, r(idx, prf).value);
  }

  lemma ComposePairwiseTotal(r: Rule, rs: seq<Rule>, idx: int, prf: Proof, inv: Property)
    requires Fine(r, inv) && AllFine(rs, inv) && ProofOk(prf) && inv(prf) && CanAdd(prf, idx)
    ensures TotalApps(ComposePairwise(r, rs, idx, prf), inv)
  {
    assert TotalAt(r, inv, idx, prf) && GoodApps(NoModels(), prf, idx, r(idx, prf));
    var rules := (a: App) => rs;
    BindPairwiseTotal(prf, idx, rules, r(idx, prf).value, inv);
    assert ComposePairwise(r, rs, idx, prf) == BindPairwise(rules, r(idx, prf).value);
  }

  lemma {:induction false} ChoiceTotal(rl: seq<Rule>, idx: int, prf: Proof, inv: Property)
    requires AllFine(rl, inv) && ProofOk(prf) && inv(prf) && CanAdd(prf, idx)
    ensures TotalApps(Choice(rl, idx, prf), inv) && TotalApps(First(rl, idx, prf), inv)
  {
    if rl != [] {
      assert TotalAt(rl[0], inv, idx, prf);
      ChoiceTotal(rl[1..], idx, prf, inv);
    }
  }

  // ---------- Every rule that can be built ----------

  /** The basic rules in a tactic are fine. */
  ghost predicate FineTactic(check: Check, t: Tactic, inv: Property)
    decreases t
  {
    match t
    case AxiomRule(_) => Fine(RuleOf(check, t), inv)
    case InfRule(_) => Fine(RuleOf(check, t), inv)
    case BackRule(_, _, _) => Fine(RuleOf(check, t), inv)
    case FailRule => true
    case IdentityRule => true
    case AttemptRule(t1) => FineTactic(check, t1, inv)
    case ComposeRule(t1, t2) => FineTactic(check, t1, inv) && FineTactic(check, t2, inv)
    case ComposePairwiseRule(t1, ts) => FineTactic(check, t1, inv) && forall u :: u in ts ==> FineTactic(check, u, inv)
    case ChoiceRule(ts) => forall u :: u in ts ==> FineTactic(check, u, inv)
    case FirstRule(ts) => forall u :: u in ts ==> FineTactic(check, u, inv)
    case SequenceRule(ts) => forall u :: u in ts ==> FineTactic(check, u, inv)
    case ConditionalRule(_, t1) => FineTactic(check, t1, inv)
  }

  ghost predicate FineApps(prf: Proof, idx: int, apps: Apps, inv: Property)
    requires ProofOk(prf)
  {
    GoodApps(NoModels(), prf, idx, apps) && (inv(prf) ==> TotalApps(apps, inv))
  }

  lemma FineAt(r: Rule, idx: int, prf: Proof, inv: Property)
    requires Fine(r, inv) && ProofOk(prf) && CanAdd(prf, idx)
    ensures FineApps(prf, idx, r(idx, prf), inv)
  {
    assert inv(prf) ==> TotalAt(r, inv, idx, prf);
  }

  lemma FineEverywhere(r: Rule, inv: Property)
    requires forall idx, prf :: ProofOk(prf) && CanAdd(prf, idx) ==> FineApps(prf, idx, r(idx, prf), inv)
    ensures Fine(r, inv)
  {
    forall idx: int, prf: Proof | ProofOk(prf) && CanAdd(prf, idx)
      ensures GoodApps(NoModels(), prf, idx, r(idx, prf)) && (inv(prf) ==> TotalAt(r, inv, idx, prf))
    {
      assert FineApps(prf, idx, r(idx, prf), inv);
    }
  }

  lemma ComposeFine(r: Rule, r': Rule, idx: int, prf: Proof, inv: Property)
    requires Fine(r, inv) && Fine(r', inv) && ProofOk(prf) && CanAdd(prf, idx)
    ensures FineApps(prf, idx, Compose(r, r', idx, prf), inv)
  {
    ComposeGood(NoModels(), r, r', idx, prf);
    if inv(prf) {
      ComposeTotal(r, r', idx, prf, inv);
    }
  }

  lemma ComposePairwiseFine(r: Rule, rs: seq<Rule>, idx: int, prf: Proof, inv: Property)
    requires Fine(r, inv) && AllFine(rs, inv) && ProofOk(prf) && CanAdd(prf, idx)
    ensures FineApps(prf, idx, ComposePairwise(r, rs, idx, prf), inv)
  {
    AllFineGood(rs, inv);
    ComposePairwiseGood(NoModels(), r, rs, idx, prf);
    if inv(prf) {
      ComposePairwiseTotal(r, rs, idx, prf, inv);
    }
  }

  lemma ChoiceFine(rl: seq<Rule>, idx: int, prf: Proof, inv: Property)
    requires AllFine(rl, inv) && ProofOk(prf) && CanAdd(prf, idx)
    ensures FineApps(prf, idx, Choice(rl, idx, prf), inv) && FineApps(prf, idx, First(rl, idx, prf), inv)
  {
    AllFineGood(rl, inv);
    ChoiceGood(NoModels(), rl, idx, prf);
    if inv(prf) {
      ChoiceTotal(rl, idx, prf, inv);
    }
  }

  lemma AttemptFine(r: Rule, idx: int, prf: Proof, inv: Property)
    requires Fine(r, inv) && ProofOk(prf) && CanAdd(prf, idx)
    ensures FineApps(prf, idx, Attempt(r, idx, prf), inv) && FineApps(prf, idx, Identity(idx, prf), inv)
  {
    AttemptGood(NoModels(), r, idx, prf);
    IdentityGood(NoModels(), idx, prf);
    FineAt(r, idx, prf, inv);
  }

  lemma {:induction false} RunFine(check: Check, t: Tactic, idx: int, prf: Proof, inv: Property)
    requires FineTactic(check, t, inv) && ProofOk(prf) && CanAdd(prf, idx)
    ensures FineApps(prf, idx, Run(check, t, idx, prf), inv)
    decreases t, 0
  {
    match t
    case AxiomRule(_) => FineAt(RuleOf(check, t), idx, prf, inv);
    case InfRule(_) => FineAt(RuleOf(check, t), idx, prf, inv);
    case BackRule(_, _, _) => FineAt(RuleOf(check, t), idx, prf, inv);
    case FailRule =>
    case IdentityRule => IdentityGood(NoModels(), idx, prf);
    case AttemptRule(t1) =>
      TacticsAreFine(check, t1, inv);
      AttemptFine(RuleOf(check, t1), idx, prf, inv);
    case ComposeRule(t1, t2) =>
      TacticsAreFine(check, t1, inv);
      TacticsAreFine(check, t2, inv);
      ComposeFine(RuleOf(check, t1), RuleOf(check, t2), idx, prf, inv);
    case ComposePairwiseRule(t1, ts) =>
      TacticsAreFine(check, t1, inv);
      AllTacticsFine(check, ts, inv);
      ComposePairwiseFine(RuleOf(check, t1), RulesOf(check, ts), idx, prf, inv);
    case ChoiceRule(ts) =>
      AllTacticsFine(check, ts, inv);
      ChoiceFine(RulesOf(check, ts), idx, prf, inv);
    case FirstRule(ts) =>
      AllTacticsFine(check, ts, inv);
      ChoiceFine(RulesOf(check, ts), idx, prf, inv);
    case SequenceRule(ts) =>
      SequenceFine(check, ts, inv);
      FineAt(SequenceOf(check, ts), idx, prf, inv);
    case ConditionalRule(cond, t1) =>
      RunFine(check, t1, idx, prf, inv);
  }

  lemma TacticsAreFine(check: Check, t: Tactic, inv: Property)
    requires FineTactic(check, t, inv)
    ensures Fine(RuleOf(check, t), inv)
    decreases t, 1
  {
    forall idx: int, prf: Proof | ProofOk(prf) && CanAdd(prf, idx)
      ensures FineApps(prf, idx, RuleOf(check, t)(idx, prf), inv)
    {
      RunFine(check, t, idx, prf, inv);
    }
    FineEverywhere(RuleOf(check, t), inv);
  }

  lemma {:induction false} AllTacticsFine(check: Check, ts: seq<Tactic>, inv: Property)
    requires forall u :: u in ts ==> FineTactic(check, u, inv)
    ensures AllFine(RulesOf(check, ts), inv)
    decreases ts, 2
  {
    if ts != [] {
      TacticsAreFine(check, ts[0], inv);
      AllTacticsFine(check, ts[1..], inv);
    }
  }

  lemma {:induction false} SequenceFine(check: Check, ts: seq<Tactic>, inv: Property)
    requires forall u :: u in ts ==> FineTactic(check, u, inv)
    ensures Fine(SequenceOf(check, ts), inv)
    decreases ts, 2
  {
    if ts != [] {
      TacticsAreFine(check, ts[0], inv);
      SequenceFine(check, ts[1..], inv);
    }
    forall idx: int, prf: Proof | ProofOk(prf) && CanAdd(prf, idx)
      ensures FineApps(prf, idx, SequenceOf(check, ts)(idx, prf), inv)
    {
      if ts == [] {
        IdentityGood(NoModels(), idx, prf);
      } else {
        ComposeFine(RuleOf(check, ts[0]), SequenceOf(check, ts[1..]), idx, prf, inv);
      }
    }
    FineEverywhere(SequenceOf(check, ts), inv);
  }

  // ---------- The basic rules ----------

  lemma AxiomsGood(check: Check, axF: Sequent -> Option<string>)
    ensures GoodRule(NoModels(), RuleOf(check, AxiomRule(axF)))
  {
    forall idx: int, prf: Proof | ProofOk(prf) && CanAdd(prf, idx)
      ensures GoodApps(NoModels(), prf, idx, RuleOf(check, AxiomRule(axF))(idx, prf))
    {
      MkAxiomGood(NoModels(), axF, idx, prf);
    }
  }

  lemma InferencesGood(check: Check, rF: Sequent -> seq<InfApp>)
    ensures GoodRule(NoModels(), RuleOf(check, InfRule(rF)))
  {
    forall idx: int, prf: Proof | ProofOk(prf) && CanAdd(prf, idx)
      ensures GoodApps(NoModels(), prf, idx, RuleOf(check, InfRule(rF))(idx, prf))
    {
      MapInfGood(NoModels(), rF(prf[idx].node.sequent), idx, prf);
    }
  }

  lemma LinksGood(check: Check, greedy: bool, selF: Selector, brF: Matcher)
    requires CheckCorrect(check)
    ensures GoodRule(NoModels(), RuleOf(check, BackRule(greedy, selF, brF)))
  {
    forall idx: int, prf: Proof | ProofOk(prf) && CanAdd(prf, idx)
      ensures GoodApps(NoModels(), prf, idx, RuleOf(check, BackRule(greedy, selF, brF))(idx, prf))
    {
      MkBackruleGood(NoModels(), greedy, selF, brF, check, idx, prf);
    }
  }

  // ---------- Tags ----------

  /** What the soundness check asserts of a proof before it looks at it. */
  predicate Tagged(prf: Proof) {
    ShapesOk(prf) && WellFormed(Abstract(prf), 0)
  }

  function TaggedProperty(): Property {
    (prf: Proof) => Tagged(prf)
  }

  predicate Between(ps: Pairs, s: Sequent, s': Sequent) {
    forall q :: q in ps ==> q.0 in s.Tags() && q.1 in s'.Tags()
  }

  predicate TidyPremise(s: Sequent, p: Premise) {
    p.tp <= p.tv && Between(p.tv, s, p.sequent)
  }

  ghost predicate TidyInferences(rF: Sequent -> seq<InfApp>) {
    forall s, k, j :: 0 <= k < |rF(s)| && 0 <= j < |rF(s)[k].premises| ==> TidyPremise(s, rF(s)[k].premises[j])
  }

  predicate TidyMatch(s: Sequent, s': Sequent, ps: Pairs) {
    EqualUpToTags(s, s') && Between(ps, s, s')
  }

  ghost predicate TidyMatches(brF: Matcher) {
    forall s, s', k :: 0 <= k < |brF(s, s')| ==> TidyMatch(s, s', brF(s, s')[k].0)
  }

  ghost predicate TidySelector(selF: Selector) {
    forall i, prf, k :: ProofOk(prf) && i in prf && 0 <= k < |selF(i, prf)| ==> selF(i, prf)[k] in prf
  }

  /** The functions plugged into a rule keep to tags, and point to nodes of the proof. */
  ghost predicate TidyTactic(t: Tactic)
    decreases t
  {
    match t
    case AxiomRule(_) => true
    case InfRule(rF) => TidyInferences(rF)
    case BackRule(_, selF, brF) => TidySelector(selF) && TidyMatches(brF)
    case FailRule => true
    case IdentityRule => true
    case AttemptRule(t1) => TidyTactic(t1)
    case ComposeRule(t1, t2) => TidyTactic(t1) && TidyTactic(t2)
    case ComposePairwiseRule(t1, ts) => TidyTactic(t1) && forall u :: u in ts ==> TidyTactic(u)
    case ChoiceRule(ts) => forall u :: u in ts ==> TidyTactic(u)
    case FirstRule(ts) => forall u :: u in ts ==> TidyTactic(u)
    case SequenceRule(ts) => forall u :: u in ts ==> TidyTactic(u)
    case ConditionalRule(_, t1) => TidyTactic(t1)
  }

  /** One node changed, others added as leaves: tags stay in order if the changed node's do. */
  lemma StillTagged(prf: Proof, prf': Proof, idx: int)
    requires ProofOk(prf) && Tagged(prf) && ProofOk(prf') && idx in prf && Extends(prf, prf')
    requires forall i :: i in prf && i != idx ==> i in prf' && prf'[i].node == prf[i].node
    requires forall i :: i in prf' && i !in prf ==> prf'[i].node.Open?
    requires idx in prf' && NodeOk(Abstract(prf'), Abstract(prf')[idx])
    ensures Tagged(prf')
  {
    var g, g' := Abstract(prf), Abstract(prf');
    forall i | i in g'
      ensures NodeOk(g', g'[i])
    {
      if i in prf && i != idx {
        assert NodeOk(g, g[i]) && g'[i] == g[i];
        forall k | 0 <= k < |g[i].subg|
          ensures EdgeOk(g', g[i].tags, g[i].subg[k])
        {
          var e := g[i].subg[k];
          assert EdgeOk(g, g[i].tags, e);
          assert Kept(prf, prf', e.goal);
        }
      }
    }
  }

  lemma AxiomTagged(idx: int, descr: string, prf: Proof)
    requires ProofOk(prf) && Tagged(prf) && CanAdd(prf, idx)
    ensures Tagged(AddAxiom(idx, descr, prf).value)
  {
    assert Abstract(AddAxiom(idx, descr, prf).value) == Abstract(prf);
  }

  lemma BacklinkTagged(idx: int, descr: string, target: int, vtts: Pairs, prf: Proof)
    requires ProofOk(prf) && Tagged(prf) && AddBacklink(idx, descr, target, vtts, prf).Ok?
    requires Between(vtts, prf[idx].node.sequent, prf[target].node.sequent)
    ensures Tagged(AddBacklink(idx, descr, target, vtts, prf).value)
  {
    var prf' := AddBacklink(idx, descr, target, vtts, prf).value;
    ReplaceOk(prf, idx, prf'[idx].node);
    assert Kept(prf, prf', target);
    StillTagged(prf, prf', idx);
  }

  lemma InfEdgesOk(idx: int, descr: string, subgoals: seq<Premise>, prf: Proof)
    requires ProofOk(prf) && CanAdd(prf, idx) && ShapesOk(AddInf(idx, descr, subgoals, prf).value.1)
    requires forall j :: 0 <= j < |subgoals| ==> TidyPremise(prf[idx].node.sequent, subgoals[j])
    ensures var g' := Abstract(AddInf(idx, descr, subgoals, prf).value.1); idx in g' && NodeOk(g', g'[idx])
  {
    var prf', from := AddInf(idx, descr, subgoals, prf).value.1, FreshIdx(prf);
    var g', n := Abstract(prf'), prf'[idx].node;
    forall k | 0 <= k < |g'[idx].subg|
      ensures EdgeOk(g', g'[idx].tags, g'[idx].subg[k])
    {
      assert TidyPremise(prf[idx].node.sequent, subgoals[k]);
      assert n.succs[k] == from + k && n.tagpairs2[k] == (subgoals[k].tv, subgoals[k].tp);
      assert prf'[from + k].node == Open(subgoals[k].sequent);
    }
  }

  lemma InfTagged(idx: int, descr: string, subgoals: seq<Premise>, prf: Proof)
    requires ProofOk(prf) && Tagged(prf) && CanAdd(prf, idx)
    requires forall j :: 0 <= j < |subgoals| ==> TidyPremise(prf[idx].node.sequent, subgoals[j])
    ensures Tagged(AddInf(idx, descr, subgoals, prf).value.1)
  {
    var prf' := AddInf(idx, descr, subgoals, prf).value.1;
    AddInfProofOk(idx, descr, subgoals, prf);
    AddInfReopens(idx, descr, subgoals, prf);
    AddInfOthers(idx, descr, subgoals, prf);
    InfEdgesOk(idx, descr, subgoals, prf);
    StillTagged(prf, prf', idx);
  }

  lemma {:induction false} MapInfTotal(apps: seq<InfApp>, idx: int, prf: Proof)
    requires ProofOk(prf) && Tagged(prf) && CanAdd(prf, idx)
    requires forall k, j :: 0 <= k < |apps| && 0 <= j < |apps[k].premises| ==>
               TidyPremise(prf[idx].node.sequent, apps[k].premises[j])
    ensures TotalApps(MapInf(apps, idx, prf), TaggedProperty())
  {
    if apps != [] {
      InfTagged(idx, apps[0].descr, apps[0].premises, prf);
      MapInfTotal(apps[1..], idx, prf);
    }
  }

  lemma {:induction false} LinksToTotal(links: seq<(Pairs, string)>, src: int, trg: int, prf: Proof)
    requires ProofOk(prf) && Tagged(prf) && CanAdd(prf, src) && trg in prf
    requires forall k :: 0 <= k < |links| ==> TidyMatch(prf[src].node.sequent, prf[trg].node.sequent, links[k].0)
    ensures TotalApps(LinksTo(links, src, trg, prf), TaggedProperty())
  {
    if links != [] {
      BacklinkTagged(src, links[0].1, trg, links[0].0, prf);
      LinksToTotal(links[1..], src, trg, prf);
    }
  }

  lemma {:induction false} AllLinksTotal(brF: Matcher, src: int, trgs: seq<int>, prf: Proof)
    requires ProofOk(prf) && Tagged(prf) && CanAdd(prf, src) && TidyMatches(brF)
    requires forall k :: 0 <= k < |trgs| ==> trgs[k] in prf
    ensures TotalApps(AllLinks(brF, src, trgs, prf), TaggedProperty())
  {
    if trgs != [] {
      var s, s' := prf[src].node.sequent, prf[trgs[0]].node.sequent;
      forall k | 0 <= k < |brF(s, s')|
        ensures TidyMatch(s, s', brF(s, s')[k].0)
      {
      }
      LinksToTotal(brF(s, s'), src, trgs[0], prf);
      AllLinksTotal(brF, src, trgs[1..], prf);
    }
  }

  lemma CheckTotal(check: Check, prf: Proof)
    requires CheckCorrect(check) && ProofOk(prf) && Tagged(prf)
    ensures CheckProof(check, prf).Ok?
  {
    AbstractSimple(prf);
  }

  lemma {:induction false} CheckedTotal(check: Check, apps: seq<App>)
    requires CheckCorrect(check) && forall a :: a in apps ==> ProofOk(a.prf) && Tagged(a.prf)
    ensures TotalApps(FilterChecked(check, apps), TaggedProperty())
    ensures TotalApps(FirstChecked(check, apps), TaggedProperty())
  {
    if apps != [] {
      assert apps[0] in apps;
      CheckTotal(check, apps[0].prf);
      CheckedTotal(check, apps[1..]);
    }
  }

  lemma BackruleTotal(greedy: bool, selF: Selector, brF: Matcher, check: Check, src: int, prf: Proof)
    requires CheckCorrect(check) && TidySelector(selF) && TidyMatches(brF)
    requires ProofOk(prf) && Tagged(prf) && CanAdd(prf, src)
    ensures TotalApps(MkBackrule(greedy, selF, brF, check, src, prf), TaggedProperty())
  {
    AllLinksTotal(brF, src, selF(src, prf), prf);
    AllLinksGood(NoModels(), brF, src, selF(src, prf), prf);
    var apps := AllLinks(brF, src, selF(src, prf), prf).value;
    forall a | a in apps
      ensures ProofOk(a.prf) && Tagged(a.prf)
    {
      var k :| 0 <= k < |apps| && apps[k] == a;
      assert Linking(NoModels(), prf, src, apps[k]);
    }
    CheckedTotal(check, apps);
  }

  lemma AxiomRuleFine(check: Check, axF: Sequent -> Option<string>)
    ensures Fine(RuleOf(check, AxiomRule(axF)), TaggedProperty())
  {
    AxiomsGood(check, axF);
    forall idx: int, prf: Proof | ProofOk(prf) && Tagged(prf) && CanAdd(prf, idx)
      ensures TotalAt(RuleOf(check, AxiomRule(axF)), TaggedProperty(), idx, prf)
    {
      var descr := axF(prf[idx].node.sequent);
      if descr.Some? {
        AxiomTagged(idx, descr.value, prf);
      }
    }
  }

  lemma InfRuleFine(check: Check, rF: Sequent -> seq<InfApp>)
    requires TidyInferences(rF)
    ensures Fine(RuleOf(check, InfRule(rF)), TaggedProperty())
  {
    InferencesGood(check, rF);
    forall idx: int, prf: Proof | ProofOk(prf) && Tagged(prf) && CanAdd(prf, idx)
      ensures TotalAt(RuleOf(check, InfRule(rF)), TaggedProperty(), idx, prf)
    {
      MapInfTotal(rF(prf[idx].node.sequent), idx, prf);
    }
  }

  lemma BackRuleFine(check: Check, greedy: bool, selF: Selector, brF: Matcher)
    requires CheckCorrect(check) && TidySelector(selF) && TidyMatches(brF)
    ensures Fine(RuleOf(check, BackRule(greedy, selF, brF)), TaggedProperty())
  {
    LinksGood(check, greedy, selF, brF);
    forall idx: int, prf: Proof | ProofOk(prf) && Tagged(prf) && CanAdd(prf, idx)
      ensures TotalAt(RuleOf(check, BackRule(greedy, selF, brF)), TaggedProperty(), idx, prf)
    {
      BackruleTotal(greedy, selF, brF, check, idx, prf);
    }
  }

  lemma {:induction false} TidyIsFine(check: Check, t: Tactic)
    requires CheckCorrect(check) && TidyTactic(t)
    ensures FineTactic(check, t, TaggedProperty())
    decreases t
  {
    match t
    case AxiomRule(axF) => AxiomRuleFine(check, axF);
    case InfRule(rF) => InfRuleFine(check, rF);
    case BackRule(greedy, selF, brF) => BackRuleFine(check, greedy, selF, brF);
    case FailRule =>
    case IdentityRule =>
    case AttemptRule(t1) => TidyIsFine(check, t1);
    case ComposeRule(t1, t2) =>
      TidyIsFine(check, t1);
      TidyIsFine(check, t2);
    case ComposePairwiseRule(t1, ts) =>
      TidyIsFine(check, t1);
      forall u | u in ts ensures FineTactic(check, u, TaggedProperty()) { TidyIsFine(check, u); }
    case ChoiceRule(ts) =>
      forall u | u in ts ensures FineTactic(check, u, TaggedProperty()) { TidyIsFine(check, u); }
    case FirstRule(ts) =>
      forall u | u in ts ensures FineTactic(check, u, TaggedProperty()) { TidyIsFine(check, u); }
    case SequenceRule(ts) =>
      forall u | u in ts ensures FineTactic(check, u, TaggedProperty()) { TidyIsFine(check, u); }
    case ConditionalRule(_, t1) => TidyIsFine(check, t1);
  }

  /** No rule built from tidy functions fails an assertion, at any open node of any proof whose tags are in order; and
      it keeps them in order. */
  lemma RulesNeverRaise(check: Check, t: Tactic, idx: int, prf: Proof)
    requires CheckCorrect(check) && TidyTactic(t) && ProofOk(prf) && Tagged(prf) && CanAdd(prf, idx)
    ensures Run(check, t, idx, prf).Ok?
    ensures forall a :: a in Run(check, t, idx, prf).value ==> ProofOk(a.prf) && Tagged(a.prf)
  {
    TidyIsFine(check, t);
    RunFine(check, t, idx, prf, TaggedProperty());
    var apps := Run(check, t, idx, prf).value;
    forall a | a in apps
      ensures ProofOk(a.prf) && Tagged(a.prf)
    {
      var k :| 0 <= k < |apps| && apps[k] == a;
      assert TaggedProperty()(a.prf);
    }
  }
}
