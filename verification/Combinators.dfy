/** Rules built from axioms, inferences and back-links, and what every such rule guarantees
    (src/generic/proofrule.ml). */
module Combinators {
  import opened Outcomes
  import opened TraceGraph
  import opened ProofTree
  import opened CyclicSoundness
  import opened Rules

  type Matcher = (Sequent, Sequent) -> seq<(Pairs, string)>
  type Selector = (int, Proof) -> seq<int>
  type Check = AbsProof -> Outcome<bool>

  // ---------- Basic rules ----------

  function MkAxiom(axF: Sequent -> Option<string>, idx: int, prf: Proof): Apps {
    if idx !in prf then Raised
    else match axF(prf[idx].node.sequent)
      case None => Ok([])
      case Some(descr) =>
        var prf' :- AddAxiom(idx, descr, prf);
        Ok([App([], prf')])
  }

  function MapInf(apps: seq<InfApp>, idx: int, prf: Proof): Apps {
    if apps == [] then Ok([])
    else
      var (subidxs, prf') :- AddInf(idx, apps[0].descr, apps[0].premises, prf);
      var rest :- MapInf(apps[1..], idx, prf);
      Ok([App(subidxs, prf')] + rest)
  }

  function MkInfrule(rF: Sequent -> seq<InfApp>, idx: int, prf: Proof): Apps {
    if idx !in prf then Raised else MapInf(rF(prf[idx].node.sequent), idx, prf)
  }

  function LinksTo(links: seq<(Pairs, string)>, src: int, trg: int, prf: Proof): Apps {
    if links == [] then Ok([])
    else
      var prf' :- AddBacklink(src, links[0].1, trg, links[0].0, prf);
      var rest :- LinksTo(links[1..], src, trg, prf);
      Ok([App([], prf')] + rest)
  }

  function AllLinks(brF: Matcher, src: int, trgs: seq<int>, prf: Proof): Apps
    requires src in prf
  {
    if trgs == [] then Ok([])
    else if trgs[0] !in prf then Raised
    else
      var first :- LinksTo(brF(prf[src].node.sequent, prf[trgs[0]].node.sequent), src, trgs[0], prf);
      var rest :- AllLinks(brF, src, trgs[1..], prf);
      Ok(first + rest)
  }

  /** `Proof.check`. */
  function CheckProof(check: Check, prf: Proof): Outcome<bool> {
    if !ShapesOk(prf) then Raised else check(Abstract(prf))
  }

  function FilterChecked(check: Check, apps: seq<App>): Apps {
    if apps == [] then Ok([])
    else
      var sound :- CheckProof(check, apps[0].prf);
      var rest :- FilterChecked(check, apps[1..]);
      Ok(if sound then [apps[0]] + rest else rest)
  }

  function FirstChecked(check: Check, apps: seq<App>): Apps {
    if apps == [] then Ok([])
    else
      var sound :- CheckProof(check, apps[0].prf);
      if sound then Ok([apps[0]]) else FirstChecked(check, apps[1..])
  }

  function MkBackrule(greedy: bool, selF: Selector, brF: Matcher, check: Check, src: int, prf: Proof): Apps {
    if src !in prf then Raised
    else
      var apps :- AllLinks(brF, src, selF(src, prf), prf);
      if greedy then FirstChecked(check, apps) else FilterChecked(check, apps)
  }

  // ---------- Combinators ----------

  function Prefixed(earlier: seq<int>, apps: seq<App>): (r: seq<App>)
    ensures |r| == |apps|
    ensures forall k :: 0 <= k < |r| ==> r[k] == App(earlier + apps[k].goals, apps[k].prf)
  {
    seq(|apps|, k requires 0 <= k < |apps| => App(earlier + apps[k].goals, apps[k].prf))
  }

  /** Apply `r` to the node `idx` of every application, keeping the subgoals opened before. */
  function ApplyToAll(r: Rule, idx: int, apps: seq<App>): Apps {
    if apps == [] then Ok([])
    else
      var added :- r(idx, apps[0].prf);
      var rest :- ApplyToAll(r, idx, apps[1..]);
      Ok(Prefixed(apps[0].goals, added) + rest)
  }

  /** The fold over rules and subgoals; a length mismatch yields no application. */
  function FoldPairwise(apps: seq<App>, rules: seq<Rule>, goals: seq<int>): Apps
    decreases |goals|
  {
    if rules == [] && goals == [] then Ok(apps)
    else if rules == [] || goals == [] then Ok([])
    else
      var apps' :- ApplyToAll(rules[0], goals[0], apps);
      FoldPairwise(apps', rules[1..], goals[1..])
  }

  function ApplyToSubgoalsPairwise(rules: seq<Rule>, app: App): Apps {
    FoldPairwise([App([], app.prf)], rules, app.goals)
  }

  function BindPairwise(rules: App -> seq<Rule>, apps: seq<App>): Apps {
    if apps == [] then Ok([])
    else
      var first :- ApplyToSubgoalsPairwise(rules(apps[0]), apps[0]);
      var rest :- BindPairwise(rules, apps[1..]);
      Ok(first + rest)
  }

  function Compose(r: Rule, r': Rule, idx: int, prf: Proof): Apps {
    var apps :- r(idx, prf);
    BindPairwise((a: App) => seq(|a.goals|, _ => r'), apps)
  }

  function ComposePairwise(r: Rule, rs: seq<Rule>, idx: int, prf: Proof): Apps {
    var apps :- r(idx, prf);
    BindPairwise((a: App) => rs, apps)
  }

  function Choice(rl: seq<Rule>, idx: int, prf: Proof): Apps {
    if rl == [] then Ok([])
    else
      var first :- rl[0](idx, prf);
      var rest :- Choice(rl[1..], idx, prf);
      Ok(first + rest)
  }

  function First(rl: seq<Rule>, idx: int, prf: Proof): Apps {
    if rl == [] then Ok([])
    else
      var apps :- rl[0](idx, prf);
      if apps != [] then Ok(apps) else First(rl[1..], idx, prf)
  }

  function Identity(idx: int, prf: Proof): Apps {
    Ok([App([idx], prf)])
  }

  function Attempt(r: Rule, idx: int, prf: Proof): Apps {
    var apps :- r(idx, prf);
    if apps != [] then Ok(apps) else Identity(idx, prf)
  }

  function Conditional(cond: Sequent -> bool, r: Rule, idx: int, prf: Proof): Apps {
    if idx !in prf then Raised
    else if cond(prf[idx].node.sequent) then r(idx, prf)
    else Ok([])
  }

  // ---------- Composing evolutions ----------

  lemma ReopensStep(a: Proof, gone: set<int>, earlier: seq<int>, i: int, rest: seq<int>, b: Proof, added: seq<int>, c: Proof)
    requires Reopens(a, gone, earlier + ([i] + rest), b)
    requires Reopens(b, {i}, added, c)
    ensures Reopens(a, gone, earlier + added + rest, c)
  {
    var s := earlier + ([i] + rest);
    assert forall k :: 0 <= k < |earlier| ==> earlier[k] == s[k];
    assert s[|earlier|] == i;
    assert forall k :: 0 <= k < |rest| ==> rest[k] == s[|earlier| + 1 + k];
    assert i in Elems(s) && Elems(s) == Elems(earlier) + {i} + Elems(rest);
    assert Elems(earlier + added + rest) == Elems(earlier) + Elems(added) + Elems(rest);
    assert i !in Elems(earlier) && i !in Elems(rest);
    var t := earlier + added + rest;
    forall j, k | 0 <= j < k < |t|
      ensures t[j] != t[k]
    {
      assert t[j] in (if j < |earlier| then Elems(earlier) else if j < |earlier| + |added| then Elems(added) else Elems(rest));
      assert t[k] in (if k < |earlier| then Elems(earlier) else if k < |earlier| + |added| then Elems(added) else Elems(rest));
    }
  }

  lemma EvolvesStep<M(!new)>(sem: Semantics<M>, a: Proof, gone: set<int>, earlier: seq<int>, i: int, rest: seq<int>,
                             b: Proof, added: seq<int>, c: Proof)
    requires ProofOk(a) && Evolves(sem, a, gone, earlier + ([i] + rest), b)
    requires Evolves(sem, b, {i}, added, c)
    ensures Evolves(sem, a, gone, earlier + added + rest, c)
  {
    ReopensStep(a, gone, earlier, i, rest, b, added, c);
    forall k | k in a
      ensures Kept(a, c, k)
    {
      assert Kept(a, b, k) && Kept(b, c, k);
    }
  }

  // ---------- The basic rules are good ----------

  ghost predicate SoundAxioms<M(!new)>(sem: Semantics<M>, axF: Sequent -> Option<string>) {
    forall s :: axF(s).Some? ==> SoundStep(sem, s, [])
  }

  ghost predicate SoundInferences<M(!new)>(sem: Semantics<M>, rF: Sequent -> seq<InfApp>) {
    forall s, k :: 0 <= k < |rF(s)| ==> SoundStep(sem, s, rF(s)[k].premises)
  }

  ghost predicate SoundMatches<M(!new)>(sem: Semantics<M>, brF: Matcher) {
    forall s, s', k :: 0 <= k < |brF(s, s')| ==> SoundStep(sem, s, [Premise(s', brF(s, s')[k].0, {})])
  }

  /** What the soundness checker guarantees of a graph with distinct successors, from root 0. */
  ghost predicate CheckCorrect(check: Check) {
    forall g :: Simple(g) && 0 in g ==>
      if WellFormed(g, 0) then check(g).Ok? && (check(g).value <==> GTC(g, 0)) else check(g).Raised?
  }

  lemma MkAxiomGood<M(!new)>(sem: Semantics<M>, axF: Sequent -> Option<string>, idx: int, prf: Proof)
    requires SoundAxioms(sem, axF) && ProofOk(prf) && CanAdd(prf, idx)
    ensures GoodApps(sem, prf, idx, MkAxiom(axF, idx, prf))
  {
    match axF(prf[idx].node.sequent)
    case None =>
    case Some(descr) => AddAxiomEvolves(sem, idx, descr, prf);
  }

  lemma {:induction false} MapInfGood<M(!new)>(sem: Semantics<M>, apps: seq<InfApp>, idx: int, prf: Proof)
    requires ProofOk(prf) && CanAdd(prf, idx)
    requires forall k :: 0 <= k < |apps| ==> SoundStep(sem, prf[idx].node.sequent, apps[k].premises)
    ensures GoodApps(sem, prf, idx, MapInf(apps, idx, prf))
  {
    if apps != [] {
      AddInfEvolves(sem, idx, apps[0].descr, apps[0].premises, prf);
      MapInfGood(sem, apps[1..], idx, prf);
    }
  }

  /** Back-links of `src` that may still break the trace condition. */
  ghost predicate Linking<M(!new)>(sem: Semantics<M>, prf: Proof, src: int, app: App)
    requires ProofOk(prf)
  {
    ProofOk(app.prf) && (GTC(Abstract(app.prf), 0) ==> Evolves(sem, prf, {src}, app.goals, app.prf))
  }

  ghost predicate AllLinking<M(!new)>(sem: Semantics<M>, prf: Proof, src: int, apps: Apps)
    requires ProofOk(prf)
  {
    apps.Ok? ==> forall k :: 0 <= k < |apps.value| ==> Linking(sem, prf, src, apps.value[k])
  }

  lemma {:induction false} LinksToGood<M(!new)>(sem: Semantics<M>, links: seq<(Pairs, string)>, src: int, trg: int, prf: Proof)
    requires ProofOk(prf) && CanAdd(prf, src) && trg in prf
    requires forall k :: 0 <= k < |links| ==>
               SoundStep(sem, prf[src].node.sequent, [Premise(prf[trg].node.sequent, links[k].0, {})])
    ensures AllLinking(sem, prf, src, LinksTo(links, src, trg, prf))
  {
    if links != [] && AddBacklink(src, links[0].1, trg, links[0].0, prf).Ok? {
      AddBacklinkEvolves(sem, src, links[0].1, trg, links[0].0, prf);
      LinksToGood(sem, links[1..], src, trg, prf);
    }
  }

  lemma {:induction false} AllLinksGood<M(!new)>(sem: Semantics<M>, brF: Matcher, src: int, trgs: seq<int>, prf: Proof)
    requires SoundMatches(sem, brF) && ProofOk(prf) && CanAdd(prf, src)
    ensures AllLinking(sem, prf, src, AllLinks(brF, src, trgs, prf))
  {
    if trgs != [] && trgs[0] in prf {
      var links := brF(prf[src].node.sequent, prf[trgs[0]].node.sequent);
      LinksToGood(sem, links, src, trgs[0], prf);
      AllLinksGood(sem, brF, src, trgs[1..], prf);
    }
  }

  /** The check turns a possible link into a good application. */
  lemma CheckedLink<M(!new)>(sem: Semantics<M>, check: Check, prf: Proof, src: int, app: App)
    requires CheckCorrect(check) && ProofOk(prf) && Linking(sem, prf, src, app)
    requires CheckProof(check, app.prf) == Ok(true)
    ensures Evolves(sem, prf, {src}, app.goals, app.prf)
  {
    AbstractSimple(app.prf);
    assert check(Abstract(app.prf)) == Ok(true);
  }

  lemma ConsGood<M(!new)>(sem: Semantics<M>, prf: Proof, src: int, app: App, rest: seq<App>)
    requires ProofOk(prf) && Evolves(sem, prf, {src}, app.goals, app.prf) && GoodApps(sem, prf, src, Ok(rest))
    ensures GoodApps(sem, prf, src, Ok([app] + rest)) && GoodApps(sem, prf, src, Ok([app]))
  {
  }

  lemma {:induction false} FilterCheckedGood<M(!new)>(sem: Semantics<M>, check: Check, prf: Proof, src: int, apps: seq<App>)
    requires CheckCorrect(check) && ProofOk(prf) && AllLinking(sem, prf, src, Ok(apps))
    ensures GoodApps(sem, prf, src, FilterChecked(check, apps))
    ensures GoodApps(sem, prf, src, FirstChecked(check, apps))
  {
    if apps != [] {
      FilterCheckedGood(sem, check, prf, src, apps[1..]);
      if CheckProof(check, apps[0].prf) == Ok(true) {
        CheckedLink(sem, check, prf, src, apps[0]);
        ConsGood(sem, prf, src, apps[0], []);
        if FilterChecked(check, apps[1..]).Ok? {
          ConsGood(sem, prf, src, apps[0], FilterChecked(check, apps[1..]).value);
        }
      }
    }
  }

  lemma MkBackruleGood<M(!new)>(sem: Semantics<M>, greedy: bool, selF: Selector, brF: Matcher, check: Check, src: int, prf: Proof)
    requires SoundMatches(sem, brF) && CheckCorrect(check) && ProofOk(prf) && CanAdd(prf, src)
    ensures GoodApps(sem, prf, src, MkBackrule(greedy, selF, brF, check, src, prf))
  {
    AllLinksGood(sem, brF, src, selF(src, prf), prf);
    var links := AllLinks(brF, src, selF(src, prf), prf);
    if links.Ok? {
      FilterCheckedGood(sem, check, prf, src, links.value);
    }
  }

  // ---------- The combinators keep rules good ----------

  /** Every application still has `goals` to deal with. */
  ghost predicate AllEvolve<M(!new)>(sem: Semantics<M>, prf: Proof, gone: set<int>, apps: seq<App>, goals: seq<int>)
    requires ProofOk(prf)
  {
    forall k :: 0 <= k < |apps| ==> Evolves(sem, prf, gone, apps[k].goals + goals, apps[k].prf)
  }

  lemma PrefixedGood<M(!new)>(sem: Semantics<M>, prf: Proof, gone: set<int>, r: Rule, idx: int, rest: seq<int>, app: App)
    requires GoodRule(sem, r) && ProofOk(prf)
    requires Evolves(sem, prf, gone, app.goals + ([idx] + rest), app.prf)
    ensures r(idx, app.prf).Ok? ==> AllEvolve(sem, prf, gone, Prefixed(app.goals, r(idx, app.prf).value), rest)
  {
    assert (app.goals + ([idx] + rest))[|app.goals|] == idx;
    assert idx in Elems(app.goals + ([idx] + rest));
    assert idx in Opens(app.prf);
    assert GoodApps(sem, app.prf, idx, r(idx, app.prf));
    if r(idx, app.prf).Ok? {
      var added := r(idx, app.prf).value;
      forall k | 0 <= k < |added|
        ensures Evolves(sem, prf, gone, app.goals + added[k].goals + rest, added[k].prf)
      {
        EvolvesStep(sem, prf, gone, app.goals, idx, rest, app.prf, added[k].goals, added[k].prf);
      }
    }
  }

  lemma {:induction false} ApplyToAllGood<M(!new)>(sem: Semantics<M>, prf: Proof, gone: set<int>, r: Rule, idx: int,
                                                   rest: seq<int>, apps: seq<App>)
    requires GoodRule(sem, r) && ProofOk(prf)
    requires AllEvolve(sem, prf, gone, apps, [idx] + rest)
    ensures var res := ApplyToAll(r, idx, apps); res.Ok? ==> AllEvolve(sem, prf, gone, res.value, rest)
  {
    if apps != [] {
      PrefixedGood(sem, prf, gone, r, idx, rest, apps[0]);
      ApplyToAllGood(sem, prf, gone, r, idx, rest, apps[1..]);
    }
  }

  ghost predicate AllGood<M(!new)>(sem: Semantics<M>, rules: seq<Rule>) {
    forall k :: 0 <= k < |rules| ==> GoodRule(sem, rules[k])
  }

  lemma {:induction false} FoldPairwiseGood<M(!new)>(sem: Semantics<M>, prf: Proof, gone: set<int>, apps: seq<App>,
                                                     rules: seq<Rule>, goals: seq<int>)
    requires AllGood(sem, rules) && ProofOk(prf)
    requires AllEvolve(sem, prf, gone, apps, goals)
    ensures var res := FoldPairwise(apps, rules, goals); res.Ok? ==> AllEvolve(sem, prf, gone, res.value, [])
    decreases |goals|
  {
    if rules != [] && goals != [] {
      assert goals == [goals[0]] + goals[1..];
      ApplyToAllGood(sem, prf, gone, rules[0], goals[0], goals[1..], apps);
      var apps' := ApplyToAll(rules[0], goals[0], apps);
      if apps'.Ok? {
        FoldPairwiseGood(sem, prf, gone, apps'.value, rules[1..], goals[1..]);
      }
    }
  }

  lemma PairwiseGood<M(!new)>(sem: Semantics<M>, prf: Proof, idx: int, rules: seq<Rule>, app: App)
    requires AllGood(sem, rules) && ProofOk(prf)
    requires Evolves(sem, prf, {idx}, app.goals, app.prf)
    ensures GoodApps(sem, prf, idx, ApplyToSubgoalsPairwise(rules, app))
  {
    assert [] + app.goals == app.goals;
    FoldPairwiseGood(sem, prf, {idx}, [App([], app.prf)], rules, app.goals);
    var res := ApplyToSubgoalsPairwise(rules, app);
    if res.Ok? {
      forall k | 0 <= k < |res.value|
        ensures Evolves(sem, prf, {idx}, res.value[k].goals, res.value[k].prf)
      {
        assert res.value[k].goals + [] == res.value[k].goals;
      }
    }
  }

  lemma {:induction false} BindPairwiseGood<M(!new)>(
    sem: Semantics<M>, prf: Proof, idx: int, rules: App -> seq<Rule>, apps: seq<App>
  )
    requires ProofOk(prf) && GoodApps(sem, prf, idx, Ok(apps))
    requires forall a :: AllGood(sem, rules(a))
    ensures GoodApps(sem, prf, idx, BindPairwise(rules, apps))
  {
    if apps != [] {
      PairwiseGood(sem, prf, idx, rules(apps[0]), apps[0]);
      BindPairwiseGood(sem, prf, idx, rules, apps[1..]);
    }
  }

  lemma ComposeGood<M(!new)>(sem: Semantics<M>, r: Rule, r': Rule, idx: int, prf: Proof)
    requires GoodRule(sem, r) && GoodRule(sem, r') && ProofOk(prf) && CanAdd(prf, idx)
    ensures GoodApps(sem, prf, idx, Compose(r, r', idx, prf))
  {
    assert GoodApps(sem, prf, idx, r(idx, prf));
    var rules := (a: App) => seq(|a.goals|, _ => r');
    if r(idx, prf).Ok? {
      BindPairwiseGood(sem, prf, idx, rules, r(idx, prf).value);
      assert Compose(r, r', idx, prf) == BindPairwise(rules, r(idx, prf).value);
    }
  }

  lemma ComposePairwiseGood<M(!new)>(sem: Semantics<M>, r: Rule, rs: seq<Rule>, idx: int, prf: Proof)
    requires GoodRule(sem, r) && AllGood(sem, rs) && ProofOk(prf) && CanAdd(prf, idx)
    ensures GoodApps(sem, prf, idx, ComposePairwise(r, rs, idx, prf))
  {
    assert GoodApps(sem, prf, idx, r(idx, prf));
    var rules := (a: App) => rs;
    if r(idx, prf).Ok? {
      BindPairwiseGood(sem, prf, idx, rules, r(idx, prf).value);
      assert ComposePairwise(r, rs, idx, prf) == BindPairwise(rules, r(idx, prf).value);
    }
  }

  lemma {:induction false} ChoiceGood<M(!new)>(sem: Semantics<M>, rl: seq<Rule>, idx: int, prf: Proof)
    requires AllGood(sem, rl) && ProofOk(prf) && CanAdd(prf, idx)
    ensures GoodApps(sem, prf, idx, Choice(rl, idx, prf))
    ensures GoodApps(sem, prf, idx, First(rl, idx, prf))
  {
    if rl != [] {
      assert GoodApps(sem, prf, idx, rl[0](idx, prf));
      ChoiceGood(sem, rl[1..], idx, prf);
    }
  }

  lemma IdentityGood<M(!new)>(sem: Semantics<M>, idx: int, prf: Proof)
    requires ProofOk(prf) && CanAdd(prf, idx)
    ensures GoodApps(sem, prf, idx, Identity(idx, prf))
  {
    assert Opens(prf) == (Opens(prf) - {idx}) + Elems([idx]);
  }

  lemma AttemptGood<M(!new)>(sem: Semantics<M>, r: Rule, idx: int, prf: Proof)
    requires GoodRule(sem, r) && ProofOk(prf) && CanAdd(prf, idx)
    ensures GoodApps(sem, prf, idx, Attempt(r, idx, prf))
  {
    assert GoodApps(sem, prf, idx, r(idx, prf));
    IdentityGood(sem, idx, prf);
  }

  // ---------- Every rule that can be built ----------

  /** The rules that the constructors of the rule module can express. */
  datatype Tactic =
    | AxiomRule(axF: Sequent -> Option<string>)
    | InfRule(rF: Sequent -> seq<InfApp>)
    | BackRule(greedy: bool, selF: Selector, brF: Matcher)
    | FailRule
    | IdentityRule
    | AttemptRule(t: Tactic)
    | ComposeRule(t: Tactic, t': Tactic)
    | ComposePairwiseRule(t: Tactic, ts: seq<Tactic>)
    | ChoiceRule(ts: seq<Tactic>)
    | FirstRule(ts: seq<Tactic>)
    | SequenceRule(ts: seq<Tactic>)
    | ConditionalRule(cond: Sequent -> bool, t: Tactic)

  function Run(check: Check, t: Tactic, idx: int, prf: Proof): Apps
    decreases t, 0
  {
    match t
    case AxiomRule(axF) => MkAxiom(axF, idx, prf)
    case InfRule(rF) => MkInfrule(rF, idx, prf)
    case BackRule(greedy, selF, brF) => MkBackrule(greedy, selF, brF, check, idx, prf)
    case FailRule => Ok([])
    case IdentityRule => Identity(idx, prf)
    case AttemptRule(t1) => Attempt(RuleOf(check, t1), idx, prf)
    case ComposeRule(t1, t2) => Compose(RuleOf(check, t1), RuleOf(check, t2), idx, prf)
    case ComposePairwiseRule(t1, ts) => ComposePairwise(RuleOf(check, t1), RulesOf(check, ts), idx, prf)
    case ChoiceRule(ts) => Choice(RulesOf(check, ts), idx, prf)
    case FirstRule(ts) => First(RulesOf(check, ts), idx, prf)
    case SequenceRule(ts) => SequenceOf(check, ts)(idx, prf)
    case ConditionalRule(cond, t1) => Conditional(cond, RuleOf(check, t1), idx, prf)
  }

  function RuleOf(check: Check, t: Tactic): Rule
    decreases t, 1
  {
    (idx: int, prf: Proof) => Run(check, t, idx, prf)
  }

  function RulesOf(check: Check, ts: seq<Tactic>): (rs: seq<Rule>)
    ensures |rs| == |ts|
    decreases ts, 2
  {
    if ts == [] then [] else [RuleOf(check, ts[0])] + RulesOf(check, ts[1..])
  }

  function SequenceOf(check: Check, ts: seq<Tactic>): Rule
    decreases ts, 2
  {
    if ts == [] then (idx: int, prf: Proof) => Identity(idx, prf)
    else
      var r, rest := RuleOf(check, ts[0]), SequenceOf(check, ts[1..]);
      (idx: int, prf: Proof) => Compose(r, rest, idx, prf)
  }

  /** The functions plugged into a rule are locally sound. */
  ghost predicate SoundTactic<M(!new)>(sem: Semantics<M>, t: Tactic)
    decreases t
  {
    match t
    case AxiomRule(axF) => SoundAxioms(sem, axF)
    case InfRule(rF) => SoundInferences(sem, rF)
    case BackRule(_, _, brF) => SoundMatches(sem, brF)
    case FailRule => true
    case IdentityRule => true
    case AttemptRule(t1) => SoundTactic(sem, t1)
    case ComposeRule(t1, t2) => SoundTactic(sem, t1) && SoundTactic(sem, t2)
    case ComposePairwiseRule(t1, ts) => SoundTactic(sem, t1) && forall u :: u in ts ==> SoundTactic(sem, u)
    case ChoiceRule(ts) => forall u :: u in ts ==> SoundTactic(sem, u)
    case FirstRule(ts) => forall u :: u in ts ==> SoundTactic(sem, u)
    case SequenceRule(ts) => forall u :: u in ts ==> SoundTactic(sem, u)
    case ConditionalRule(_, t1) => SoundTactic(sem, t1)
  }

  lemma {:induction false} RunGood<M(!new)>(sem: Semantics<M>, check: Check, t: Tactic, idx: int, prf: Proof)
    requires CheckCorrect(check) && SoundTactic(sem, t) && ProofOk(prf) && CanAdd(prf, idx)
    ensures GoodApps(sem, prf, idx, Run(check, t, idx, prf))
    decreases t, 0
  {
    match t
    case AxiomRule(axF) =>
      MkAxiomGood(sem, axF, idx, prf);
    case InfRule(rF) =>
      MapInfGood(sem, rF(prf[idx].node.sequent), idx, prf);
    case BackRule(greedy, selF, brF) =>
      MkBackruleGood(sem, greedy, selF, brF, check, idx, prf);
    case FailRule =>
    case IdentityRule =>
      IdentityGood(sem, idx, prf);
    case AttemptRule(t1) =>
      TacticsAreGood(sem, check, t1);
      AttemptGood(sem, RuleOf(check, t1), idx, prf);
    case ComposeRule(t1, t2) =>
      TacticsAreGood(sem, check, t1);
      TacticsAreGood(sem, check, t2);
      ComposeGood(sem, RuleOf(check, t1), RuleOf(check, t2), idx, prf);
    case ComposePairwiseRule(t1, ts) =>
      TacticsAreGood(sem, check, t1);
      AllTacticsGood(sem, check, ts);
      ComposePairwiseGood(sem, RuleOf(check, t1), RulesOf(check, ts), idx, prf);
    case ChoiceRule(ts) =>
      AllTacticsGood(sem, check, ts);
      ChoiceGood(sem, RulesOf(check, ts), idx, prf);
    case FirstRule(ts) =>
      AllTacticsGood(sem, check, ts);
      ChoiceGood(sem, RulesOf(check, ts), idx, prf);
    case SequenceRule(ts) =>
      SequenceGood(sem, check, ts);
    case ConditionalRule(cond, t1) =>
      RunGood(sem, check, t1, idx, prf);
  }

  /** Whatever is built from the basic rules keeps the trace condition, replaces exactly the given
      open node by its subgoals, and keeps every node locally sound. */
  lemma TacticsAreGood<M(!new)>(sem: Semantics<M>, check: Check, t: Tactic)
    requires CheckCorrect(check) && SoundTactic(sem, t)
    ensures GoodRule(sem, RuleOf(check, t))
    decreases t, 1
  {
    forall idx, prf | ProofOk(prf) && CanAdd(prf, idx)
      ensures GoodApps(sem, prf, idx, RuleOf(check, t)(idx, prf))
    {
      RunGood(sem, check, t, idx, prf);
    }
  }

  lemma {:induction false} AllTacticsGood<M(!new)>(sem: Semantics<M>, check: Check, ts: seq<Tactic>)
    requires CheckCorrect(check) && forall u :: u in ts ==> SoundTactic(sem, u)
    ensures AllGood(sem, RulesOf(check, ts))
    decreases ts, 2
  {
    if ts != [] {
      TacticsAreGood(sem, check, ts[0]);
      AllTacticsGood(sem, check, ts[1..]);
    }
  }

  lemma {:induction false} SequenceGood<M(!new)>(sem: Semantics<M>, check: Check, ts: seq<Tactic>)
    requires CheckCorrect(check) && forall u :: u in ts ==> SoundTactic(sem, u)
    ensures GoodRule(sem, SequenceOf(check, ts))
    decreases ts, 2
  {
    if ts != [] {
      TacticsAreGood(sem, check, ts[0]);
      SequenceGood(sem, check, ts[1..]);
    }
    forall idx, prf | ProofOk(prf) && CanAdd(prf, idx)
      ensures GoodApps(sem, prf, idx, SequenceOf(check, ts)(idx, prf))
    {
      if ts == [] {
        IdentityGood(sem, idx, prf);
      } else {
        ComposeGood(sem, RuleOf(check, ts[0]), SequenceOf(check, ts[1..]), idx, prf);
      }
    }
  }
}
