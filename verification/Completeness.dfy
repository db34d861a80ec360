/** What depth-first search finds (src/generic/prover.ml): with rules that make no back-links, exactly the derivable
    sequents. */
module Completeness {
  import opened Outcomes
  import opened ProofTree
  import opened Rules
  import opened Combinators
  import opened Prover
  import opened Totality

  // ---------- Rules as inferences between sequents ----------

  /** The ways of inferring a sequent, each as the sequents it is inferred from. */
  type Inference = Sequent -> seq<seq<Sequent>>

  function After(ps: seq<Sequent>, ways: seq<seq<Sequent>>): (r: seq<seq<Sequent>>)
    ensures |r| == |ways|
    ensures forall k :: 0 <= k < |r| ==> r[k] == ps + ways[k]
  {
    seq(|ways|, k requires 0 <= k < |ways| => ps + ways[k])
  }

  function AfterEach(pss: seq<seq<Sequent>>, ways: seq<seq<Sequent>>): seq<seq<Sequent>> {
    if pss == [] then [] else After(pss[0], ways) + AfterEach(pss[1..], ways)
  }

  /** One inference for each sequent; there is none if the numbers differ. */
  function InferEach(pss: seq<seq<Sequent>>, fs: seq<Inference>, ss: seq<Sequent>): seq<seq<Sequent>>
    decreases |ss|
  {
    if fs == [] && ss == [] then pss
    else if fs == [] || ss == [] then []
    else InferEach(AfterEach(pss, fs[0](ss[0])), fs[1..], ss[1..])
  }

  function InferAll(fs: seq<Sequent> -> seq<Inference>, ways: seq<seq<Sequent>>): seq<seq<Sequent>> {
    if ways == [] then [] else InferEach([[]], fs(ways[0]), ways[0]) + InferAll(fs, ways[1..])
  }

  function Each(f: Inference): seq<Sequent> -> seq<Inference> {
    (ss: seq<Sequent>) => seq(|ss|, _ => f)
  }

  function Chained(f: Inference, f': Inference, s: Sequent): seq<seq<Sequent>> {
    InferAll(Each(f'), f(s))
  }

  function ChainedPairwise(f: Inference, fs: seq<Inference>, s: Sequent): seq<seq<Sequent>> {
    InferAll((ss: seq<Sequent>) => fs, f(s))
  }

  function Any(fs: seq<Inference>, s: Sequent): seq<seq<Sequent>> {
    if fs == [] then [] else fs[0](s) + Any(fs[1..], s)
  }

  function FirstOf(fs: seq<Inference>, s: Sequent): seq<seq<Sequent>> {
    if fs == [] then [] else if fs[0](s) != [] then fs[0](s) else FirstOf(fs[1..], s)
  }

  function Sequents(premises: seq<Premise>): (r: seq<Sequent>)
    ensures |r| == |premises|
    ensures forall k :: 0 <= k < |r| ==> r[k] == premises[k].sequent
  {
    seq(|premises|, k requires 0 <= k < |premises| => premises[k].sequent)
  }

  function Ways(apps: seq<InfApp>): (r: seq<seq<Sequent>>)
    ensures |r| == |apps|
    ensures forall k :: 0 <= k < |r| ==> r[k] == Sequents(apps[k].premises)
  {
    seq(|apps|, k requires 0 <= k < |apps| => Sequents(apps[k].premises))
  }

  ghost predicate BackFree(t: Tactic)
    decreases t
  {
    match t
    case AxiomRule(_) => true
    case InfRule(_) => true
    case BackRule(_, _, _) => false
    case FailRule => true
    case IdentityRule => true
    case AttemptRule(t1) => BackFree(t1)
    case ComposeRule(t1, t2) => BackFree(t1) && BackFree(t2)
    case ComposePairwiseRule(t1, ts) => BackFree(t1) && forall u :: u in ts ==> BackFree(u)
    case ChoiceRule(ts) => forall u :: u in ts ==> BackFree(u)
    case FirstRule(ts) => forall u :: u in ts ==> BackFree(u)
    case SequenceRule(ts) => forall u :: u in ts ==> BackFree(u)
    case ConditionalRule(_, t1) => BackFree(t1)
  }

  /** What a rule without back-links infers, proofs and node numbers left out. */
  function Infer(t: Tactic, s: Sequent): seq<seq<Sequent>>
    requires BackFree(t)
    decreases t, 0
  {
    match t
    case AxiomRule(axF) => if axF(s).Some? then [[]] else []
    case InfRule(rF) => Ways(rF(s))
    case FailRule => []
    case IdentityRule => [[s]]
    case AttemptRule(t1) => if Infer(t1, s) == [] then [[s]] else Infer(t1, s)
    case ComposeRule(t1, t2) => Chained(InferenceOf(t1), InferenceOf(t2), s)
    case ComposePairwiseRule(t1, ts) => ChainedPairwise(InferenceOf(t1), InferencesOf(ts), s)
    case ChoiceRule(ts) => Any(InferencesOf(ts), s)
    case FirstRule(ts) => FirstOf(InferencesOf(ts), s)
    case SequenceRule(ts) => SequencedOf(ts)(s)
    case ConditionalRule(cond, t1) => if cond(s) then Infer(t1, s) else []
  }

  function InferenceOf(t: Tactic): Inference
    requires BackFree(t)
    decreases t, 1
  {
    (s: Sequent) => Infer(t, s)
  }

  function InferencesOf(ts: seq<Tactic>): (fs: seq<Inference>)
    requires forall u :: u in ts ==> BackFree(u)
    ensures |fs| == |ts|
    decreases ts, 2
  {
    if ts == [] then [] else [InferenceOf(ts[0])] + InferencesOf(ts[1..])
  }

  function SequencedOf(ts: seq<Tactic>): Inference
    requires forall u :: u in ts ==> BackFree(u)
    decreases ts, 2
  {
    if ts == [] then (s: Sequent) => [[s]]
    else
      var f, rest := InferenceOf(ts[0]), SequencedOf(ts[1..]);
      (s: Sequent) => Chained(f, rest, s)
  }

  // ---------- What compositions infer ----------

  /** `ps` consists of the premises of one inference for each of the sequents `ss`. */
  ghost predicate Assembled(fs: seq<Inference>, ss: seq<Sequent>, ps: seq<Sequent>)
    decreases |ss|
  {
    if fs == [] || ss == [] then fs == [] && ss == [] && ps == []
    else exists n :: 0 <= n <= |ps| && ps[..n] in fs[0](ss[0]) && Assembled(fs[1..], ss[1..], ps[n..])
  }

  ghost predicate SplitsAt(pss: seq<seq<Sequent>>, ways: seq<seq<Sequent>>, ps: seq<Sequent>, n: int) {
    0 <= n <= |ps| && ps[..n] in pss && ps[n..] in ways
  }

  ghost predicate AssembledAfter(
    pss: seq<seq<Sequent>>, fs: seq<Inference>, ss: seq<Sequent>, ps: seq<Sequent>, n: int
  ) {
    0 <= n <= |ps| && ps[..n] in pss && Assembled(fs, ss, ps[n..])
  }

  lemma AfterExact(p: seq<Sequent>, ways: seq<seq<Sequent>>, ps: seq<Sequent>)
    ensures ps in After(p, ways) <==> |p| <= |ps| && ps[..|p|] == p && ps[|p|..] in ways
  {
    if ps in After(p, ways) {
      var k :| 0 <= k < |ways| && After(p, ways)[k] == ps;
      assert ps[|p|..] == ways[k];
    }
    if |p| <= |ps| && ps[..|p|] == p && ps[|p|..] in ways {
      var k :| 0 <= k < |ways| && ways[k] == ps[|p|..];
      assert After(p, ways)[k] == ps;
    }
  }

  lemma {:induction false} AfterEachExact(pss: seq<seq<Sequent>>, ways: seq<seq<Sequent>>, ps: seq<Sequent>)
    ensures ps in AfterEach(pss, ways) <==> exists n :: SplitsAt(pss, ways, ps, n)
    decreases |pss|
  {
    if pss != [] {
      AfterEachExact(pss[1..], ways, ps);
      AfterExact(pss[0], ways, ps);
      assert forall n :: SplitsAt(pss[1..], ways, ps, n) ==> SplitsAt(pss, ways, ps, n);
      assert ps in After(pss[0], ways) ==> SplitsAt(pss, ways, ps, |pss[0]|);
      assert forall n :: SplitsAt(pss, ways, ps, n) ==> ps[..n] == pss[0] || SplitsAt(pss[1..], ways, ps, n);
    }
  }

  lemma AssembledUp(pss: seq<seq<Sequent>>, fs: seq<Inference>, ss: seq<Sequent>, ps: seq<Sequent>, n: int)
    returns (n': int)
    requires fs != [] && ss != [] && AssembledAfter(AfterEach(pss, fs[0](ss[0])), fs[1..], ss[1..], ps, n)
    ensures AssembledAfter(pss, fs, ss, ps, n')
  {
    AfterEachExact(pss, fs[0](ss[0]), ps[..n]);
    n' :| SplitsAt(pss, fs[0](ss[0]), ps[..n], n');
    assert ps[..n][..n'] == ps[..n'] && ps[..n][n'..] == ps[n'..][..n - n'] && ps[n'..][n - n'..] == ps[n..];
  }

  lemma AssembledDown(pss: seq<seq<Sequent>>, fs: seq<Inference>, ss: seq<Sequent>, ps: seq<Sequent>, n: int)
    returns (n': int)
    requires fs != [] && ss != [] && AssembledAfter(pss, fs, ss, ps, n)
    ensures AssembledAfter(AfterEach(pss, fs[0](ss[0])), fs[1..], ss[1..], ps, n')
  {
    var q := ps[n..];
    var k :| 0 <= k <= |q| && q[..k] in fs[0](ss[0]) && Assembled(fs[1..], ss[1..], q[k..]);
    n' := n + k;
    assert ps[..n'][..n] == ps[..n] && ps[..n'][n..] == q[..k] && q[k..] == ps[n'..];
    assert SplitsAt(pss, fs[0](ss[0]), ps[..n'], n);
    AfterEachExact(pss, fs[0](ss[0]), ps[..n']);
  }

  lemma {:induction false} InferEachExact(pss: seq<seq<Sequent>>, fs: seq<Inference>, ss: seq<Sequent>, ps: seq<Sequent>)
    ensures ps in InferEach(pss, fs, ss) <==> exists n :: AssembledAfter(pss, fs, ss, ps, n)
    decreases |ss|
  {
    if fs == [] && ss == [] {
      assert ps[..|ps|] == ps && ps[|ps|..] == [];
      assert ps in pss ==> AssembledAfter(pss, fs, ss, ps, |ps|);
    } else if fs != [] && ss != [] {
      var pss' := AfterEach(pss, fs[0](ss[0]));
      InferEachExact(pss', fs[1..], ss[1..], ps);
      if n :| AssembledAfter(pss', fs[1..], ss[1..], ps, n) {
        var n' := AssembledUp(pss, fs, ss, ps, n);
      }
      if n :| AssembledAfter(pss, fs, ss, ps, n) {
        var n' := AssembledDown(pss, fs, ss, ps, n);
      }
    }
  }

  lemma {:induction false} InferAllExact(
    fs: seq<Sequent> -> seq<Inference>, ways: seq<seq<Sequent>>, ps: seq<Sequent>
  )
    ensures ps in InferAll(fs, ways) <==> exists qs :: qs in ways && Assembled(fs(qs), qs, ps)
    decreases |ways|
  {
    if ways != [] {
      InferAllExact(fs, ways[1..], ps);
      InferEachExact([[]], fs(ways[0]), ways[0], ps);
      assert ps[..0] == [] && ps[0..] == ps;
      assert Assembled(fs(ways[0]), ways[0], ps) ==> AssembledAfter([[]], fs(ways[0]), ways[0], ps, 0);
      assert forall qs :: qs in ways <==> qs == ways[0] || qs in ways[1..];
    }
  }

  lemma {:induction false} AnyExact(fs: seq<Inference>, s: Sequent, ps: seq<Sequent>)
    ensures ps in Any(fs, s) <==> exists k :: 0 <= k < |fs| && ps in fs[k](s)
  {
    if fs != [] {
      AnyExact(fs[1..], s, ps);
      assert forall k :: 1 <= k < |fs| ==> fs[k] == fs[1..][k - 1];
      assert forall k :: 0 <= k < |fs| - 1 ==> fs[1..][k] == fs[k + 1];
    }
  }

  /** `first` infers what the first of its rules does that infers anything. */
  lemma {:induction false} FirstOfExact(fs: seq<Inference>, s: Sequent)
    ensures FirstOf(fs, s) == [] <==> forall k :: 0 <= k < |fs| ==> fs[k](s) == []
    ensures forall k :: 0 <= k < |fs| && fs[k](s) != [] && (forall j :: 0 <= j < k ==> fs[j](s) == []) ==>
              FirstOf(fs, s) == fs[k](s)
  {
    if fs != [] {
      FirstOfExact(fs[1..], s);
      assert forall k :: 1 <= k < |fs| ==> fs[k] == fs[1..][k - 1];
      forall k | 1 <= k < |fs| && fs[k](s) != [] && (forall j :: 0 <= j < k ==> fs[j](s) == [])
        ensures FirstOf(fs, s) == fs[k](s)
      {
        assert forall j :: 0 <= j < k - 1 ==> fs[1..][j] == fs[j + 1];
        assert fs[1..][k - 1](s) != [];
      }
    }
  }

  /** A composition infers `s` from `ps` exactly if the first inference infers it from sequents, each of which the second
      infers from its part of `ps`. */
  lemma ChainedExact(f: Inference, f': Inference, s: Sequent, ps: seq<Sequent>)
    ensures ps in Chained(f, f', s) <==> exists qs :: qs in f(s) && Assembled(seq(|qs|, _ => f'), qs, ps)
  {
    InferAllExact(Each(f'), f(s), ps);
  }

  // ---------- Applications, seen as inferences ----------

  /** The sequents of some nodes. */
  function Labels(prf: Proof, goals: seq<int>): (r: seq<Sequent>)
    ensures |r| == |goals|
    ensures forall k :: 0 <= k < |r| && goals[k] in prf ==> r[k] == prf[goals[k]].node.sequent
  {
    seq(|goals|, k requires 0 <= k < |goals| =>
      if goals[k] in prf then prf[goals[k]].node.sequent else Sequent(0, []))
  }

  function Leaves(apps: seq<App>): (r: seq<seq<Sequent>>)
    ensures |r| == |apps|
    ensures forall k :: 0 <= k < |r| ==> r[k] == Labels(apps[k].prf, apps[k].goals)
  {
    seq(|apps|, k requires 0 <= k < |apps| => Labels(apps[k].prf, apps[k].goals))
  }

  lemma LeavesOfSum(xs: seq<App>, ys: seq<App>)
    ensures Leaves(xs + ys) == Leaves(xs) + Leaves(ys)
  {
  }

  lemma LeavesTail(apps: seq<App>)
    requires apps != []
    ensures Leaves(apps)[1..] == Leaves(apps[1..])
  {
    forall k | 0 <= k < |apps| - 1
      ensures Leaves(apps)[1..][k] == Leaves(apps[1..])[k]
    {
      assert apps[1..][k] == apps[k + 1];
    }
  }

  function Anything(): Property {
    (prf: Proof) => true
  }

  ghost predicate Shows(apps: Apps, ways: seq<seq<Sequent>>) {
    apps.Ok? && Leaves(apps.value) == ways
  }

  /** At every open node of every proof, the rule infers from the node's sequent what `f` does. */
  ghost predicate Local(r: Rule, f: Inference) {
    && Fine(r, Anything())
    && forall idx: int, prf: Proof :: ProofOk(prf) && CanAdd(prf, idx) ==> Shows(r(idx, prf), f(prf[idx].node.sequent))
  }

  ghost predicate AllLocal(rs: seq<Rule>, fs: seq<Inference>) {
    |rs| == |fs| && forall k :: 0 <= k < |rs| ==> Local(rs[k], fs[k])
  }

  // ---------- The combinators ----------

  ghost predicate Labelled(prf: Proof, goals: seq<int>, ss: seq<Sequent>) {
    |goals| == |ss| && forall k :: 0 <= k < |goals| ==> goals[k] in prf && prf[goals[k]].node.sequent == ss[k]
  }

  ghost predicate AllLabelled(apps: seq<App>, goals: seq<int>, ss: seq<Sequent>) {
    forall a :: a in apps ==> Labelled(a.prf, goals, ss)
  }

  lemma LabelsPersist(prf: Proof, prf': Proof, goals: seq<int>)
    requires Extends(prf, prf') && forall k :: 0 <= k < |goals| ==> goals[k] in prf
    ensures Labelled(prf', goals, Labels(prf, goals)) && Labels(prf', goals) == Labels(prf, goals)
  {
    forall k | 0 <= k < |goals|
      ensures goals[k] in prf' && prf'[goals[k]].node.sequent == prf[goals[k]].node.sequent
    {
      assert Kept(prf, prf', goals[k]);
    }
  }

  /** The nodes that an evolution opens are open, and in the proof. */
  lemma GoalsArePresent(prf: Proof, gone: set<int>, goals: seq<int>, prf': Proof)
    requires ProofOk(prf) && Evolves(NoModels(), prf, gone, goals, prf')
    ensures forall k :: 0 <= k < |goals| ==> goals[k] in prf' && CanAdd(prf', goals[k])
  {
    forall k | 0 <= k < |goals|
      ensures goals[k] in prf' && CanAdd(prf', goals[k])
    {
      assert goals[k] in Elems(goals);
      assert goals[k] in Opens(prf');
    }
  }

  lemma LabelsAppended(prf: Proof, prf': Proof, goals: seq<int>, added: seq<int>)
    requires Extends(prf, prf') && forall k :: 0 <= k < |goals| ==> goals[k] in prf
    ensures Labels(prf', goals + added) == Labels(prf, goals) + Labels(prf', added)
  {
    LabelsPersist(prf, prf', goals);
    assert Labels(prf', goals + added) == Labels(prf', goals) + Labels(prf', added);
  }

  lemma RestPersists(prf: Proof, prf': Proof, idx: int, rest: seq<int>, ss: seq<Sequent>)
    requires Extends(prf, prf') && Labelled(prf, [idx] + rest, ss)
    ensures Labelled(prf', rest, ss[1..])
  {
    forall k | 0 <= k < |rest|
      ensures rest[k] in prf' && prf'[rest[k]].node.sequent == ss[1..][k]
    {
      assert ([idx] + rest)[k + 1] == rest[k];
      assert Kept(prf, prf', rest[k]);
    }
  }

  lemma PrefixedLocal(prf: Proof, idx: int, earlier: seq<int>, rest: seq<int>, added: seq<App>, ss: seq<Sequent>)
    requires ProofOk(prf) && GoodApps(NoModels(), prf, idx, Ok(added)) && Labelled(prf, [idx] + rest, ss)
    requires forall k :: 0 <= k < |earlier| ==> earlier[k] in prf
    ensures Leaves(Prefixed(earlier, added)) == After(Labels(prf, earlier), Leaves(added))
    ensures AllLabelled(Prefixed(earlier, added), rest, ss[1..])
  {
    var after := Prefixed(earlier, added);
    forall k | 0 <= k < |added|
      ensures Leaves(after)[k] == Labels(prf, earlier) + Leaves(added)[k]
      ensures Labelled(after[k].prf, rest, ss[1..])
    {
      assert Evolves(NoModels(), prf, {idx}, added[k].goals, added[k].prf);
      LabelsAppended(prf, added[k].prf, earlier, added[k].goals);
      RestPersists(prf, added[k].prf, idx, rest, ss);
    }
  }

  /** Applying a rule to one more goal of one application. */
  lemma OneLocal(prf: Proof, gone: set<int>, r: Rule, f: Inference, idx: int, rest: seq<int>, a: App, ss: seq<Sequent>)
    requires Local(r, f) && ProofOk(prf) && Evolves(NoModels(), prf, gone, a.goals + ([idx] + rest), a.prf)
    requires Labelled(a.prf, [idx] + rest, ss)
    ensures r(idx, a.prf).Ok?
    ensures Leaves(Prefixed(a.goals, r(idx, a.prf).value)) == After(Labels(a.prf, a.goals), f(ss[0]))
    ensures AllLabelled(Prefixed(a.goals, r(idx, a.prf).value), rest, ss[1..])
  {
    var goals := a.goals + ([idx] + rest);
    GoalsArePresent(prf, gone, goals, a.prf);
    assert forall k :: 0 <= k < |a.goals| ==> a.goals[k] == goals[k];
    assert goals[|a.goals|] == idx && ([idx] + rest)[0] == idx;
    assert GoodApps(NoModels(), a.prf, idx, r(idx, a.prf)) && Shows(r(idx, a.prf), f(ss[0]));
    PrefixedLocal(a.prf, idx, a.goals, rest, r(idx, a.prf).value, ss);
  }

  lemma {:induction false} ApplyToAllLocal(
    prf: Proof, gone: set<int>, r: Rule, f: Inference, idx: int, rest: seq<int>, apps: seq<App>, ss: seq<Sequent>
  )
    requires Local(r, f) && ProofOk(prf) && AllEvolve(NoModels(), prf, gone, apps, [idx] + rest)
    requires AllLabelled(apps, [idx] + rest, ss) && |ss| == 1 + |rest|
    ensures Shows(ApplyToAll(r, idx, apps), AfterEach(Leaves(apps), f(ss[0])))
    ensures AllLabelled(ApplyToAll(r, idx, apps).value, rest, ss[1..])
    decreases |apps|
  {
    if apps != [] {
      assert apps[0] in apps;
      OneLocal(prf, gone, r, f, idx, rest, apps[0], ss);
      ApplyToAllLocal(prf, gone, r, f, idx, rest, apps[1..], ss);
      LeavesTail(apps);
      LeavesOfSum(Prefixed(apps[0].goals, r(idx, apps[0].prf).value), ApplyToAll(r, idx, apps[1..]).value);
    }
  }

  lemma {:induction false} FoldPairwiseLocal(
    prf: Proof, gone: set<int>, apps: seq<App>, rules: seq<Rule>, fs: seq<Inference>, goals: seq<int>, ss: seq<Sequent>
  )
    requires AllLocal(rules, fs) && ProofOk(prf) && AllEvolve(NoModels(), prf, gone, apps, goals)
    requires AllLabelled(apps, goals, ss) && |ss| == |goals|
    ensures Shows(FoldPairwise(apps, rules, goals), InferEach(Leaves(apps), fs, ss))
    decreases |goals|
  {
    if rules != [] && goals != [] {
      assert goals == [goals[0]] + goals[1..];
      assert Local(rules[0], fs[0]);
      ApplyToAllLocal(prf, gone, rules[0], fs[0], goals[0], goals[1..], apps, ss);
      ApplyToAllGood(NoModels(), prf, gone, rules[0], goals[0], goals[1..], apps);
      var apps' := ApplyToAll(rules[0], goals[0], apps).value;
      FoldPairwiseLocal(prf, gone, apps', rules[1..], fs[1..], goals[1..], ss[1..]);
    }
  }

  lemma PairwiseLocal(prf: Proof, idx: int, rules: seq<Rule>, fs: seq<Inference>, a: App)
    requires AllLocal(rules, fs) && ProofOk(prf) && Evolves(NoModels(), prf, {idx}, a.goals, a.prf)
    ensures Shows(ApplyToSubgoalsPairwise(rules, a), InferEach([[]], fs, Labels(a.prf, a.goals)))
  {
    GoalsArePresent(prf, {idx}, a.goals, a.prf);
    assert [] + a.goals == a.goals;
    var start := [App([], a.prf)];
    assert Leaves(start) == [[]];
    FoldPairwiseLocal(prf, {idx}, start, rules, fs, a.goals, Labels(a.prf, a.goals));
  }

  ghost predicate CorrespondsAt(
    rules: App -> seq<Rule>, fs: seq<Sequent> -> seq<Inference>, a: App, ss: seq<Sequent>
  ) {
    |a.goals| == |ss| ==> AllLocal(rules(a), fs(ss))
  }

  /** `rules` and `fs` choose corresponding rules and inferences. */
  ghost predicate Corresponds(rules: App -> seq<Rule>, fs: seq<Sequent> -> seq<Inference>) {
    forall a, ss :: CorrespondsAt(rules, fs, a, ss)
  }

  lemma {:induction false} BindPairwiseLocal(
    prf: Proof, idx: int, rules: App -> seq<Rule>, fs: seq<Sequent> -> seq<Inference>, apps: seq<App>
  )
    requires ProofOk(prf) && GoodApps(NoModels(), prf, idx, Ok(apps)) && Corresponds(rules, fs)
    ensures Shows(BindPairwise(rules, apps), InferAll(fs, Leaves(apps)))
    decreases |apps|
  {
    if apps != [] {
      var a := apps[0];
      var ss := Labels(a.prf, a.goals);
      assert CorrespondsAt(rules, fs, a, ss);
      PairwiseLocal(prf, idx, rules(a), fs(ss), a);
      BindPairwiseLocal(prf, idx, rules, fs, apps[1..]);
      LeavesTail(apps);
      LeavesOfSum(ApplyToSubgoalsPairwise(rules(a), a).value, BindPairwise(rules, apps[1..]).value);
    }
  }

  lemma RepeatedLocal(r: Rule, f: Inference, rules: App -> seq<Rule>)
    requires Local(r, f) && rules == ((a: App) => seq(|a.goals|, _ => r))
    ensures Corresponds(rules, Each(f))
  {
    forall a, ss
      ensures CorrespondsAt(rules, Each(f), a, ss)
    {
      assert |a.goals| == |ss| ==> forall k :: 0 <= k < |ss| ==> rules(a)[k] == r && Each(f)(ss)[k] == f;
    }
  }

  /** A composition is local if what it binds is. */
  lemma BindLocal(
    r: Rule, f: Inference, rules: App -> seq<Rule>, fs: seq<Sequent> -> seq<Inference>, idx: int, prf: Proof
  )
    requires Local(r, f) && Corresponds(rules, fs) && ProofOk(prf) && CanAdd(prf, idx)
    ensures r(idx, prf).Ok?
    ensures Shows(BindPairwise(rules, r(idx, prf).value), InferAll(fs, f(prf[idx].node.sequent)))
  {
    assert Shows(r(idx, prf), f(prf[idx].node.sequent)) && GoodApps(NoModels(), prf, idx, r(idx, prf));
    BindPairwiseLocal(prf, idx, rules, fs, r(idx, prf).value);
  }

  lemma ComposeIsBind(r: Rule, r': Rule, idx: int, prf: Proof) returns (rules: App -> seq<Rule>)
    requires r(idx, prf).Ok?
    ensures rules == ((a: App) => seq(|a.goals|, _ => r'))
    ensures Compose(r, r', idx, prf) == BindPairwise(rules, r(idx, prf).value)
  {
    rules := (a: App) => seq(|a.goals|, _ => r');
  }

  lemma ComposeLocal(r: Rule, r': Rule, f: Inference, f': Inference, idx: int, prf: Proof)
    requires Local(r, f) && Local(r', f') && ProofOk(prf) && CanAdd(prf, idx)
    ensures Shows(Compose(r, r', idx, prf), Chained(f, f', prf[idx].node.sequent))
  {
    assert Shows(r(idx, prf), f(prf[idx].node.sequent));
    var rules := ComposeIsBind(r, r', idx, prf);
    RepeatedLocal(r', f', rules);
    BindLocal(r, f, rules, Each(f'), idx, prf);
  }

  lemma ComposePairwiseLocal(r: Rule, rs: seq<Rule>, f: Inference, fs: seq<Inference>, idx: int, prf: Proof)
    requires Local(r, f) && AllLocal(rs, fs) && ProofOk(prf) && CanAdd(prf, idx)
    ensures Shows(ComposePairwise(r, rs, idx, prf), ChainedPairwise(f, fs, prf[idx].node.sequent))
  {
    var rules := (a: App) => rs;
    var gs := (ss: seq<Sequent>) => fs;
    BindLocal(r, f, rules, gs, idx, prf);
    assert ComposePairwise(r, rs, idx, prf) == BindPairwise(rules, r(idx, prf).value);
    assert ChainedPairwise(f, fs, prf[idx].node.sequent) == InferAll(gs, f(prf[idx].node.sequent));
  }

  lemma {:induction false} ChoiceLocal(rl: seq<Rule>, fs: seq<Inference>, idx: int, prf: Proof)
    requires AllLocal(rl, fs) && ProofOk(prf) && CanAdd(prf, idx)
    ensures Shows(Choice(rl, idx, prf), Any(fs, prf[idx].node.sequent))
    ensures Shows(First(rl, idx, prf), FirstOf(fs, prf[idx].node.sequent))
    decreases |rl|
  {
    if rl != [] {
      assert Local(rl[0], fs[0]);
      assert Shows(rl[0](idx, prf), fs[0](prf[idx].node.sequent));
      ChoiceLocal(rl[1..], fs[1..], idx, prf);
      LeavesOfSum(rl[0](idx, prf).value, Choice(rl[1..], idx, prf).value);
    }
  }

  lemma IdentityLocal(idx: int, prf: Proof)
    requires CanAdd(prf, idx)
    ensures Shows(Identity(idx, prf), [[prf[idx].node.sequent]])
  {
    assert Labels(prf, [idx]) == [prf[idx].node.sequent];
    assert Leaves([App([idx], prf)]) == [Labels(prf, [idx])];
  }

  // ---------- Every rule without back-links ----------

  lemma AddInfLabels(idx: int, descr: string, premises: seq<Premise>, prf: Proof)
    requires CanAdd(prf, idx)
    ensures var grown := AddInf(idx, descr, premises, prf).value; Labels(grown.1, grown.0) == Sequents(premises)
  {
    var (subidxs, prf') := AddInf(idx, descr, premises, prf).value;
    forall k | 0 <= k < |premises|
      ensures Labels(prf', subidxs)[k] == premises[k].sequent
    {
      assert subidxs[k] == FreshIdx(prf) + k;
    }
  }

  lemma ConsLeaves(a: App, apps: seq<App>)
    ensures Leaves([a] + apps) == [Labels(a.prf, a.goals)] + Leaves(apps)
  {
  }

  lemma {:induction false} MapInfLocal(apps: seq<InfApp>, idx: int, prf: Proof)
    requires ProofOk(prf) && CanAdd(prf, idx)
    ensures Shows(MapInf(apps, idx, prf), Ways(apps))
  {
    if apps != [] {
      AddInfLabels(idx, apps[0].descr, apps[0].premises, prf);
      MapInfLocal(apps[1..], idx, prf);
      var grown, rest := AddInf(idx, apps[0].descr, apps[0].premises, prf).value, MapInf(apps[1..], idx, prf).value;
      ConsLeaves(App(grown.0, grown.1), rest);
      assert Ways(apps) == [Sequents(apps[0].premises)] + Ways(apps[1..]);
    }
  }

  lemma AxiomLocal(axF: Sequent -> Option<string>, idx: int, prf: Proof)
    requires CanAdd(prf, idx)
    ensures Shows(MkAxiom(axF, idx, prf), if axF(prf[idx].node.sequent).Some? then [[]] else [])
  {
  }

  /** The basic rules raise at no open node. */
  lemma BasicRulesFine(check: Check, t: Tactic)
    requires t.AxiomRule? || t.InfRule?
    ensures Fine(RuleOf(check, t), Anything())
  {
    match t
    case AxiomRule(axF) => AxiomsGood(check, axF);
    case InfRule(rF) => InferencesGood(check, rF);
    forall idx: int, prf: Proof | ProofOk(prf) && CanAdd(prf, idx)
      ensures TotalAt(RuleOf(check, t), Anything(), idx, prf)
    {
      match t
      case AxiomRule(axF) => AxiomLocal(axF, idx, prf);
      case InfRule(rF) => MapInfLocal(rF(prf[idx].node.sequent), idx, prf);
    }
  }

  lemma {:induction false} BackFreeIsFine(check: Check, t: Tactic)
    requires BackFree(t)
    ensures FineTactic(check, t, Anything())
    decreases t
  {
    match t
    case AxiomRule(_) => BasicRulesFine(check, t);
    case InfRule(_) => BasicRulesFine(check, t);
    case FailRule =>
    case IdentityRule =>
    case AttemptRule(t1) => BackFreeIsFine(check, t1);
    case ComposeRule(t1, t2) =>
      BackFreeIsFine(check, t1);
      BackFreeIsFine(check, t2);
    case ComposePairwiseRule(t1, ts) =>
      BackFreeIsFine(check, t1);
      forall u | u in ts ensures FineTactic(check, u, Anything()) { BackFreeIsFine(check, u); }
    case ChoiceRule(ts) =>
      forall u | u in ts ensures FineTactic(check, u, Anything()) { BackFreeIsFine(check, u); }
    case FirstRule(ts) =>
      forall u | u in ts ensures FineTactic(check, u, Anything()) { BackFreeIsFine(check, u); }
    case SequenceRule(ts) =>
      forall u | u in ts ensures FineTactic(check, u, Anything()) { BackFreeIsFine(check, u); }
    case ConditionalRule(_, t1) => BackFreeIsFine(check, t1);
  }

  lemma {:induction false} RunLocal(check: Check, t: Tactic, idx: int, prf: Proof)
    requires BackFree(t) && ProofOk(prf) && CanAdd(prf, idx)
    ensures Shows(Run(check, t, idx, prf), Infer(t, prf[idx].node.sequent))
    decreases t, 0
  {
    match t
    case AxiomRule(axF) => AxiomLocal(axF, idx, prf);
    case InfRule(rF) => MapInfLocal(rF(prf[idx].node.sequent), idx, prf);
    case FailRule =>
    case IdentityRule => IdentityLocal(idx, prf);
    case AttemptRule(t1) =>
      RunLocal(check, t1, idx, prf);
      IdentityLocal(idx, prf);
    case ComposeRule(t1, t2) =>
      RulesAreLocal(check, t1);
      RulesAreLocal(check, t2);
      ComposeLocal(RuleOf(check, t1), RuleOf(check, t2), InferenceOf(t1), InferenceOf(t2), idx, prf);
    case ComposePairwiseRule(t1, ts) =>
      RulesAreLocal(check, t1);
      AllRulesLocal(check, ts);
      ComposePairwiseLocal(RuleOf(check, t1), RulesOf(check, ts), InferenceOf(t1), InferencesOf(ts), idx, prf);
    case ChoiceRule(ts) =>
      AllRulesLocal(check, ts);
      ChoiceLocal(RulesOf(check, ts), InferencesOf(ts), idx, prf);
    case FirstRule(ts) =>
      AllRulesLocal(check, ts);
      ChoiceLocal(RulesOf(check, ts), InferencesOf(ts), idx, prf);
    case SequenceRule(ts) => SequenceLocal(check, ts);
    case ConditionalRule(cond, t1) => RunLocal(check, t1, idx, prf);
  }

  /** What a rule without back-links offers at an open node depends on the sequent of the node only: neither on the
      rest of the proof nor on the soundness check. */
  lemma RulesAreLocal(check: Check, t: Tactic)
    requires BackFree(t)
    ensures Local(RuleOf(check, t), InferenceOf(t))
    decreases t, 1
  {
    BackFreeIsFine(check, t);
    TacticsAreFine(check, t, Anything());
    forall idx: int, prf: Proof | ProofOk(prf) && CanAdd(prf, idx)
      ensures Shows(RuleOf(check, t)(idx, prf), InferenceOf(t)(prf[idx].node.sequent))
    {
      RunLocal(check, t, idx, prf);
    }
  }

  lemma {:induction false} AllRulesLocal(check: Check, ts: seq<Tactic>)
    requires forall u :: u in ts ==> BackFree(u)
    ensures AllLocal(RulesOf(check, ts), InferencesOf(ts))
    decreases ts, 2
  {
    if ts != [] {
      RulesAreLocal(check, ts[0]);
      AllRulesLocal(check, ts[1..]);
    }
  }

  lemma {:induction false} SequenceLocal(check: Check, ts: seq<Tactic>)
    requires forall u :: u in ts ==> BackFree(u)
    ensures Local(SequenceOf(check, ts), SequencedOf(ts))
    decreases ts, 2
  {
    forall u | u in ts ensures FineTactic(check, u, Anything()) { BackFreeIsFine(check, u); }
    SequenceFine(check, ts, Anything());
    if ts != [] {
      RulesAreLocal(check, ts[0]);
      SequenceLocal(check, ts[1..]);
    }
    forall idx: int, prf: Proof | ProofOk(prf) && CanAdd(prf, idx)
      ensures Shows(SequenceOf(check, ts)(idx, prf), SequencedOf(ts)(prf[idx].node.sequent))
    {
      if ts == [] {
        IdentityLocal(idx, prf);
      } else {
        ComposeLocal(
          RuleOf(check, ts[0]), SequenceOf(check, ts[1..]), InferenceOf(ts[0]), SequencedOf(ts[1..]), idx, prf);
      }
    }
  }

  // ---------- The search ----------

  /** A derivation of depth at most `bound`, whose leaves `a` closes and whose other steps are inferences of `r`. */
  predicate Derivable(a: Inference, r: Inference, bound: int, s: Sequent)
    decreases Depth(bound), 0
  {
    bound >= 0 && ([] in a(s) || exists k :: 0 <= k < |r(s)| && AllDerivable(a, r, bound - 1, r(s)[k]))
  }

  predicate AllDerivable(a: Inference, r: Inference, bound: int, ss: seq<Sequent>)
    decreases Depth(bound), 1
  {
    forall k :: 0 <= k < |ss| ==> Derivable(a, r, bound, ss[k])
  }

  /** The search answers, and finds a proof exactly if there is a derivation. */
  ghost predicate Decides(res: Outcome<Option<Proof>>, holds: bool) {
    res.Ok? && (res.value.Some? <==> holds)
  }

  lemma {:induction false} DfsExact(ax: Rule, r: Rule, a: Inference, f: Inference, bound: int, idx: int, prf: Proof)
    requires Local(ax, a) && Local(r, f) && ProofOk(prf) && CanAdd(prf, idx)
    ensures Decides(Dfs(ax, r, bound, idx, prf), Derivable(a, f, bound, prf[idx].node.sequent))
    decreases Depth(bound), 2, 0
  {
    if bound >= 0 {
      var s := prf[idx].node.sequent;
      assert Shows(ax(idx, prf), a(s)) && Shows(r(idx, prf), f(s)) && GoodApps(NoModels(), prf, idx, r(idx, prf));
      ClosedExact(ax(idx, prf).value);
      TryAppsExact(ax, r, a, f, bound, idx, prf, r(idx, prf).value);
    }
  }

  lemma {:induction false} ClosedExact(apps: seq<App>)
    ensures FindClosed(apps).Some? <==> [] in Leaves(apps)
  {
    if apps != [] {
      ClosedExact(apps[1..]);
      assert Leaves(apps) == [Labels(apps[0].prf, apps[0].goals)] + Leaves(apps[1..]);
    }
  }

  ghost predicate SomeDerivable(a: Inference, f: Inference, bound: int, ways: seq<seq<Sequent>>) {
    exists k :: 0 <= k < |ways| && AllDerivable(a, f, bound, ways[k])
  }

  lemma SomeDerivableSplits(a: Inference, f: Inference, bound: int, ways: seq<seq<Sequent>>)
    requires ways != []
    ensures SomeDerivable(a, f, bound, ways) <==>
            AllDerivable(a, f, bound, ways[0]) || SomeDerivable(a, f, bound, ways[1..])
  {
    assert forall k :: 0 <= k < |ways| - 1 ==> ways[1..][k] == ways[k + 1];
    if k :| 0 <= k < |ways| && AllDerivable(a, f, bound, ways[k]) {
      assert k > 0 ==> ways[1..][k - 1] == ways[k];
    }
  }

  lemma {:induction false} TryAppsExact(
    ax: Rule, r: Rule, a: Inference, f: Inference, bound: int, idx: int, prf: Proof, apps: seq<App>
  )
    requires Local(ax, a) && Local(r, f) && ProofOk(prf) && bound >= 0 && GoodApps(NoModels(), prf, idx, Ok(apps))
    ensures Decides(TryApps(ax, r, bound, apps), SomeDerivable(a, f, bound - 1, Leaves(apps)))
    decreases Depth(bound), 1, |apps|
  {
    if apps != [] {
      CloseAllExact(ax, r, a, f, bound - 1, prf, {idx}, apps[0].goals, apps[0].prf);
      TryAppsExact(ax, r, a, f, bound, idx, prf, apps[1..]);
      SomeDerivableSplits(a, f, bound - 1, Leaves(apps));
      LeavesTail(apps);
    }
  }

  /** Closing one goal leaves the sequents of the others as they are, so it does not matter how it is closed. */
  lemma OneGoalClosed(prf0: Proof, gone: set<int>, goals: seq<int>, prf: Proof, prf': Proof)
    requires ProofOk(prf0) && Evolves(NoModels(), prf0, gone, goals, prf)
    requires goals != [] && Evolves(NoModels(), prf, {goals[0]}, [], prf')
    ensures Evolves(NoModels(), prf0, gone, goals[1..], prf') && Labels(prf', goals[1..]) == Labels(prf, goals)[1..]
  {
    GoalsArePresent(prf0, gone, goals, prf);
    assert goals == [] + ([goals[0]] + goals[1..]) && [] + [] + goals[1..] == goals[1..];
    EvolvesStep(NoModels(), prf0, gone, [], goals[0], goals[1..], prf, [], prf');
    LabelsPersist(prf, prf', goals[1..]);
  }

  lemma AllDerivableSplits(a: Inference, f: Inference, bound: int, ss: seq<Sequent>)
    requires ss != []
    ensures AllDerivable(a, f, bound, ss) <==> Derivable(a, f, bound, ss[0]) && AllDerivable(a, f, bound, ss[1..])
  {
    assert forall k :: 1 <= k < |ss| ==> ss[k] == ss[1..][k - 1];
  }

  lemma {:induction false} CloseAllExact(ax: Rule, r: Rule, a: Inference, f: Inference, bound: int,
                                         prf0: Proof, gone: set<int>, goals: seq<int>, prf: Proof)
    requires Local(ax, a) && Local(r, f) && ProofOk(prf0) && Evolves(NoModels(), prf0, gone, goals, prf)
    ensures Decides(CloseAll(ax, r, bound, goals, prf), AllDerivable(a, f, bound, Labels(prf, goals)))
    decreases Depth(bound), 3, |goals|
  {
    if goals != [] {
      GoalsArePresent(prf0, gone, goals, prf);
      AllDerivableSplits(a, f, bound, Labels(prf, goals));
      DfsExact(ax, r, a, f, bound, goals[0], prf);
      DfsCloses(NoModels(), ax, r, bound, goals[0], prf);
      var res := Dfs(ax, r, bound, goals[0], prf);
      if res.value.Some? {
        OneGoalClosed(prf0, gone, goals, prf, res.value.value);
        CloseAllExact(ax, r, a, f, bound, prf0, gone, goals[1..], res.value.value);
      }
    }
  }

  /** Without back-links the search misses nothing, whatever the check, however much derivations branch and in
      whichever order the applications come; and it does not raise. */
  lemma SearchIsComplete(check: Check, ax: Tactic, r: Tactic, bound: int, s: Sequent)
    requires BackFree(ax) && BackFree(r)
    ensures Decides(
              Dfs(RuleOf(check, ax), RuleOf(check, r), bound, 0, Mk(s)),
              Derivable(InferenceOf(ax), InferenceOf(r), bound, s))
  {
    RulesAreLocal(check, ax);
    RulesAreLocal(check, r);
    DfsExact(RuleOf(check, ax), RuleOf(check, r), InferenceOf(ax), InferenceOf(r), bound, 0, Mk(s));
  }

  lemma {:induction false} DeeperFindsMore(a: Inference, r: Inference, bound: int, bound': int, s: Sequent)
    requires bound <= bound' && Derivable(a, r, bound, s)
    ensures Derivable(a, r, bound', s)
    decreases Depth(bound)
  {
    if [] !in a(s) {
      var k :| 0 <= k < |r(s)| && AllDerivable(a, r, bound - 1, r(s)[k]);
      forall j | 0 <= j < |r(s)[k]|
        ensures Derivable(a, r, bound' - 1, r(s)[k][j])
      {
        DeeperFindsMore(a, r, bound - 1, bound' - 1, r(s)[k][j]);
      }
      assert AllDerivable(a, r, bound' - 1, r(s)[k]);
    }
  }

  ghost predicate FoundAt(check: Check, ax: Tactic, r: Tactic, s: Sequent, bound: int) {
    Dfs(RuleOf(check, ax), RuleOf(check, r), bound, 0, Mk(s)) != Ok(None)
  }

  lemma FoundIffDerivable(check: Check, ax: Tactic, r: Tactic, s: Sequent, bound: int)
    requires BackFree(ax) && BackFree(r)
    ensures FoundAt(check, ax, r, s, bound) <==> Derivable(InferenceOf(ax), InferenceOf(r), bound, s)
  {
    SearchIsComplete(check, ax, r, bound, s);
  }

  /** Iterative deepening up to some depth decides derivability up to that depth. */
  lemma DeepeningIsComplete(check: Check, ax: Tactic, r: Tactic, bound: int, maxbound: int, s: Sequent)
    requires BackFree(ax) && BackFree(r) && bound <= maxbound
    ensures (exists b :: bound <= b <= maxbound && FoundAt(check, ax, r, s, b)) <==>
            Derivable(InferenceOf(ax), InferenceOf(r), maxbound, s)
  {
    FoundIffDerivable(check, ax, r, s, maxbound);
    forall b | bound <= b <= maxbound && FoundAt(check, ax, r, s, b)
      ensures Derivable(InferenceOf(ax), InferenceOf(r), maxbound, s)
    {
      FoundIffDerivable(check, ax, r, s, b);
      DeeperFindsMore(InferenceOf(ax), InferenceOf(r), b, maxbound, s);
    }
  }

  // ---------- With back-links, the search still answers ----------

  ghost predicate Answers(res: Outcome<Option<Proof>>, inv: Property) {
    res.Ok? && (res.value.Some? ==> inv(res.value.value))
  }

  lemma {:induction false} FindClosedTotal(apps: seq<App>, inv: Property)
    requires TotalApps(Ok(apps), inv)
    ensures Answers(Ok(FindClosed(apps)), inv)
  {
    if apps != [] {
      assert apps[0] in apps;
      FindClosedTotal(apps[1..], inv);
    }
  }

  lemma {:induction false} DfsAnswers(ax: Rule, r: Rule, inv: Property, bound: int, idx: int, prf: Proof)
    requires Fine(ax, inv) && Fine(r, inv) && ProofOk(prf) && inv(prf) && CanAdd(prf, idx)
    ensures Answers(Dfs(ax, r, bound, idx, prf), inv)
    decreases Depth(bound), 2, 0
  {
    if bound >= 0 {
      assert TotalAt(ax, inv, idx, prf) && TotalAt(r, inv, idx, prf) && GoodApps(NoModels(), prf, idx, r(idx, prf));
      FindClosedTotal(ax(idx, prf).value, inv);
      TryAppsAnswers(ax, r, inv, bound, idx, prf, r(idx, prf).value);
    }
  }

  lemma {:induction false} TryAppsAnswers(
    ax: Rule, r: Rule, inv: Property, bound: int, idx: int, prf: Proof, apps: seq<App>
  )
    requires Fine(ax, inv) && Fine(r, inv) && ProofOk(prf) && bound >= 0
    requires GoodApps(NoModels(), prf, idx, Ok(apps)) && TotalApps(Ok(apps), inv)
    ensures Answers(TryApps(ax, r, bound, apps), inv)
    decreases Depth(bound), 1, |apps|
  {
    if apps != [] {
      assert apps[0] in apps;
      CloseAllAnswers(ax, r, inv, bound - 1, prf, {idx}, apps[0].goals, apps[0].prf);
      TryAppsAnswers(ax, r, inv, bound, idx, prf, apps[1..]);
    }
  }

  lemma {:induction false} CloseAllAnswers(
    ax: Rule, r: Rule, inv: Property, bound: int, prf0: Proof, gone: set<int>, goals: seq<int>, prf: Proof
  )
    requires Fine(ax, inv) && Fine(r, inv) && ProofOk(prf0) && inv(prf)
    requires Evolves(NoModels(), prf0, gone, goals, prf)
    ensures Answers(CloseAll(ax, r, bound, goals, prf), inv)
    decreases Depth(bound), 3, |goals|
  {
    if goals != [] {
      GoalsArePresent(prf0, gone, goals, prf);
      DfsAnswers(ax, r, inv, bound, goals[0], prf);
      DfsCloses(NoModels(), ax, r, bound, goals[0], prf);
      var res := Dfs(ax, r, bound, goals[0], prf);
      if res.value.Some? {
        OneGoalClosed(prf0, gone, goals, prf, res.value.value);
        CloseAllAnswers(ax, r, inv, bound, prf0, gone, goals[1..], res.value.value);
      }
    }
  }

  /** With any rules built from tidy functions, back-links included, no assertion fails during a search. */
  lemma SearchNeverRaises(check: Check, ax: Tactic, r: Tactic, bound: int, s: Sequent)
    requires CheckCorrect(check) && TidyTactic(ax) && TidyTactic(r)
    ensures Answers(Dfs(RuleOf(check, ax), RuleOf(check, r), bound, 0, Mk(s)), TaggedProperty())
  {
    TidyIsFine(check, ax);
    TidyIsFine(check, r);
    TacticsAreFine(check, ax, TaggedProperty());
    TacticsAreFine(check, r, TaggedProperty());
    assert TaggedProperty()(Mk(s));
    DfsAnswers(RuleOf(check, ax), RuleOf(check, r), TaggedProperty(), bound, 0, Mk(s));
  }
}
