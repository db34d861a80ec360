/** A derivation with back-links that depth-first search does not find (src/generic/prover.ml). */
module SearchLimits {
  import opened Outcomes
  import opened TraceGraph
  import opened ProofTree
  import opened Rules
  import opened Combinators
  import opened Prover

  ghost predicate AppliesTo(ax: Rule, r: Rule, idx: int, prf: Proof, a: App) {
    || (ax(idx, prf).Ok? && a in ax(idx, prf).value)
    || (r(idx, prf).Ok? && a in r(idx, prf).value)
  }

  /** The applications close the goals, each the first of those that are left. */
  ghost predicate IsDerivation(ax: Rule, r: Rule, goals: seq<int>, prf: Proof, apps: seq<App>)
    decreases |apps|
  {
    if goals == [] || apps == [] then goals == [] && apps == []
    else
      && AppliesTo(ax, r, goals[0], prf, apps[0])
      && IsDerivation(ax, r, apps[0].goals + goals[1..], apps[0].prf, apps[1..])
  }

  // ---------- The rules of the example ----------

  const ROOT := Sequent(0, [])
  const LEFT := Sequent(1, [])
  const RIGHT := Sequent(2, [0])
  const MID := Sequent(2, [1])

  /** The indices below `n` of nodes other than `src`. */
  function NodesBelow(src: int, prf: Proof, n: int): seq<int>
    decreases if n < 0 then 0 else n
  {
    if n <= 0 then []
    else NodesBelow(src, prf, n - 1) + (if n - 1 in prf && n - 1 != src then [n - 1] else [])
  }

  /** `all_nodes`. */
  function AllNodes(src: int, prf: Proof): seq<int> {
    if prf.Keys == {} then [] else NodesBelow(src, prf, FreshIdx(prf))
  }

  lemma {:induction false} NodesBelowExact(src: int, prf: Proof, n: int, i: int)
    ensures i in NodesBelow(src, prf, n) <==> 0 <= i < n && i in prf && i != src
    decreases if n < 0 then 0 else n
  {
    if n > 0 {
      NodesBelowExact(src, prf, n - 1, i);
    }
  }

  ghost predicate Ascending(s: seq<int>) {
    forall j, k :: 0 <= j < k < |s| ==> s[j] < s[k]
  }

  lemma {:induction false} NodesBelowAscend(src: int, prf: Proof, n: int)
    ensures Ascending(NodesBelow(src, prf, n))
    decreases if n < 0 then 0 else n
  {
    if n > 0 {
      var rest := NodesBelow(src, prf, n - 1);
      NodesBelowAscend(src, prf, n - 1);
      forall k | 0 <= k < |rest|
        ensures rest[k] < n - 1
      {
        NodesBelowExact(src, prf, n - 1, rest[k]);
      }
    }
  }

  /** The other nodes of the proof, in the order of their indices. */
  lemma AllNodesExact(src: int, prf: Proof, i: int)
    requires ProofOk(prf)
    ensures i in AllNodes(src, prf) <==> i in prf && i != src
    ensures Ascending(AllNodes(src, prf))
  {
    NodesBelowExact(src, prf, FreshIdx(prf), i);
    NodesBelowAscend(src, prf, FreshIdx(prf));
    assert i in prf ==> EntryOk(prf, i);
  }

  function Closing(s: Sequent): Option<string> {
    if s == MID then Some("Mid") else None
  }

  /** The root splits in two; the left half is inferred from nothing, or from a sequent that an axiom closes. */
  function Inferring(s: Sequent): seq<InfApp> {
    if s == ROOT then [InfApp([Premise(LEFT, {}, {}), Premise(RIGHT, {}, {})], "Split")]
    else if s == LEFT then [InfApp([], "First"), InfApp([Premise(MID, {}, {})], "Second")]
    else []
  }

  /** The right half is closed by a link to that sequent only. */
  function Matching(s: Sequent, s': Sequent): seq<(Pairs, string)> {
    if s == RIGHT && s' == MID then [({}, "Link")] else []
  }

  function Axioms(): Tactic {
    AxiomRule(Closing)
  }

  function Others(): Tactic {
    ChoiceRule([InfRule(Inferring), BackRule(false, AllNodes, Matching)])
  }

  function Ax(check: Check): Rule {
    RuleOf(check, Axioms())
  }

  function R(check: Check): Rule {
    RuleOf(check, Others())
  }

  lemma ChoiceOfTwo(r: Rule, r': Rule, idx: int, prf: Proof, xs: seq<App>, ys: seq<App>)
    requires r(idx, prf) == Ok(xs) && r'(idx, prf) == Ok(ys)
    ensures Choice([r, r'], idx, prf) == Ok(xs + ys)
  {
    assert [r, r'][1..] == [r'] && [r'][1..] == [] && ys + [] == ys;
    assert Choice([r'], idx, prf) == Ok(ys);
  }

  lemma RulesOfTwo(check: Check, t: Tactic, t': Tactic)
    ensures RulesOf(check, [t, t']) == [RuleOf(check, t), RuleOf(check, t')]
  {
    assert [t, t'][1..] == [t'] && [t'][1..] == [];
    assert RulesOf(check, [t']) == [RuleOf(check, t')] + [];
  }

  lemma RunChoice(check: Check, t: Tactic, t': Tactic, idx: int, prf: Proof, xs: seq<App>, ys: seq<App>)
    requires Run(check, t, idx, prf) == Ok(xs) && Run(check, t', idx, prf) == Ok(ys)
    ensures Run(check, ChoiceRule([t, t']), idx, prf) == Ok(xs + ys)
  {
    RulesOfTwo(check, t, t');
    ChoiceOfTwo(RuleOf(check, t), RuleOf(check, t'), idx, prf, xs, ys);
  }

  /** The choice lists inferences before links. */
  lemma OthersResult(check: Check, idx: int, prf: Proof, infs: seq<App>, links: seq<App>)
    requires idx in prf && MapInf(Inferring(prf[idx].node.sequent), idx, prf) == Ok(infs)
    requires MkBackrule(false, AllNodes, Matching, check, idx, prf) == Ok(links)
    ensures R(check)(idx, prf) == Ok(infs + links)
  {
    var inf, back := InfRule(Inferring), BackRule(false, AllNodes, Matching);
    assert Run(check, inf, idx, prf) == Ok(infs);
    assert Run(check, back, idx, prf) == Ok(links);
    RunChoice(check, inf, back, idx, prf, infs, links);
  }

  lemma {:induction false} NoLinks(src: int, trgs: seq<int>, prf: Proof)
    requires src in prf
    requires forall k :: 0 <= k < |trgs| ==>
               trgs[k] in prf && Matching(prf[src].node.sequent, prf[trgs[k]].node.sequent) == []
    ensures AllLinks(Matching, src, trgs, prf) == Ok([])
  {
    if trgs != [] {
      NoLinks(src, trgs[1..], prf);
      var none: seq<App> := [];
      assert none + none == none;
    }
  }

  lemma NoBacklink(check: Check, src: int, prf: Proof)
    requires src in prf
    requires forall i :: i in prf ==> Matching(prf[src].node.sequent, prf[i].node.sequent) == []
    ensures MkBackrule(false, AllNodes, Matching, check, src, prf) == Ok([])
  {
    forall k | 0 <= k < |AllNodes(src, prf)|
      ensures AllNodes(src, prf)[k] in prf
    {
      NodesBelowExact(src, prf, FreshIdx(prf), AllNodes(src, prf)[k]);
    }
    NoLinks(src, AllNodes(src, prf), prf);
  }

  // ---------- The proofs of the example ----------

  function Split(): Proof {
    map[
      0 := Entry(0, Inf(ROOT, "Split", [1, 2], [({}, {}), ({}, {})])),
      1 := Entry(0, Open(LEFT)),
      2 := Entry(0, Open(RIGHT))]
  }

  function First(): Proof {
    Split()[1 := Entry(0, Inf(LEFT, "First", [], []))]
  }

  function Second(): Proof {
    Split()[1 := Entry(0, Inf(LEFT, "Second", [3], [({}, {})]))][3 := Entry(1, Open(MID))]
  }

  function MidClosed(): Proof {
    Second()[3 := Entry(1, Axiom(MID, "Mid"))]
  }

  function Linked(): Proof {
    MidClosed()[2 := Entry(0, Back(RIGHT, "Link", 3, {}))]
  }

  lemma SplitInferred()
    ensures AddInf(0, "Split", [Premise(LEFT, {}, {}), Premise(RIGHT, {}, {})], Mk(ROOT)) == Ok(([1, 2], Split()))
  {
    var prf, premises := Mk(ROOT), [Premise(LEFT, {}, {}), Premise(RIGHT, {}, {})];
    assert FreshIdx(prf) == 1;
    var r := AddInf(0, "Split", premises, prf).value;
    assert r.0 == [1, 2];
    assert seq(2, k requires 0 <= k < 2 => (premises[k].tv, premises[k].tp)) == [({}, {}), ({}, {})];
    assert r.1 == Split();
  }

  lemma FirstInferred()
    ensures AddInf(1, "First", [], Split()) == Ok(([], First()))
  {
    assert 2 in Split() && FreshIdx(Split()) == 3;
    var r := AddInf(1, "First", [], Split()).value;
    assert r.0 == [] && r.1[1].node.tagpairs2 == [];
    assert r.1 == First();
  }

  lemma SecondInferred()
    ensures AddInf(1, "Second", [Premise(MID, {}, {})], Split()) == Ok(([3], Second()))
  {
    var prf, premises := Split(), [Premise(MID, {}, {})];
    assert 2 in prf && FreshIdx(prf) == 3;
    var r := AddInf(1, "Second", premises, prf).value;
    assert r.0 == [3];
    assert seq(1, k requires 0 <= k < 1 => (premises[k].tv, premises[k].tp)) == [({}, {})];
    assert r.1 == Second();
  }

  lemma RootSplits(check: Check)
    ensures Ax(check)(0, Mk(ROOT)) == Ok([]) && R(check)(0, Mk(ROOT)) == Ok([App([1, 2], Split())])
  {
    SplitInferred();
    NoBacklink(check, 0, Mk(ROOT));
    assert Inferring(ROOT)[1..] == [];
    var apps := [App([1, 2], Split())];
    assert MapInf(Inferring(ROOT), 0, Mk(ROOT)) == Ok(apps + []) && apps + [] == apps;
    OthersResult(check, 0, Mk(ROOT), apps, []);
  }

  lemma LeftCloses(check: Check)
    ensures Ax(check)(1, Split()) == Ok([])
    ensures R(check)(1, Split()) == Ok([App([], First()), App([3], Second())])
  {
    FirstInferred();
    SecondInferred();
    NoBacklink(check, 1, Split());
    var infs, first, second := Inferring(LEFT), App([], First()), App([3], Second());
    assert infs[1..] == [infs[1]] && infs[1..][1..] == [];
    assert MapInf(infs[1..], 1, Split()) == Ok([second] + []) && [second] + [] == [second];
    assert MapInf(infs, 1, Split()) == Ok([first] + [second]);
    OthersResult(check, 1, Split(), [first] + [second], []);
    assert [first] + [second] + [] == [first, second];
  }

  lemma RightStaysOpen(check: Check)
    ensures Ax(check)(2, First()) == Ok([]) && R(check)(2, First()) == Ok([])
  {
    NoBacklink(check, 2, First());
    var none: seq<App> := [];
    OthersResult(check, 2, First(), none, none);
    assert none + none == none;
  }

  // ---------- The search ----------

  lemma LeftIsClosedFirst(check: Check, b: nat)
    ensures Dfs(Ax(check), R(check), b, 1, Split()) == Ok(Some(First()))
  {
    LeftCloses(check);
    assert CloseAll(Ax(check), R(check), b - 1, [], First()) == Ok(Some(First()));
    assert TryApps(Ax(check), R(check), b, R(check)(1, Split()).value) == Ok(Some(First()));
  }

  lemma RightFails(check: Check, b: nat)
    ensures CloseAll(Ax(check), R(check), b, [2], First()) == Ok(None)
  {
    RightStaysOpen(check);
    assert Dfs(Ax(check), R(check), b, 2, First()) == Ok(None);
  }

  /** The search closes the left half in the first way and never looks for another one. */
  lemma SplitFails(check: Check, b: int)
    ensures CloseAll(Ax(check), R(check), b, [1, 2], Split()) == Ok(None)
  {
    if b >= 0 {
      LeftIsClosedFirst(check, b);
      RightFails(check, b);
      assert [1, 2][1..] == [2];
    }
  }

  lemma SearchFails(check: Check, bound: int)
    ensures Dfs(Ax(check), R(check), bound, 0, Mk(ROOT)) == Ok(None)
  {
    if bound >= 0 {
      RootSplits(check);
      SplitFails(check, bound - 1);
      assert TryApps(Ax(check), R(check), bound, []) == Ok(None);
      assert TryApps(Ax(check), R(check), bound, [App([1, 2], Split())]) == Ok(None);
    }
  }

  // ---------- The derivation ----------

  lemma MidCloses(check: Check)
    ensures Ax(check)(3, Second()) == Ok([App([], MidClosed())])
  {
  }

  lemma LinkedOk()
    ensures ProofOk(Linked())
  {
    var prf := Linked();
    assert prf[0].node.succs == [1, 2] && prf[1].node.succs == [3];
    assert EntryOk(prf, 0);
    assert EntryOk(prf, 1);
    assert EntryOk(prf, 2);
    assert EntryOk(prf, 3);
  }

  lemma LinkedWellFormed()
    requires ProofOk(Linked())
    ensures WellFormed(Abstract(Linked()), 0)
  {
    var prf := Linked();
    var g := Abstract(prf);
    forall i, k | i in g && 0 <= k < |g[i].subg|
      ensures EdgeOk(g, g[i].tags, g[i].subg[k])
    {
      assert EntryOk(prf, i) && g[i].subg[k].goal == Succs(prf[i].node)[k];
    }
  }

  /** The link closes no cycle: successors have larger indices. */
  lemma LinkedAscends(i: int, j: int)
    requires ShapesOk(Linked()) && Step(Abstract(Linked()), i, j)
    ensures 0 <= i < j <= 3
  {
  }

  lemma {:induction false} PathsClimb(p: nat -> int, n: nat)
    requires ShapesOk(Linked())
    ensures IsPath(Abstract(Linked()), 0, p) ==> n <= p(n) <= 3
  {
    var g := Abstract(Linked());
    if n > 0 && IsPath(g, 0, p) {
      PathsClimb(p, n - 1);
      assert StepAt(g, p, n - 1);
      LinkedAscends(p(n - 1), p(n));
    }
  }

  lemma LinkedGTC()
    requires ShapesOk(Linked())
    ensures GTC(Abstract(Linked()), 0)
  {
    forall p: nat -> int
      ensures !IsPath(Abstract(Linked()), 0, p)
    {
      PathsClimb(p, 4);
    }
  }

  lemma LinkOffered()
    ensures AllNodes(2, MidClosed()) == [0, 1, 3]
    ensures AllLinks(Matching, 2, [0, 1, 3], MidClosed()) == Ok([App([], Linked())])
  {
    var prf, a, none := MidClosed(), [App([], Linked())], [];
    assert 3 in prf && FreshIdx(prf) == 4;
    assert NodesBelow(2, prf, 1) == [0];
    assert NodesBelow(2, prf, 3) == [0, 1];
    assert [0, 1, 3][1..] == [1, 3] && [1, 3][1..] == [3] && [3][1..] == [];
    assert Matching(RIGHT, MID)[1..] == [] && a + none == a && none + a == a;
    assert LinksTo(Matching(RIGHT, MID), 2, 3, prf) == Ok(a);
    assert AllLinks(Matching, 2, [3], prf) == Ok(a);
    assert AllLinks(Matching, 2, [1, 3], prf) == Ok(a);
  }

  lemma RightLinks(check: Check)
    requires CheckCorrect(check)
    ensures R(check)(2, MidClosed()) == Ok([App([], Linked())])
  {
    LinkOffered();
    LinkedOk();
    LinkedWellFormed();
    LinkedGTC();
    AbstractSimple(Linked());
    var a := App([], Linked());
    assert CheckProof(check, Linked()) == Ok(true);
    assert [a][1..] == [] && [a] + [] == [a] && [] + [a] == [a];
    assert FilterChecked(check, [a]) == Ok([a]);
    OthersResult(check, 2, MidClosed(), [], [a]);
  }

  lemma FirstStep(ax: Rule, r: Rule, goals: seq<int>, prf: Proof, a: App, rest: seq<int>, apps: seq<App>)
    requires goals != [] && AppliesTo(ax, r, goals[0], prf, a)
    requires rest == a.goals + goals[1..] && IsDerivation(ax, r, rest, a.prf, apps)
    ensures IsDerivation(ax, r, goals, prf, [a] + apps)
  {
    assert ([a] + apps)[1..] == apps;
  }

  function Derivation(): seq<App> {
    [App([1, 2], Split())] + ([App([3], Second())] + ([App([], MidClosed())] + ([App([], Linked())] + [])))
  }

  lemma DerivationExists(check: Check)
    requires CheckCorrect(check)
    ensures IsDerivation(Ax(check), R(check), [0], Mk(ROOT), Derivation())
  {
    var ax, r, link := Ax(check), R(check), [App([], Linked())] + [];
    var close := [App([], MidClosed())] + link;
    RootSplits(check);
    LeftCloses(check);
    MidCloses(check);
    RightLinks(check);
    FirstStep(ax, r, [2], MidClosed(), App([], Linked()), [], []);
    FirstStep(ax, r, [3, 2], Second(), App([], MidClosed()), [2], link);
    assert r(1, Split()).value[1] == App([3], Second());
    FirstStep(ax, r, [1, 2], Split(), App([3], Second()), [3, 2], close);
    FirstStep(ax, r, [0], Mk(ROOT), App([1, 2], Split()), [1, 2], [App([3], Second())] + close);
  }

  /** Four applications close the root, the last a back-link that passes the check; the search misses them at every
      bound, because the target of the link is not in the proof that it commits to. */
  lemma BacklinksCanBeMissed(check: Check, bound: int)
    requires CheckCorrect(check)
    ensures IsDerivation(RuleOf(check, Axioms()), RuleOf(check, Others()), [0], Mk(ROOT), Derivation())
    ensures Dfs(RuleOf(check, Axioms()), RuleOf(check, Others()), bound, 0, Mk(ROOT)) == Ok(None)
  {
    DerivationExists(check);
    SearchFails(check, bound);
  }
}
