/** Which applications rules return (src/generic/proofrule.ml): the results of
    compositions as runs, and those of back-link rules by the trace condition. */
module RuleResults {
  import opened Outcomes
  import opened TraceGraph
  import opened ProofTree
  import opened Rules
  import opened Combinators

  // ---------- Compositions ----------

  /** One way of applying the rules to the goals, each to what the ones before have made. */
  ghost predicate Threads(rules: seq<Rule>, goals: seq<int>, a: App, b: App) {
    if rules == [] || goals == [] then rules == [] && goals == [] && a == b
    else exists x :: Applies(rules[0], goals[0], a, x) && Threads(rules[1..], goals[1..], x, b)
  }

  /** `x` is an application of `r` to the node `i` of `a`, after the goals of `a`. */
  ghost predicate Applies(r: Rule, i: int, a: App, x: App) {
    r(i, a.prf).Ok? && exists y :: y in r(i, a.prf).value && x == App(a.goals + y.goals, y.prf)
  }

  lemma {:induction false} ApplyToAllExact(r: Rule, i: int, apps: seq<App>, x: App)
    requires ApplyToAll(r, i, apps).Ok?
    ensures x in ApplyToAll(r, i, apps).value <==> exists a :: a in apps && Applies(r, i, a, x)
    decreases |apps|
  {
    if apps != [] {
      var a, rest := apps[0], apps[1..];
      ApplyToAllExact(r, i, rest, x);
      var added := Prefixed(a.goals, r(i, a.prf).value);
      assert x in added <==> Applies(r, i, a, x) by {
        if x in added {
          var k :| 0 <= k < |added| && added[k] == x;
          assert r(i, a.prf).value[k] in r(i, a.prf).value;
        }
        if Applies(r, i, a, x) {
          var y :| y in r(i, a.prf).value && x == App(a.goals + y.goals, y.prf);
          var k :| 0 <= k < |r(i, a.prf).value| && r(i, a.prf).value[k] == y;
          assert added[k] == x;
        }
      }
      assert forall b :: b in apps <==> b == a || b in rest;
    }
  }

  lemma {:induction false} FoldPairwiseExact(apps: seq<App>, rules: seq<Rule>, goals: seq<int>, b: App)
    requires FoldPairwise(apps, rules, goals).Ok?
    ensures b in FoldPairwise(apps, rules, goals).value <==> exists a :: a in apps && Threads(rules, goals, a, b)
    decreases |goals|
  {
    if rules == [] && goals == [] {
      assert b in apps ==> Threads(rules, goals, b, b);
    } else if rules != [] && goals != [] {
      var apps' := ApplyToAll(rules[0], goals[0], apps).value;
      FoldPairwiseExact(apps', rules[1..], goals[1..], b);
      if b in FoldPairwise(apps, rules, goals).value {
        var x :| x in apps' && Threads(rules[1..], goals[1..], x, b);
        ApplyToAllExact(rules[0], goals[0], apps, x);
        var a :| a in apps && Applies(rules[0], goals[0], a, x);
        assert Threads(rules, goals, a, b);
      }
      if a :| a in apps && Threads(rules, goals, a, b) {
        var x :| Applies(rules[0], goals[0], a, x) && Threads(rules[1..], goals[1..], x, b);
        ApplyToAllExact(rules[0], goals[0], apps, x);
      }
    }
  }

  lemma {:induction false} BindPairwiseExact(rules: App -> seq<Rule>, apps: seq<App>, b: App)
    requires BindPairwise(rules, apps).Ok?
    ensures b in BindPairwise(rules, apps).value <==>
            exists a :: a in apps && Threads(rules(a), a.goals, App([], a.prf), b)
    decreases |apps|
  {
    if apps != [] {
      var a, rest := apps[0], apps[1..];
      BindPairwiseExact(rules, rest, b);
      FoldPairwiseExact([App([], a.prf)], rules(a), a.goals, b);
      assert forall c :: c in apps <==> c == a || c in rest;
    }
  }

  /** The results of a composition are exactly the runs of the second rule over all the subgoals of the first. */
  lemma ComposeExact(r: Rule, r': Rule, idx: int, prf: Proof, b: App)
    requires Compose(r, r', idx, prf).Ok?
    ensures r(idx, prf).Ok?
    ensures b in Compose(r, r', idx, prf).value <==>
            exists a :: a in r(idx, prf).value && Threads(seq(|a.goals|, _ => r'), a.goals, App([], a.prf), b)
  {
    BindPairwiseExact((a: App) => seq(|a.goals|, _ => r'), r(idx, prf).value, b);
  }

  lemma ComposePairwiseExact(r: Rule, rs: seq<Rule>, idx: int, prf: Proof, b: App)
    requires ComposePairwise(r, rs, idx, prf).Ok?
    ensures r(idx, prf).Ok?
    ensures b in ComposePairwise(r, rs, idx, prf).value <==>
            exists a :: a in r(idx, prf).value && Threads(rs, a.goals, App([], a.prf), b)
  {
    BindPairwiseExact((a: App) => rs, r(idx, prf).value, b);
  }

  // ---------- The other combinators ----------

  /** `first` is the first rule that raises or has applications. */
  lemma {:induction false} FirstExact(rl: seq<Rule>, idx: int, prf: Proof)
    ensures First(rl, idx, prf) == Ok([]) <==> forall k :: 0 <= k < |rl| ==> rl[k](idx, prf) == Ok([])
    ensures forall k :: 0 <= k < |rl| && rl[k](idx, prf) != Ok([]) && (forall j :: 0 <= j < k ==> rl[j](idx, prf) == Ok([])) ==>
              First(rl, idx, prf) == rl[k](idx, prf)
  {
    if rl != [] {
      FirstExact(rl[1..], idx, prf);
      assert forall k :: 1 <= k < |rl| ==> rl[k] == rl[1..][k - 1];
      forall k | 1 <= k < |rl| && rl[k](idx, prf) != Ok([]) && (forall j :: 0 <= j < k ==> rl[j](idx, prf) == Ok([]))
        ensures First(rl, idx, prf) == rl[k](idx, prf)
      {
        assert forall j :: 0 <= j < k - 1 ==> rl[1..][j] == rl[j + 1];
        assert rl[1..][k - 1](idx, prf) != Ok([]);
      }
    }
  }

  /** `choice` raises if one of its rules does, and has the applications of all of them. */
  lemma {:induction false} ChoiceExact(rl: seq<Rule>, idx: int, prf: Proof, b: App)
    ensures Choice(rl, idx, prf).Ok? <==> forall k :: 0 <= k < |rl| ==> rl[k](idx, prf).Ok?
    ensures Choice(rl, idx, prf).Ok? ==>
              (b in Choice(rl, idx, prf).value <==> exists k :: 0 <= k < |rl| && b in rl[k](idx, prf).value)
  {
    if rl != [] {
      ChoiceExact(rl[1..], idx, prf, b);
      assert forall k :: 1 <= k < |rl| ==> rl[k] == rl[1..][k - 1];
      assert forall k :: 0 <= k < |rl| - 1 ==> rl[1..][k] == rl[k + 1];
    }
  }

  /** `attempt` returns what the rule does, and falls back to the node itself exactly if that is nothing. */
  lemma AttemptExact(r: Rule, idx: int, prf: Proof)
    ensures r(idx, prf) == Ok([]) ==> Attempt(r, idx, prf) == Ok([App([idx], prf)])
    ensures r(idx, prf) != Ok([]) ==> Attempt(r, idx, prf) == r(idx, prf)
  {
  }

  // ---------- Axioms and inferences ----------

  /** The goals are numbered in order, from the first index above those of the proof. */
  ghost predicate Fresh(prf: Proof, goals: seq<int>)
    requires prf.Keys != {}
  {
    forall j :: 0 <= j < |goals| ==> goals[j] == FreshIdx(prf) + j
  }

  /** The node `idx` has become an inference with the goals as premises, and records their pairs. */
  ghost predicate InferenceAt(e: Entry, e': Entry, a: InfApp, goals: seq<int>) {
    && e'.parent == e.parent && e'.node.Inf?
    && e'.node.sequent == e.node.sequent && e'.node.descr == a.descr && e'.node.succs == goals
    && |e'.node.tagpairs2| == |a.premises|
    && forall j :: 0 <= j < |a.premises| ==> e'.node.tagpairs2[j] == (a.premises[j].tv, a.premises[j].tp)
  }

  /** There are open nodes for the premises, and the nodes other than `idx` stay as they are. */
  ghost predicate OpensPremises(prf: Proof, idx: int, a: InfApp, b: App) {
    && |b.goals| == |a.premises|
    && (forall i :: i in b.prf <==> i in prf || i in b.goals)
    && (forall i :: i in prf && i != idx ==> b.prf[i] == prf[i])
    && (forall j :: 0 <= j < |b.goals| ==> b.prf[b.goals[j]] == Entry(idx, Open(a.premises[j].sequent)))
  }

  /** `b` is the result of the inference `a` at node `idx`. */
  ghost predicate Inferred(prf: Proof, idx: int, a: InfApp, b: App)
    requires idx in prf
  {
    Fresh(prf, b.goals) && OpensPremises(prf, idx, a, b) && idx in b.prf && InferenceAt(prf[idx], b.prf[idx], a, b.goals)
  }

  lemma InRange(from: int, n: nat, i: int)
    ensures i in Range(from, n) <==> from <= i < from + n
  {
    if from <= i < from + n {
      assert Range(from, n)[i - from] == i;
    }
  }

  lemma AddInfNodes(idx: int, descr: string, premises: seq<Premise>, prf: Proof, i: int)
    requires CanAdd(prf, idx)
    ensures var (goals, prf') := AddInf(idx, descr, premises, prf).value;
      && (i in prf' <==> i in prf || i in goals)
      && (i in prf && i != idx ==> prf'[i] == prf[i])
  {
    InRange(FreshIdx(prf), |premises|, i);
  }

  lemma AddInfOpens(idx: int, descr: string, premises: seq<Premise>, prf: Proof)
    requires CanAdd(prf, idx)
    ensures var r := AddInf(idx, descr, premises, prf).value;
      Fresh(prf, r.0) && OpensPremises(prf, idx, InfApp(premises, descr), App(r.0, r.1))
  {
    var (goals, prf') := AddInf(idx, descr, premises, prf).value;
    forall i: int
      ensures i in prf' <==> i in prf || i in goals
      ensures i in prf && i != idx ==> i in prf' && prf'[i] == prf[i]
    {
      AddInfNodes(idx, descr, premises, prf, i);
    }
    forall j | 0 <= j < |goals|
      ensures goals[j] in prf' && prf'[goals[j]] == Entry(idx, Open(premises[j].sequent))
    {
      assert goals[j] == FreshIdx(prf) + j;
    }
  }

  lemma AddInfExact(idx: int, descr: string, premises: seq<Premise>, prf: Proof)
    requires CanAdd(prf, idx)
    ensures var r := AddInf(idx, descr, premises, prf).value;
      Inferred(prf, idx, InfApp(premises, descr), App(r.0, r.1))
  {
    AddInfOpens(idx, descr, premises, prf);
  }

  lemma {:induction false} MapInfEach(apps: seq<InfApp>, idx: int, prf: Proof)
    requires CanAdd(prf, idx)
    ensures MapInf(apps, idx, prf).Ok? && |MapInf(apps, idx, prf).value| == |apps|
    ensures forall k :: 0 <= k < |apps| ==>
              var r := AddInf(idx, apps[k].descr, apps[k].premises, prf).value;
              MapInf(apps, idx, prf).value[k] == App(r.0, r.1)
  {
    if apps != [] {
      MapInfEach(apps[1..], idx, prf);
      assert forall k :: 1 <= k < |apps| ==> apps[1..][k - 1] == apps[k];
    }
  }

  /** An inference rule offers, in order, exactly the results of the inferences of its function. */
  lemma InfruleExact(rF: Sequent -> seq<InfApp>, idx: int, prf: Proof)
    requires CanAdd(prf, idx)
    ensures var apps := MkInfrule(rF, idx, prf); var infs := rF(prf[idx].node.sequent);
      && apps.Ok? && |apps.value| == |infs|
      && forall k :: 0 <= k < |infs| ==> Inferred(prf, idx, infs[k], apps.value[k])
  {
    var infs := rF(prf[idx].node.sequent);
    MapInfEach(infs, idx, prf);
    forall k | 0 <= k < |infs|
      ensures Inferred(prf, idx, infs[k], MapInf(infs, idx, prf).value[k])
    {
      AddInfExact(idx, infs[k].descr, infs[k].premises, prf);
      assert InfApp(infs[k].premises, infs[k].descr) == infs[k];
    }
  }

  /** An axiom rule closes the node with the description of its function, if there is one. */
  lemma AxiomExact(axF: Sequent -> Option<string>, idx: int, prf: Proof, b: App)
    requires CanAdd(prf, idx)
    ensures MkAxiom(axF, idx, prf).Ok?
    ensures b in MkAxiom(axF, idx, prf).value <==>
            && b.goals == [] && axF(prf[idx].node.sequent).Some?
            && b.prf == prf[idx := Entry(prf[idx].parent, Axiom(prf[idx].node.sequent, axF(prf[idx].node.sequent).value))]
  {
  }

  // ---------- Back-links ----------

  type Link = (Pairs, string)

  /** The proof with a back-link from `src`. */
  function LinkedTo(prf: Proof, src: int, trg: int, l: Link): Proof
    requires src in prf
  {
    prf[src := Entry(prf[src].parent, Back(prf[src].node.sequent, l.1, trg, l.0))]
  }

  /** The matches of the sequents of two nodes. */
  function MatchesOf(brF: Matcher, src: int, trg: int, prf: Proof): seq<Link>
    requires src in prf && trg in prf
  {
    brF(prf[src].node.sequent, prf[trg].node.sequent)
  }

  ghost predicate Linkable(prf: Proof, src: int, trg: int)
    requires src in prf && trg in prf
  {
    prf[src].node.Open? && EqualUpToTags(prf[src].node.sequent, prf[trg].node.sequent)
  }

  lemma {:induction false} LinksToExact(links: seq<Link>, src: int, trg: int, prf: Proof)
    requires src in prf && trg in prf
    ensures LinksTo(links, src, trg, prf).Ok? <==> links == [] || Linkable(prf, src, trg)
    ensures LinksTo(links, src, trg, prf).Ok? ==>
              && |LinksTo(links, src, trg, prf).value| == |links|
              && forall j :: 0 <= j < |links| ==>
                   LinksTo(links, src, trg, prf).value[j] == App([], LinkedTo(prf, src, trg, links[j]))
  {
    if links != [] {
      LinksToExact(links[1..], src, trg, prf);
      assert forall j :: 1 <= j < |links| ==> links[j] == links[1..][j - 1];
    }
  }

  ghost predicate AllPresent(trgs: seq<int>, prf: Proof) {
    forall k :: 0 <= k < |trgs| ==> trgs[k] in prf
  }

  /** How many links there are to the first `k` targets. */
  ghost function LinksBefore(brF: Matcher, src: int, trgs: seq<int>, prf: Proof, k: nat): nat
    requires src in prf && AllPresent(trgs, prf) && k <= |trgs|
  {
    if k == 0 then 0 else LinksBefore(brF, src, trgs, prf, k - 1) + |MatchesOf(brF, src, trgs[k - 1], prf)|
  }

  lemma {:induction false} LinksBeforeTail(brF: Matcher, src: int, trgs: seq<int>, prf: Proof, k: nat)
    requires src in prf && AllPresent(trgs, prf) && 0 < k <= |trgs|
    ensures AllPresent(trgs[1..], prf)
    ensures LinksBefore(brF, src, trgs, prf, k) ==
            |MatchesOf(brF, src, trgs[0], prf)| + LinksBefore(brF, src, trgs[1..], prf, k - 1)
    decreases k
  {
    if k > 1 {
      LinksBeforeTail(brF, src, trgs, prf, k - 1);
      assert trgs[1..][k - 2] == trgs[k - 1];
    }
  }

  /** The targets are nodes, and every match of one makes a link. */
  ghost predicate AllLinkable(brF: Matcher, src: int, trgs: seq<int>, prf: Proof)
    requires src in prf
  {
    && AllPresent(trgs, prf)
    && forall k :: 0 <= k < |trgs| ==> MatchesOf(brF, src, trgs[k], prf) == [] || Linkable(prf, src, trgs[k])
  }

  lemma {:induction false} AllLinksOk(brF: Matcher, src: int, trgs: seq<int>, prf: Proof)
    requires src in prf
    ensures AllLinks(brF, src, trgs, prf).Ok? <==> AllLinkable(brF, src, trgs, prf)
    decreases |trgs|
  {
    if trgs != [] {
      AllLinksOk(brF, src, trgs[1..], prf);
      assert forall k :: 1 <= k < |trgs| ==> trgs[k] == trgs[1..][k - 1];
      assert forall k :: 0 <= k < |trgs| - 1 ==> trgs[1..][k] == trgs[k + 1];
      if trgs[0] in prf {
        LinksToExact(MatchesOf(brF, src, trgs[0], prf), src, trgs[0], prf);
      }
    }
  }

  /** The links come target by target, and for each in the order of the matches, with the pairs of the match. */
  lemma {:induction false} AllLinksExact(brF: Matcher, src: int, trgs: seq<int>, prf: Proof, k: nat, j: nat)
    requires src in prf && AllLinks(brF, src, trgs, prf).Ok? && AllPresent(trgs, prf)
    requires k < |trgs| && j < |MatchesOf(brF, src, trgs[k], prf)|
    ensures var links := AllLinks(brF, src, trgs, prf).value; var n := LinksBefore(brF, src, trgs, prf, k) + j;
      && n < |links| == LinksBefore(brF, src, trgs, prf, |trgs|)
      && links[n] == App([], LinkedTo(prf, src, trgs[k], MatchesOf(brF, src, trgs[k], prf)[j]))
    decreases |trgs|
  {
    AllLinksLength(brF, src, trgs, prf);
    LinksToExact(MatchesOf(brF, src, trgs[0], prf), src, trgs[0], prf);
    var first := LinksTo(MatchesOf(brF, src, trgs[0], prf), src, trgs[0], prf).value;
    if k > 0 {
      LinksBeforeTail(brF, src, trgs, prf, k);
      assert trgs[1..][k - 1] == trgs[k];
      AllLinksExact(brF, src, trgs[1..], prf, k - 1, j);
      var rest := AllLinks(brF, src, trgs[1..], prf).value;
      assert AllLinks(brF, src, trgs, prf).value == first + rest;
    }
  }

  lemma {:induction false} AllLinksLength(brF: Matcher, src: int, trgs: seq<int>, prf: Proof)
    requires src in prf && AllLinks(brF, src, trgs, prf).Ok? && AllPresent(trgs, prf)
    ensures |AllLinks(brF, src, trgs, prf).value| == LinksBefore(brF, src, trgs, prf, |trgs|)
    decreases |trgs|
  {
    if trgs != [] {
      LinksToExact(MatchesOf(brF, src, trgs[0], prf), src, trgs[0], prf);
      AllLinksLength(brF, src, trgs[1..], prf);
      LinksBeforeTail(brF, src, trgs, prf, |trgs|);
    }
  }

  /** A link to one of the targets, by one of the matches. */
  ghost predicate IsLink(brF: Matcher, src: int, trgs: seq<int>, prf: Proof, b: App)
    requires src in prf
  {
    exists trg, l :: trg in trgs && trg in prf && l in MatchesOf(brF, src, trg, prf) && b == App([], LinkedTo(prf, src, trg, l))
  }

  lemma {:induction false} AllLinksMembers(brF: Matcher, src: int, trgs: seq<int>, prf: Proof, b: App)
    requires src in prf && AllLinks(brF, src, trgs, prf).Ok?
    ensures b in AllLinks(brF, src, trgs, prf).value <==> IsLink(brF, src, trgs, prf, b)
    decreases |trgs|
  {
    if trgs != [] {
      var trg := trgs[0];
      var links := MatchesOf(brF, src, trg, prf);
      AllLinksMembers(brF, src, trgs[1..], prf, b);
      LinksToExact(links, src, trg, prf);
      assert trgs == [trg] + trgs[1..];
      var first := LinksTo(links, src, trg, prf).value;
      if b in first {
        var j :| 0 <= j < |first| && first[j] == b;
        assert links[j] in links;
      }
      if l :| l in links && b == App([], LinkedTo(prf, src, trg, l)) {
        var j :| 0 <= j < |links| && links[j] == l;
        assert first[j] == b;
      }
    }
  }

  ghost predicate Checked(check: Check, app: App) {
    CheckProof(check, app.prf) == Ok(true)
  }

  lemma {:induction false} FilterCheckedExact(check: Check, apps: seq<App>, b: App)
    requires FilterChecked(check, apps).Ok?
    ensures b in FilterChecked(check, apps).value <==> b in apps && Checked(check, b)
    decreases |apps|
  {
    if apps != [] {
      FilterCheckedExact(check, apps[1..], b);
      assert apps == [apps[0]] + apps[1..];
    }
  }

  ghost predicate Increasing(ks: seq<int>) {
    forall i, j :: 0 <= i < j < |ks| ==> ks[i] < ks[j]
  }

  /** The links that pass stay in order. */
  lemma {:induction false} FilterCheckedOrder(check: Check, apps: seq<App>) returns (ks: seq<int>)
    requires FilterChecked(check, apps).Ok?
    ensures |ks| == |FilterChecked(check, apps).value| && Increasing(ks)
    ensures forall i :: 0 <= i < |ks| ==> 0 <= ks[i] < |apps| && FilterChecked(check, apps).value[i] == apps[ks[i]]
    decreases |apps|
  {
    if apps == [] {
      ks := [];
    } else {
      var rest := FilterCheckedOrder(check, apps[1..]);
      var later := seq(|rest|, i requires 0 <= i < |rest| => rest[i] + 1);
      ks := if Checked(check, apps[0]) then [0] + later else later;
    }
  }

  /** A greedy rule returns the first of the links that the other kind returns, if there is one. */
  lemma {:induction false} GreedyIsFirst(check: Check, apps: seq<App>)
    requires FilterChecked(check, apps).Ok?
    ensures FirstChecked(check, apps).Ok?
    ensures FirstChecked(check, apps).value == (
              if FilterChecked(check, apps).value == [] then [] else [FilterChecked(check, apps).value[0]])
    decreases |apps|
  {
    if apps != [] {
      GreedyIsFirst(check, apps[1..]);
    }
  }

  lemma LinkedOk(brF: Matcher, src: int, trgs: seq<int>, prf: Proof, b: App)
    requires ProofOk(prf) && src in prf && AllLinks(brF, src, trgs, prf).Ok? && IsLink(brF, src, trgs, prf, b)
    ensures ProofOk(b.prf)
  {
    AllLinksOk(brF, src, trgs, prf);
    var trg, l :| trg in trgs && trg in prf && l in MatchesOf(brF, src, trg, prf)
               && b == App([], LinkedTo(prf, src, trg, l));
    var k :| 0 <= k < |trgs| && trgs[k] == trg;
    ReplaceOk(prf, src, b.prf[src].node);
  }

  /** The check does not raise on the linked proof. */
  ghost predicate Tidy(b: App) {
    ShapesOk(b.prf) && WellFormed(Abstract(b.prf), 0)
  }

  ghost predicate Checkable(b: App) {
    ProofOk(b.prf) && Simple(Abstract(b.prf))
  }

  lemma {:induction false} FilterRaises(check: Check, apps: seq<App>)
    requires CheckCorrect(check) && forall b :: b in apps ==> Checkable(b)
    ensures FilterChecked(check, apps).Ok? <==> forall b :: b in apps ==> Tidy(b)
    decreases |apps|
  {
    if apps != [] {
      assert apps[0] in apps && Checkable(apps[0]) && apps == [apps[0]] + apps[1..];
      FilterRaises(check, apps[1..]);
    }
  }

  /** It raises exactly if a selected node is not in the proof, a match cannot be made a link, or a link has pairs
      outside the tags. */
  lemma BackruleRaises(selF: Selector, brF: Matcher, check: Check, src: int, prf: Proof)
    requires CheckCorrect(check) && ProofOk(prf) && src in prf
    ensures MkBackrule(false, selF, brF, check, src, prf).Ok? <==>
            && AllLinkable(brF, src, selF(src, prf), prf)
            && forall b :: IsLink(brF, src, selF(src, prf), prf, b) ==> Tidy(b)
  {
    var trgs := selF(src, prf);
    AllLinksOk(brF, src, trgs, prf);
    if AllLinks(brF, src, trgs, prf).Ok? {
      var apps := AllLinks(brF, src, trgs, prf).value;
      forall b
        ensures b in apps <==> IsLink(brF, src, trgs, prf, b)
        ensures b in apps ==> Checkable(b)
      {
        AllLinksMembers(brF, src, trgs, prf, b);
        if b in apps {
          LinkedOk(brF, src, trgs, prf, b);
          AbstractSimple(b.prf);
        }
      }
      FilterRaises(check, apps);
    }
  }

  /** A back-link is offered exactly if it leads to a selected node, its pairs are those of a match, and it keeps the
      trace condition. */
  lemma BackruleExact(selF: Selector, brF: Matcher, check: Check, src: int, prf: Proof, b: App)
    requires CheckCorrect(check) && ProofOk(prf) && src in prf && MkBackrule(false, selF, brF, check, src, prf).Ok?
    ensures b in MkBackrule(false, selF, brF, check, src, prf).value <==>
            IsLink(brF, src, selF(src, prf), prf, b) && ShapesOk(b.prf) && GTC(Abstract(b.prf), 0)
  {
    var trgs := selF(src, prf);
    FilterCheckedExact(check, AllLinks(brF, src, trgs, prf).value, b);
    AllLinksMembers(brF, src, trgs, prf, b);
    BackruleRaises(selF, brF, check, src, prf);
    if IsLink(brF, src, trgs, prf, b) {
      assert Tidy(b);
      LinkedOk(brF, src, trgs, prf, b);
      AbstractSimple(b.prf);
    }
  }
}
