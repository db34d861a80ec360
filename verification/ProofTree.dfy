/** Cyclic proofs under construction (src/generic/proof.ml, src/generic/proofnode.ml). */
module ProofTree {
  import opened Sets
  import opened Outcomes
  import opened TraceGraph

  /** A sequent: what is left when tags are ignored, and the tags in their places. */
  datatype Sequent = Sequent(shape: int, tagging: seq<int>) {
    function Tags(): set<int> {
      set t | t in tagging
    }
  }

  predicate EqualUpToTags(s: Sequent, s': Sequent) {
    s.shape == s'.shape && |s.tagging| == |s'.tagging|
  }

  datatype Premise = Premise(sequent: Sequent, tv: Pairs, tp: Pairs)

  datatype Node =
    | Open(sequent: Sequent)
    | Axiom(sequent: Sequent, descr: string)
    | Inf(sequent: Sequent, descr: string, succs: seq<int>, tagpairs2: seq<(Pairs, Pairs)>)
    | Back(sequent: Sequent, descr: string, succ: int, tagpairs: Pairs)

  /** A node and the index of its parent; the root is its own parent. */
  datatype Entry = Entry(parent: int, node: Node)

  type Proof = map<int, Entry>

  // ---------- The abstract graph ----------

  function InfEdges(succs: seq<int>, tagpairs2: seq<(Pairs, Pairs)>): (r: seq<Edge>)
    requires |succs| == |tagpairs2|
    ensures |r| == |succs|
    ensures forall k :: 0 <= k < |r| ==> r[k] == Edge(succs[k], tagpairs2[k].0, tagpairs2[k].1)
  {
    seq(|succs|, k requires 0 <= k < |succs| => Edge(succs[k], tagpairs2[k].0, tagpairs2[k].1))
  }

  function ToAbstractNode(n: Node): AbsNode
    requires NodeShapeOk(n)
  {
    match n
    case Open(s) => AbsNode(s.Tags(), [])
    case Axiom(s, _) => AbsNode(s.Tags(), [])
    case Inf(s, _, succs, tps) => AbsNode(s.Tags(), InfEdges(succs, tps))
    case Back(s, _, succ, tps) => AbsNode(s.Tags(), [Edge(succ, tps, {})])
  }

  predicate NodeShapeOk(n: Node) {
    n.Inf? ==> |n.succs| == |n.tagpairs2|
  }

  predicate ShapesOk(prf: Proof) {
    forall i :: i in prf ==> NodeShapeOk(prf[i].node)
  }

  function Abstract(prf: Proof): (g: AbsProof)
    requires ShapesOk(prf)
    ensures g.Keys == prf.Keys
    ensures forall i :: i in prf ==> g[i] == ToAbstractNode(prf[i].node)
  {
    map i | i in prf :: ToAbstractNode(prf[i].node)
  }

  function Succs(n: Node): seq<int> {
    match n
    case Open(_) => []
    case Axiom(_, _) => []
    case Inf(_, _, succs, _) => succs
    case Back(_, _, succ, _) => [succ]
  }

  // ---------- The invariant of proofs ----------

  predicate Distinct(s: seq<int>) {
    forall j, k :: 0 <= j < k < |s| ==> s[j] != s[k]
  }

  predicate EntryOk(prf: Proof, i: int)
    requires i in prf
  {
    var e := prf[i];
    && Distinct(Succs(e.node))
    && (forall k :: 0 <= k < |Succs(e.node)| ==> Succs(e.node)[k] in prf)
    && (e.node.Inf? ==>
          forall k :: 0 <= k < |e.node.succs| ==> i < e.node.succs[k] && prf[e.node.succs[k]].parent == i)
    && (e.node.Back? ==>
          e.node.succ in prf && EqualUpToTags(e.node.sequent, prf[e.node.succ].node.sequent))
    && (if i == 0 then e.parent == 0
        else 0 <= e.parent < i && e.parent in prf && prf[e.parent].node.Inf? && i in prf[e.parent].node.succs)
  }

  /** Rooted at 0, all indices present, parent links decreasing towards the root. */
  predicate ProofOk(prf: Proof) {
    0 in prf && ShapesOk(prf) && forall i {:trigger EntryOk(prf, i)} :: i in prf ==> EntryOk(prf, i)
  }

  function Opens(prf: Proof): set<int> {
    set i | i in prf && prf[i].node.Open?
  }

  predicate IsClosed(prf: Proof) {
    forall i :: i in prf ==> !prf[i].node.Open?
  }

  lemma AbstractSimple(prf: Proof)
    requires ProofOk(prf)
    ensures Simple(Abstract(prf))
  {
    forall i | i in prf
      ensures DistinctGoals(Abstract(prf)[i].subg)
    {
      assert EntryOk(prf, i);
    }
  }

  /** One step of a trace, read off the proof: from `x` at node `i` to `y` at node `j`. */
  ghost predicate TraceStep(prf: Proof, i: int, j: int, x: int, y: int)
    requires i in prf && NodeShapeOk(prf[i].node)
  {
    match prf[i].node
    case Inf(_, _, succs, tps) => exists k :: 0 <= k < |succs| && succs[k] == j && (x, y) in tps[k].0
    case Back(_, _, succ, tps) => succ == j && (x, y) in tps
    case _ => false
  }

  /** Only inferences progress. */
  ghost predicate ProgressStep(prf: Proof, i: int, j: int, x: int, y: int)
    requires i in prf && NodeShapeOk(prf[i].node)
  {
    match prf[i].node
    case Inf(_, _, succs, tps) => exists k :: 0 <= k < |succs| && succs[k] == j && (x, y) in tps[k].1
    case _ => false
  }

  /** The graph that is checked has the nodes and tags of the proof, and the traces of its tag pairs. */
  lemma AbstractTraces(prf: Proof, i: int, j: int, x: int, y: int)
    requires ProofOk(prf) && i in prf
    ensures Abstract(prf).Keys == prf.Keys && (x in Abstract(prf)[i].tags <==> x in prf[i].node.sequent.tagging)
    ensures Step(Abstract(prf), i, j) <==> j in Succs(prf[i].node)
    ensures Valid(Abstract(prf), i, j, x, y) <==> TraceStep(prf, i, j, x, y)
    ensures Prog(Abstract(prf), i, j, x, y) <==> ProgressStep(prf, i, j, x, y)
  {
    var n, subg := prf[i].node, Abstract(prf)[i].subg;
    if n.Inf? {
      forall k | 0 <= k < |n.succs|
        ensures subg[k] == Edge(n.succs[k], n.tagpairs2[k].0, n.tagpairs2[k].1) && subg[k] in subg
      {
      }
      if e :| e in subg && e.goal == j {
        var k :| 0 <= k < |subg| && subg[k] == e;
      }
    } else if n.Back? {
      assert subg == [Edge(n.succ, n.tagpairs, {})] && subg[0] in subg;
    }
  }

  // ---------- Constructors ----------

  function Mk(s: Sequent): (prf: Proof)
    ensures ProofOk(prf) && Opens(prf) == {0} && prf[0].node.sequent == s
  {
    map[0 := Entry(0, Open(s))]
  }

  /** One more than the largest index. */
  function FreshIdx(prf: Proof): (r: int)
    requires prf.Keys != {}
    ensures r - 1 in prf && forall i :: i in prf ==> i < r
  {
    MaxExists(prf.Keys);
    var m :| m in prf.Keys && forall i :: i in prf.Keys ==> i <= m;
    m + 1
  }

  /** The assertion of `ensure_add`, whose sequent part every caller meets by construction. */
  predicate CanAdd(prf: Proof, idx: int) {
    idx in prf && prf[idx].node.Open?
  }

  function Replace(prf: Proof, idx: int, n: Node): Proof
    requires idx in prf
  {
    prf[idx := Entry(prf[idx].parent, n)]
  }

  function AddAxiom(idx: int, descr: string, prf: Proof): Outcome<Proof> {
    if !CanAdd(prf, idx) then Raised
    else Ok(Replace(prf, idx, Axiom(prf[idx].node.sequent, descr)))
  }

  function AddBacklink(idx: int, descr: string, target: int, vtts: Pairs, prf: Proof): Outcome<Proof> {
    if !CanAdd(prf, idx) || target !in prf || !EqualUpToTags(prf[idx].node.sequent, prf[target].node.sequent) then Raised
    else Ok(Replace(prf, idx, Back(prf[idx].node.sequent, descr, target, vtts)))
  }

  /** `Blist.range`: as many consecutive indices as there are subgoals. */
  function Range(from: int, n: nat): (r: seq<int>)
    ensures |r| == n && forall k :: 0 <= k < n ==> r[k] == from + k
    ensures Distinct(r)
  {
    seq(n, k => from + k)
  }

  function AddOpenNodes(prf: Proof, parent: int, from: int, subgoals: seq<Premise>): (r: Proof)
    ensures forall i :: i in r <==> i in prf || from <= i < from + |subgoals|
    ensures forall i :: i in r ==>
              r[i] == if from <= i < from + |subgoals| then Entry(parent, Open(subgoals[i - from].sequent)) else prf[i]
  {
    if subgoals == [] then prf
    else
      var n := |subgoals| - 1;
      AddOpenNodes(prf, parent, from, subgoals[..n])[from + n := Entry(parent, Open(subgoals[n].sequent))]
  }

  function AddInf(idx: int, descr: string, subgoals: seq<Premise>, prf: Proof): Outcome<(seq<int>, Proof)> {
    if !CanAdd(prf, idx) then Raised
    else
      var from := FreshIdx(prf);
      var subidxs := Range(from, |subgoals|);
      var tagpairs2 := seq(|subgoals|, k requires 0 <= k < |subgoals| => (subgoals[k].tv, subgoals[k].tp));
      var n := Inf(prf[idx].node.sequent, descr, subidxs, tagpairs2);
      Ok((subidxs, AddOpenNodes(Replace(prf, idx, n), idx, from, subgoals)))
  }
}
