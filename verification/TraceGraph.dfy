/** Abstract cyclic proofs (src/generic/soundcheck.ml): a finite graph whose edges carry a set of
    valid tag pairs and a set of progressing tag pairs, and the global trace condition on it. */
module TraceGraph {
  type Pairs = set<(int, int)>

  /** One premise of a node: its index, its valid and its progressing tag pairs. */
  datatype Edge = Edge(goal: int, tv: Pairs, tp: Pairs)

  datatype AbsNode = AbsNode(tags: set<int>, subg: seq<Edge>)

  type AbsProof = map<int, AbsNode>

  // ---------- The edge relations, as the C++ tables see them ----------

  ghost predicate Step(g: AbsProof, a: int, b: int) {
    a in g && exists e :: e in g[a].subg && e.goal == b
  }

  ghost predicate Valid(g: AbsProof, a: int, b: int, x: int, y: int) {
    a in g && exists e :: e in g[a].subg && e.goal == b && (x, y) in e.tv
  }

  ghost predicate Prog(g: AbsProof, a: int, b: int, x: int, y: int) {
    a in g && exists e :: e in g[a].subg && e.goal == b && (x, y) in e.tp
  }

  // ---------- Infinite paths and traces ----------

  ghost predicate StepAt(g: AbsProof, p: nat -> int, i: nat) {
    Step(g, p(i), p(i + 1))
  }

  ghost predicate ValidAt(g: AbsProof, p: nat -> int, t: nat -> int, i: nat) {
    Valid(g, p(i), p(i + 1), t(i), t(i + 1))
  }

  ghost predicate ProgAt(g: AbsProof, p: nat -> int, t: nat -> int, i: nat) {
    Prog(g, p(i), p(i + 1), t(i), t(i + 1))
  }

  ghost predicate IsPath(g: AbsProof, root: int, p: nat -> int) {
    p(0) == root && forall i: nat :: StepAt(g, p, i)
  }

  /** `t` follows the tail of `p` that starts at position `k`. */
  ghost predicate IsTrace(g: AbsProof, p: nat -> int, k: nat, t: nat -> int) {
    forall i: nat :: k <= i ==> ValidAt(g, p, t, i)
  }

  ghost predicate ProgressesAfter(g: AbsProof, p: nat -> int, t: nat -> int, n: nat) {
    exists m: nat :: n <= m && ProgAt(g, p, t, m)
  }

  ghost predicate InfinitelyProgressing(g: AbsProof, p: nat -> int, t: nat -> int) {
    forall n: nat :: ProgressesAfter(g, p, t, n)
  }

  ghost predicate FollowedFrom(g: AbsProof, p: nat -> int, k: nat) {
    exists t: nat -> int :: IsTrace(g, p, k, t) && InfinitelyProgressing(g, p, t)
  }

  /** Some tail of `p` is followed by an infinitely progressing trace. */
  ghost predicate Followed(g: AbsProof, p: nat -> int) {
    exists k: nat :: FollowedFrom(g, p, k)
  }

  /** The global trace condition for the paths that start at `root`. */
  ghost predicate GTC(g: AbsProof, root: int) {
    forall p: nat -> int :: IsPath(g, root, p) ==> Followed(g, p)
  }

  // ---------- Well-formedness (soundcheck.ml, `valid`) ----------

  predicate EdgeOk(g: AbsProof, tags: set<int>, e: Edge) {
    && e.goal in g
    && e.tp <= e.tv
    && (forall q :: q in e.tv ==> q.0 in tags && q.1 in g[e.goal].tags)
  }

  predicate NodeOk(g: AbsProof, n: AbsNode) {
    forall k :: 0 <= k < |n.subg| ==> EdgeOk(g, n.tags, n.subg[k])
  }

  predicate AllNodesOk(g: AbsProof) {
    forall i :: i in g ==> NodeOk(g, g[i])
  }

  predicate WellFormed(g: AbsProof, root: int) {
    root in g && AllNodesOk(g)
  }

  /** No node lists the same successor twice. */
  predicate DistinctGoals(subg: seq<Edge>) {
    forall j, k :: 0 <= j < k < |subg| ==> subg[j].goal != subg[k].goal
  }

  predicate Simple(g: AbsProof) {
    forall i :: i in g ==> DistinctGoals(g[i].subg)
  }
}
