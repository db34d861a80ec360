/** The Büchi encoding of the global trace condition (src/generic/proof.c, proof_aut.hpp, trace.c):
    the proof automaton reads the vertex words of infinite paths, the trace automaton guesses a tail
    and a trace on it, and inclusion of the first language in the second is the condition. */
module Automata {
  import opened TraceGraph

  /** A vertex is a conjunction of literals over all the propositions: its bits, lowest first.
      The same type serves for the letters (valuations) that the automata read. */
  type Label = seq<bool>

  function Pow2(n: nat): (r: nat)
    ensures r >= 1
  {
    if n == 0 then 1 else 2 * Pow2(n - 1)
  }

  function Bits(l: nat, n: nat): (v: Label)
    ensures |v| == n
  {
    if n == 0 then [] else [l % 2 == 1] + Bits(l / 2, n - 1)
  }

  lemma {:induction false} BitsInjective(l: nat, m: nat, n: nat)
    requires l < Pow2(n) && m < Pow2(n)
    requires Bits(l, n) == Bits(m, n)
    ensures l == m
  {
    if n > 0 {
      assert Bits(l, n)[0] == Bits(m, n)[0];
      assert Bits(l, n)[1..] == Bits(l / 2, n - 1) && Bits(m, n)[1..] == Bits(m / 2, n - 1);
      BitsInjective(l / 2, m / 2, n - 1);
    }
  }

  /** The tables that the two automata are read off from. */
  datatype Tables = Tables(
    vertices: set<Label>,
    tags: map<Label, set<int>>,
    trans: map<Label, set<Label>>,
    trace: set<(Label, Label, int, int)>,
    progress: set<(Label, Label, int, int)>,
    initial: Label)

  ghost predicate TablesOk(t: Tables) {
    && t.tags.Keys == t.vertices && t.trans.Keys == t.vertices
    && t.initial in t.vertices
    && (forall v :: v in t.trans ==> t.trans[v] <= t.vertices)
  }

  // ---------- The proof automaton ----------

  datatype ProofState = Ghost | AtVertex(vertex: Label)

  ghost predicate ProofMove(t: Tables, s: ProofState, letter: Label, s': ProofState) {
    match s
    case Ghost => s' == AtVertex(t.initial) && letter == t.initial
    case AtVertex(v) => v in t.trans && s'.AtVertex? && s'.vertex in t.trans[v] && letter == s'.vertex
  }

  ghost predicate ProofMoveAt(t: Tables, w: nat -> Label, run: nat -> ProofState, i: nat) {
    ProofMove(t, run(i), w(i), run(i + 1))
  }

  ghost predicate ProofRun(t: Tables, w: nat -> Label, run: nat -> ProofState) {
    run(0) == Ghost && forall i: nat :: ProofMoveAt(t, w, run, i)
  }

  /** Every transition of the proof automaton is accepting, so every infinite run accepts. */
  ghost predicate ProofAccepts(t: Tables, w: nat -> Label) {
    exists run: nat -> ProofState :: ProofRun(t, w, run)
  }

  // ---------- The trace automaton ----------

  datatype TraceState = Start | Following(vertex: Label, tag: int)

  /** The successors that `TraceSuccIterator::first` lists. */
  predicate TraceSucc(t: Tables, s: TraceState, s': TraceState) {
    match s
    case Start => s' == Start || (s'.vertex in t.vertices && s'.vertex in t.tags && s'.tag in t.tags[s'.vertex])
    case Following(v, x) =>
      && s'.Following? && v in t.trans && s'.vertex in t.trans[v]
      && s'.vertex in t.tags && s'.tag in t.tags[s'.vertex]
      && (v, s'.vertex, x, s'.tag) in t.trace
  }

  ghost predicate TraceMove(t: Tables, s: TraceState, letter: Label, s': TraceState) {
    TraceSucc(t, s, s') && (s'.Following? ==> letter == s'.vertex)
  }

  ghost predicate Accepting(t: Tables, s: TraceState, s': TraceState) {
    s.Following? && s'.Following? && (s.vertex, s'.vertex, s.tag, s'.tag) in t.progress
  }

  ghost predicate TraceMoveAt(t: Tables, w: nat -> Label, run: nat -> TraceState, i: nat) {
    TraceMove(t, run(i), w(i), run(i + 1))
  }

  ghost predicate AcceptsAfter(t: Tables, run: nat -> TraceState, n: nat) {
    exists m: nat :: n <= m && AcceptingAt(t, run, m)
  }

  ghost predicate AcceptingAt(t: Tables, run: nat -> TraceState, i: nat) {
    Accepting(t, run(i), run(i + 1))
  }

  ghost predicate TraceRun(t: Tables, w: nat -> Label, run: nat -> TraceState) {
    && run(0) == Start
    && (forall i: nat :: TraceMoveAt(t, w, run, i))
    && (forall n: nat :: AcceptsAfter(t, run, n))
  }

  ghost predicate TraceAccepts(t: Tables, w: nat -> Label) {
    exists run: nat -> TraceState :: TraceRun(t, w, run)
  }

  /** What `spot::contains` decides. */
  ghost predicate Included(t: Tables) {
    forall w: nat -> Label :: ProofAccepts(t, w) ==> TraceAccepts(t, w)
  }

  // ---------- The tables of an abstract proof ----------

  ghost predicate Injective(enc: map<int, Label>) {
    forall i, j :: i in enc && j in enc && enc[i] == enc[j] ==> i == j
  }

  ghost predicate Encodes(t: Tables, g: AbsProof, init: int, enc: map<int, Label>) {
    && enc.Keys == g.Keys && Injective(enc) && init in g
    && t.vertices == enc.Values && t.tags.Keys == t.vertices && t.trans.Keys == t.vertices
    && t.initial == enc[init]
    && (forall i :: i in g ==> t.tags[enc[i]] == g[i].tags)
    && (forall i, v :: i in g ==> (v in t.trans[enc[i]] <==> exists j :: j in g && Step(g, i, j) && v == enc[j]))
    && (forall i, j, x, y :: i in g && j in g ==> ((enc[i], enc[j], x, y) in t.trace <==> Valid(g, i, j, x, y)))
    && (forall i, j, x, y :: i in g && j in g ==> ((enc[i], enc[j], x, y) in t.progress <==> Prog(g, i, j, x, y)))
  }

  ghost predicate SpellsPath(enc: map<int, Label>, w: nat -> Label, p: nat -> int) {
    forall i: nat :: p(i) in enc && w(i) == enc[p(i)]
  }

  lemma EdgeFacts(g: AbsProof, init: int, i: int, j: int)
    requires WellFormed(g, init)
    ensures Step(g, i, j) ==> i in g && j in g
    ensures forall x, y :: Valid(g, i, j, x, y) ==> Step(g, i, j) && x in g[i].tags && y in g[j].tags
    ensures forall x, y :: Prog(g, i, j, x, y) ==> Valid(g, i, j, x, y)
  {
    if i in g {
      forall e | e in g[i].subg
        ensures EdgeOk(g, g[i].tags, e)
      {
        assert NodeOk(g, g[i]);
      }
    }
  }

  // ---------- The proof automaton reads exactly the paths ----------

  lemma {:induction false} RunVertices(t: Tables, w: nat -> Label, run: nat -> ProofState, i: nat)
    requires ProofRun(t, w, run)
    ensures run(i + 1) == AtVertex(w(i))
  {
    assert ProofMoveAt(t, w, run, i);
    if i > 0 {
      RunVertices(t, w, run, i - 1);
    }
  }

  lemma {:induction false} WordLetters(t: Tables, g: AbsProof, init: int, enc: map<int, Label>,
                    w: nat -> Label, run: nat -> ProofState, i: nat)
    requires Encodes(t, g, init, enc)
    requires ProofRun(t, w, run)
    ensures exists a :: a in g && w(i) == enc[a]
  {
    assert ProofMoveAt(t, w, run, i);
    if i > 0 {
      WordLetters(t, g, init, enc, w, run, i - 1);
      RunVertices(t, w, run, i - 1);
      var a :| a in g && w(i - 1) == enc[a];
      assert w(i) in t.trans[enc[a]];
    }
  }

  ghost function Decode(enc: map<int, Label>, v: Label): int {
    if exists a :: a in enc && enc[a] == v then
      var a :| a in enc && enc[a] == v;
      a
    else 0
  }

  lemma WordIsPath(t: Tables, g: AbsProof, init: int, enc: map<int, Label>, w: nat -> Label) returns (p: nat -> int)
    requires Encodes(t, g, init, enc)
    requires ProofAccepts(t, w)
    ensures SpellsPath(enc, w, p) && IsPath(g, init, p)
  {
    var run: nat -> ProofState :| ProofRun(t, w, run);
    p := (i: nat) => Decode(enc, w(i));
    forall i: nat
      ensures p(i) in enc && w(i) == enc[p(i)]
    {
      WordLetters(t, g, init, enc, w, run, i);
    }
    assert ProofMoveAt(t, w, run, 0);
    forall i: nat
      ensures StepAt(g, p, i)
    {
      RunVertices(t, w, run, i);
      assert ProofMoveAt(t, w, run, i + 1);
      assert w(i + 1) in t.trans[enc[p(i)]];
      var j :| j in g && Step(g, p(i), j) && w(i + 1) == enc[j];
      assert j == p(i + 1);
    }
  }

  lemma PathIsWord(t: Tables, g: AbsProof, init: int, enc: map<int, Label>, p: nat -> int) returns (w: nat -> Label)
    requires Encodes(t, g, init, enc) && WellFormed(g, init)
    requires IsPath(g, init, p)
    ensures SpellsPath(enc, w, p) && ProofAccepts(t, w)
  {
    w := (i: nat) => if p(i) in enc then enc[p(i)] else [];
    forall i: nat
      ensures p(i) in enc && w(i) == enc[p(i)]
    {
      assert StepAt(g, p, i);
      EdgeFacts(g, init, p(i), p(i + 1));
    }
    var run := (i: nat) => if i == 0 then Ghost else AtVertex(w(i - 1));
    forall i: nat
      ensures ProofMoveAt(t, w, run, i)
    {
      if i > 0 {
        assert StepAt(g, p, i - 1);
        assert p(i) in g && Step(g, p(i - 1), p(i)) && w(i) == enc[p(i)];
      }
    }
    assert ProofRun(t, w, run);
  }

  // ---------- The trace automaton accepts exactly the followed paths ----------

  /** A valid edge of a trace is a move of the trace automaton. */
  lemma EdgeIsMove(t: Tables, g: AbsProof, init: int, enc: map<int, Label>, i: int, j: int, x: int, y: int)
    requires Encodes(t, g, init, enc) && WellFormed(g, init)
    requires Valid(g, i, j, x, y)
    ensures i in enc && j in enc
    ensures TraceMove(t, Start, enc[i], Following(enc[i], x))
    ensures TraceMove(t, Following(enc[i], x), enc[j], Following(enc[j], y))
    ensures Prog(g, i, j, x, y) ==> Accepting(t, Following(enc[i], x), Following(enc[j], y))
  {
    EdgeFacts(g, init, i, j);
    assert j in g && Step(g, i, j) && enc[j] == enc[j];
    assert enc[j] in t.trans[enc[i]];
  }

  ghost predicate CanFollow(t: Tables, w: nat -> Label, tr: nat -> int, i: nat) {
    && TraceMove(t, Start, w(i), Following(w(i), tr(i)))
    && TraceMove(t, Following(w(i), tr(i)), w(i + 1), Following(w(i + 1), tr(i + 1)))
  }

  ghost predicate Marked(t: Tables, w: nat -> Label, tr: nat -> int, i: nat) {
    Accepting(t, Following(w(i), tr(i)), Following(w(i + 1), tr(i + 1)))
  }

  ghost predicate MarkedAfter(t: Tables, w: nat -> Label, tr: nat -> int, n: nat) {
    exists m: nat :: n <= m && Marked(t, w, tr, m)
  }

  /** Waiting until position `k` and following `tr` from there is an accepting run. */
  lemma WaitThenFollow(t: Tables, w: nat -> Label, tr: nat -> int, k: nat)
    requires forall i: nat :: k <= i ==> CanFollow(t, w, tr, i)
    requires forall n: nat :: MarkedAfter(t, w, tr, n)
    ensures TraceAccepts(t, w)
  {
    var run := (i: nat) => if i <= k then Start else Following(w(i - 1), tr(i - 1));
    forall i: nat
      ensures TraceMoveAt(t, w, run, i)
    {
      if i >= k {
        assert CanFollow(t, w, tr, i);
      }
      if i > k {
        assert CanFollow(t, w, tr, i - 1);
      }
    }
    forall n: nat
      ensures AcceptsAfter(t, run, n)
    {
      assert MarkedAfter(t, w, tr, n + k);
      var m: nat :| n + k <= m && Marked(t, w, tr, m);
      assert AcceptingAt(t, run, m + 1);
    }
    assert TraceRun(t, w, run);
  }

  lemma FollowedIsAccepted(t: Tables, g: AbsProof, init: int, enc: map<int, Label>, w: nat -> Label, p: nat -> int)
    requires Encodes(t, g, init, enc) && WellFormed(g, init)
    requires SpellsPath(enc, w, p)
    requires Followed(g, p)
    ensures TraceAccepts(t, w)
  {
    var k: nat :| FollowedFrom(g, p, k);
    var tr: nat -> int :| IsTrace(g, p, k, tr) && InfinitelyProgressing(g, p, tr);
    forall i: nat | k <= i
      ensures CanFollow(t, w, tr, i) && (ProgAt(g, p, tr, i) ==> Marked(t, w, tr, i))
    {
      assert ValidAt(g, p, tr, i);
      EdgeIsMove(t, g, init, enc, p(i), p(i + 1), tr(i), tr(i + 1));
    }
    forall n: nat
      ensures MarkedAfter(t, w, tr, n)
    {
      assert ProgressesAfter(g, p, tr, n + k);
    }
    WaitThenFollow(t, w, tr, k);
  }

  /** Once the automaton has started to follow a trace it never stops. */
  lemma {:induction false} StaysFollowing(t: Tables, w: nat -> Label, run: nat -> TraceState, j: nat, i: nat)
    requires TraceRun(t, w, run)
    requires run(j).Following? && j <= i
    ensures run(i).Following?
  {
    if j < i {
      StaysFollowing(t, w, run, j, i - 1);
      assert TraceMoveAt(t, w, run, i - 1);
    }
  }

  ghost function TagsOf(run: nat -> TraceState): nat -> int {
    (i: nat) => if run(i + 1).Following? then run(i + 1).tag else 0
  }

  lemma FollowingLetter(t: Tables, w: nat -> Label, run: nat -> TraceState, k: nat, i: nat)
    requires TraceRun(t, w, run) && run(k).Following? && k <= i
    ensures run(i + 1) == Following(w(i), TagsOf(run)(i))
  {
    StaysFollowing(t, w, run, k, i + 1);
    assert TraceMoveAt(t, w, run, i);
  }

  /** A move between two vertices in the tables is an edge with that pair. */
  lemma MoveIsEdge(t: Tables, g: AbsProof, init: int, enc: map<int, Label>, i: int, j: int, x: int, y: int)
    requires Encodes(t, g, init, enc) && i in enc && j in enc
    ensures TraceSucc(t, Following(enc[i], x), Following(enc[j], y)) ==> Valid(g, i, j, x, y)
    ensures Accepting(t, Following(enc[i], x), Following(enc[j], y)) ==> Prog(g, i, j, x, y)
  {
  }

  lemma FollowingIsTrace(
    t: Tables, g: AbsProof, init: int, enc: map<int, Label>, w: nat -> Label, p: nat -> int, run: nat -> TraceState,
    k: nat, i: nat
  )
    requires Encodes(t, g, init, enc) && SpellsPath(enc, w, p) && TraceRun(t, w, run)
    requires run(k).Following? && k <= i
    ensures ValidAt(g, p, TagsOf(run), i)
    ensures AcceptingAt(t, run, i + 1) ==> ProgAt(g, p, TagsOf(run), i)
  {
    FollowingLetter(t, w, run, k, i);
    FollowingLetter(t, w, run, k, i + 1);
    assert TraceMoveAt(t, w, run, i + 1);
    MoveIsEdge(t, g, init, enc, p(i), p(i + 1), TagsOf(run)(i), TagsOf(run)(i + 1));
  }

  lemma AcceptedIsFollowed(t: Tables, g: AbsProof, init: int, enc: map<int, Label>, w: nat -> Label, p: nat -> int)
    requires Encodes(t, g, init, enc) && WellFormed(g, init)
    requires SpellsPath(enc, w, p)
    requires TraceAccepts(t, w)
    ensures Followed(g, p)
  {
    var run: nat -> TraceState :| TraceRun(t, w, run);
    assert AcceptsAfter(t, run, 0);
    var k: nat :| AcceptingAt(t, run, k);
    var tr := TagsOf(run);
    forall i: nat | k <= i
      ensures ValidAt(g, p, tr, i)
    {
      FollowingIsTrace(t, g, init, enc, w, p, run, k, i);
    }
    forall n: nat
      ensures ProgressesAfter(g, p, tr, n)
    {
      var n' := if n < k then k else n;
      assert AcceptsAfter(t, run, n' + 1);
      var m: nat :| n' + 1 <= m && AcceptingAt(t, run, m);
      FollowingIsTrace(t, g, init, enc, w, p, run, k, m - 1);
    }
    assert IsTrace(g, p, k, tr) && InfinitelyProgressing(g, p, tr);
    assert FollowedFrom(g, p, k);
  }

  /** Language inclusion is the global trace condition. */
  lemma InclusionIsGTC(t: Tables, g: AbsProof, init: int, enc: map<int, Label>)
    requires Encodes(t, g, init, enc) && WellFormed(g, init)
    ensures Included(t) <==> GTC(g, init)
  {
    if Included(t) {
      forall p: nat -> int | IsPath(g, init, p)
        ensures Followed(g, p)
      {
        var w := PathIsWord(t, g, init, enc, p);
        AcceptedIsFollowed(t, g, init, enc, w, p);
      }
    }
    if GTC(g, init) {
      forall w: nat -> Label | ProofAccepts(t, w)
        ensures TraceAccepts(t, w)
      {
        var p := WordIsPath(t, g, init, enc, w);
        FollowedIsAccepted(t, g, init, enc, w, p);
      }
    }
  }
}
