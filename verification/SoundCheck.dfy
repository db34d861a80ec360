/** Building the automaton tables and the memoised soundness check
    (src/generic/soundcheck.ml `check_proof`, src/generic/proof.c, src/generic/soundness.c). */
module SoundCheck {
  import opened Sets
  import opened Outcomes
  import opened TraceGraph
  import opened DeadNodes
  import opened Minimise
  import opened Automata

  type Quad = (Label, Label, int, int)

  /** The exact value of `ceil(log2 n)`. */
  function CeilLog2(n: nat): (r: nat)
    requires n >= 1
    ensures n <= Pow2(r) < 2 * n
  {
    if n == 1 then 0 else 1 + CeilLog2((n + 1) / 2)
  }

  function Quads(v1: Label, v2: Label, pairs: Pairs): set<Quad> {
    set q | q in pairs :: (v1, v2, q.0, q.1)
  }

  function PairsOf(e: Edge, prog: bool): Pairs {
    if prog then e.tp else e.tv
  }

  /** All the pairs on the edges of one node. */
  ghost function NodeQuads(enc: map<int, Label>, v: Label, subg: seq<Edge>, prog: bool): set<Quad>
    requires forall e :: e in subg ==> e.goal in enc
  {
    if subg == [] then {}
    else
      var last := subg[|subg| - 1];
      NodeQuads(enc, v, subg[..|subg| - 1], prog) + Quads(v, enc[last.goal], PairsOf(last, prog))
  }

  lemma {:induction false} NodeQuadsMember(
    enc: map<int, Label>, v: Label, subg: seq<Edge>, prog: bool, u: Label, x: int, y: int, v': Label
  )
    requires forall e :: e in subg ==> e.goal in enc
    ensures (v', u, x, y) in NodeQuads(enc, v, subg, prog) <==>
              v' == v && exists e :: e in subg && enc[e.goal] == u && (x, y) in PairsOf(e, prog)
  {
    if subg != [] {
      var front, last := subg[..|subg| - 1], subg[|subg| - 1];
      NodeQuadsMember(enc, v, front, prog, u, x, y, v');
      assert subg == front + [last];
      assert (v', u, x, y) in Quads(v, enc[last.goal], PairsOf(last, prog)) <==>
             v' == v && u == enc[last.goal] && (x, y) in PairsOf(last, prog) by {
        if v' == v && u == enc[last.goal] && (x, y) in PairsOf(last, prog) {
          assert (v', u, x, y) == (v, enc[last.goal], (x, y).0, (x, y).1);
        }
      }
    }
  }

  /** The loop of `create_vertex` over the propositions. */
  method VertexBits(vertex: nat, maxLog2: nat) returns (v: Label)
    ensures v == Bits(vertex, maxLog2)
  {
    v := [];
    var l := vertex;
    var i := 0;
    while i < maxLog2
      invariant 0 <= i <= maxLog2
      invariant v + Bits(l, maxLog2 - i) == Bits(vertex, maxLog2)
    {
      var b := l % 2 == 1;
      assert (v + [b]) + Bits(l / 2, maxLog2 - i - 1) == v + Bits(l, maxLog2 - i);
      v := v + [b];
      l := l / 2;
      i := i + 1;
    }
  }

  /** The class `Proof` of the C++ side. */
  class ProofTables {
    const maxLog2: nat
    var lastVertex: nat
    var vertices: set<Label>
    var tagMap: map<Label, set<int>>
    var transMap: map<Label, set<Label>>
    var tracePairs: set<Quad>
    var progressPairs: set<Quad>
    var initial: Label

    ghost predicate Valid()
      reads this
    {
      && lastVertex < Pow2(maxLog2)
      && (forall v :: v in vertices ==> exists m: nat :: 1 <= m <= lastVertex && v == Bits(m, maxLog2))
      && tagMap.Keys == vertices && transMap.Keys == vertices
    }

    function Snapshot(): Tables
      reads this
    {
      Tables(vertices, tagMap, transMap, tracePairs, progressPairs, initial)
    }

    constructor (maxLog2: nat)
      ensures Valid()
      ensures this.maxLog2 == maxLog2 && lastVertex == 0 && vertices == {}
      ensures tagMap == map[] && transMap == map[] && tracePairs == {} && progressPairs == {}
    {
      this.maxLog2 := maxLog2;
      lastVertex, vertices, tagMap, transMap := 0, {}, map[], map[];
      tracePairs, progressPairs, initial := {}, {}, [];
      new;
    }

    lemma FreshLabel(m: nat)
      requires Valid()
      requires lastVertex < m < Pow2(maxLog2)
      ensures Bits(m, maxLog2) !in vertices
    {
      if Bits(m, maxLog2) in vertices {
        var l: nat :| 1 <= l <= lastVertex && Bits(m, maxLog2) == Bits(l, maxLog2);
        BitsInjective(l, m, maxLog2);
      }
    }

    method CreateVertex() returns (v: Label)
      requires Valid() && lastVertex + 1 < Pow2(maxLog2)
      modifies this
      ensures Valid() && lastVertex == old(lastVertex) + 1
      ensures v == Bits(lastVertex, maxLog2) && v !in old(vertices)
      ensures vertices == old(vertices) + {v}
      ensures tagMap == old(tagMap)[v := {}] && transMap == old(transMap)[v := {}]
      ensures tracePairs == old(tracePairs) && progressPairs == old(progressPairs)
    {
      FreshLabel(lastVertex + 1);
      lastVertex := lastVertex + 1;
      v := VertexBits(lastVertex, maxLog2);
      vertices := vertices + {v};
      tagMap := tagMap[v := {}];
      transMap := transMap[v := {}];
    }

    method TagVertices(g: AbsProof, bddMap: map<int, Label>)
      requires bddMap.Keys == g.Keys && Injective(bddMap)
      requires forall i :: i in g ==> bddMap[i] in tagMap && tagMap[bddMap[i]] == {}
      modifies this`tagMap
      ensures tagMap.Keys == old(tagMap.Keys)
      ensures forall i :: i in g ==> tagMap[bddMap[i]] == g[i].tags
    {
      var todo := g.Keys;
      while todo != {}
        invariant todo <= g.Keys
        invariant tagMap.Keys == old(tagMap.Keys)
        invariant forall i :: i in g ==> bddMap[i] in tagMap
        invariant forall i :: i in g ==> tagMap[bddMap[i]] == if i in todo then {} else g[i].tags
        decreases todo
      {
        ghost var w := Pick(todo);
        assert w in todo;
        var i :| i in todo;
        TagVertex(bddMap[i], g[i].tags);
        todo := todo - {i};
      }
    }

    method TagVertex(v: Label, tags: set<int>)
      requires v in tagMap
      modifies this`tagMap
      ensures tagMap == old(tagMap)[v := old(tagMap)[v] + tags]
    {
      var todo := tags;
      while todo != {}
        invariant todo <= tags
        invariant tagMap.Keys == old(tagMap.Keys)
        invariant forall u :: u in tagMap && u != v ==> tagMap[u] == old(tagMap)[u]
        invariant tagMap[v] == old(tagMap)[v] + (tags - todo)
        decreases todo
      {
        ghost var w := Pick(todo);
        assert w in todo;
        var t :| t in todo;
        tagMap := tagMap[v := tagMap[v] + {t}];
        todo := todo - {t};
      }
      assert tags - todo == tags;
    }

    method SetSuccessors(bddMap: map<int, Label>, i: int, subg: seq<Edge>)
      requires i in bddMap && bddMap[i] in transMap && transMap[bddMap[i]] == {}
      requires forall k :: 0 <= k < |subg| ==> subg[k].goal in bddMap
      modifies this`transMap
      ensures transMap.Keys == old(transMap.Keys)
      ensures forall v :: v in transMap && v != bddMap[i] ==> transMap[v] == old(transMap)[v]
      ensures forall u :: u in transMap[bddMap[i]] <==> exists e :: e in subg && u == bddMap[e.goal]
    {
      var v := bddMap[i];
      var k := 0;
      while k < |subg|
        invariant 0 <= k <= |subg|
        invariant v in transMap && transMap.Keys == old(transMap.Keys)
        invariant forall v' :: v' in transMap && v' != v ==> transMap[v'] == old(transMap)[v']
        invariant forall u :: u in transMap[v] <==> exists j :: 0 <= j < k && u == bddMap[subg[j].goal]
      {
        transMap := transMap[v := transMap[v] + {bddMap[subg[k].goal]}];
        k := k + 1;
      }
    }

    method SetAllSuccessors(g: AbsProof, bddMap: map<int, Label>)
      requires bddMap.Keys == g.Keys && Injective(bddMap)
      requires forall i, k :: i in g && 0 <= k < |g[i].subg| ==> g[i].subg[k].goal in g
      requires forall i :: i in g ==> bddMap[i] in transMap && transMap[bddMap[i]] == {}
      modifies this`transMap
      ensures transMap.Keys == old(transMap.Keys)
      ensures forall i, u :: i in g ==> (u in transMap[bddMap[i]] <==> exists e :: e in g[i].subg && u == bddMap[e.goal])
    {
      var todo := g.Keys;
      while todo != {}
        invariant todo <= g.Keys
        invariant transMap.Keys == old(transMap.Keys)
        invariant forall i :: i in g ==> bddMap[i] in transMap
        invariant forall i :: i in todo ==> transMap[bddMap[i]] == {}
        invariant forall i, u :: i in g && i !in todo ==>
                    (u in transMap[bddMap[i]] <==> exists e :: e in g[i].subg && u == bddMap[e.goal])
        decreases todo
      {
        ghost var w := Pick(todo);
        assert w in todo;
        var i :| i in todo;
        SetSuccessors(bddMap, i, g[i].subg);
        todo := todo - {i};
      }
    }

    method SetPairs(bddMap: map<int, Label>, i: int, subg: seq<Edge>)
      requires i in bddMap
      requires forall e :: e in subg ==> e.goal in bddMap
      modifies this`tracePairs, this`progressPairs
      ensures tracePairs == old(tracePairs) + NodeQuads(bddMap, bddMap[i], subg, false)
      ensures progressPairs == old(progressPairs) + NodeQuads(bddMap, bddMap[i], subg, true)
    {
      var k := 0;
      while k < |subg|
        invariant 0 <= k <= |subg|
        invariant tracePairs == old(tracePairs) + NodeQuads(bddMap, bddMap[i], subg[..k], false)
        invariant progressPairs == old(progressPairs) + NodeQuads(bddMap, bddMap[i], subg[..k], true)
      {
        assert subg[..k + 1][..k] == subg[..k];
        tracePairs := tracePairs + Quads(bddMap[i], bddMap[subg[k].goal], subg[k].tv);
        progressPairs := progressPairs + Quads(bddMap[i], bddMap[subg[k].goal], subg[k].tp);
        k := k + 1;
      }
      assert subg[..k] == subg;
    }
  }

  // ---------- Building the automaton of a graph ----------

  /** The vertices created so far are those of the nodes seen so far, all blank. */
  ghost predicate Blank(a: ProofTables, bddMap: map<int, Label>)
    reads a
  {
    && a.Valid() && a.vertices == bddMap.Values && Injective(bddMap)
    && (forall v :: v in a.vertices ==> a.tagMap[v] == {} && a.transMap[v] == {})
  }

  /** soundness.c, `create_vertex`. */
  method MapVertex(a: ProofTables, bddMap: map<int, Label>, id: int) returns (r: map<int, Label>)
    requires Blank(a, bddMap) && id !in bddMap && a.lastVertex + 1 < Pow2(a.maxLog2)
    modifies a
    ensures Blank(a, r) && r.Keys == bddMap.Keys + {id} && a.lastVertex == old(a.lastVertex) + 1
    ensures a.tracePairs == old(a.tracePairs) && a.progressPairs == old(a.progressPairs)
  {
    var v := a.CreateVertex();
    AddedValue(bddMap, id, v);
    r := bddMap[id := v];
  }

  method CreateVertices(a: ProofTables, g: AbsProof) returns (bddMap: map<int, Label>)
    requires Blank(a, map[]) && a.lastVertex == 0
    requires |g| < Pow2(a.maxLog2)
    modifies a
    ensures Blank(a, bddMap) && bddMap.Keys == g.Keys
    ensures a.tracePairs == old(a.tracePairs) && a.progressPairs == old(a.progressPairs)
  {
    bddMap := map[];
    var todo := g.Keys;
    while todo != {}
      invariant Blank(a, bddMap) && todo <= g.Keys
      invariant bddMap.Keys == g.Keys - todo
      invariant a.lastVertex + |todo| == |g|
      invariant a.tracePairs == old(a.tracePairs) && a.progressPairs == old(a.progressPairs)
      decreases todo
    {
      ghost var w := Pick(todo);
      assert w in todo;
      var i :| i in todo;
      bddMap := MapVertex(a, bddMap, i);
      todo := todo - {i};
    }
  }

  lemma AddedValue(m: map<int, Label>, i: int, v: Label)
    requires i !in m && v !in m.Values && Injective(m)
    ensures m[i := v].Values == m.Values + {v}
    ensures Injective(m[i := v])
  {
    var m' := m[i := v];
    assert i in m' && m'[i] == v;
    forall j | j in m
      ensures m[j] in m'.Values && m[j] in m.Values
    {
      assert j in m' && m'[j] == m[j];
    }
  }

  ghost predicate HasPair(g: AbsProof, i: int, j: int, x: int, y: int, prog: bool) {
    if prog then Prog(g, i, j, x, y) else Valid(g, i, j, x, y)
  }

  /** The tag pairs of the edges of the nodes processed so far. */
  ghost predicate PairsRecorded(pairs: set<Quad>, g: AbsProof, enc: map<int, Label>, done: set<int>, prog: bool)
    requires enc.Keys == g.Keys
  {
    forall i, j, x, y :: i in g && j in g ==>
      ((enc[i], enc[j], x, y) in pairs <==> i in done && HasPair(g, i, j, x, y, prog))
  }

  lemma NodeQuadsArePairs(g: AbsProof, enc: map<int, Label>, i: int, i': int, j: int, x: int, y: int, prog: bool)
    requires enc.Keys == g.Keys && Injective(enc) && i in g && i' in g && j in g
    requires forall e :: e in g[i].subg ==> e.goal in enc
    ensures (enc[i'], enc[j], x, y) in NodeQuads(enc, enc[i], g[i].subg, prog) <==> i' == i && HasPair(g, i, j, x, y, prog)
  {
    NodeQuadsMember(enc, enc[i], g[i].subg, prog, enc[j], x, y, enc[i']);
  }

  lemma RecordNode(pairs: set<Quad>, g: AbsProof, enc: map<int, Label>, done: set<int>, i: int, prog: bool)
    requires enc.Keys == g.Keys && Injective(enc)
    requires PairsRecorded(pairs, g, enc, done, prog)
    requires i in g && i !in done
    requires forall e :: e in g[i].subg ==> e.goal in enc
    ensures PairsRecorded(pairs + NodeQuads(enc, enc[i], g[i].subg, prog), g, enc, done + {i}, prog)
  {
    var pairs' := pairs + NodeQuads(enc, enc[i], g[i].subg, prog);
    forall i', j, x, y | i' in g && j in g
      ensures (enc[i'], enc[j], x, y) in pairs' <==> i' in done + {i} && HasPair(g, i', j, x, y, prog)
    {
      NodeQuadsArePairs(g, enc, i, i', j, x, y, prog);
      assert (enc[i'], enc[j], x, y) in pairs <==> i' in done && HasPair(g, i', j, x, y, prog);
    }
  }

  method SetAllPairs(a: ProofTables, g: AbsProof, bddMap: map<int, Label>)
    requires bddMap.Keys == g.Keys && Injective(bddMap) && AllNodesOk(g)
    requires a.tracePairs == {} && a.progressPairs == {}
    modifies a`tracePairs, a`progressPairs
    ensures PairsRecorded(a.tracePairs, g, bddMap, g.Keys, false)
    ensures PairsRecorded(a.progressPairs, g, bddMap, g.Keys, true)
  {
    var todo := g.Keys;
    while todo != {}
      invariant todo <= g.Keys
      invariant PairsRecorded(a.tracePairs, g, bddMap, g.Keys - todo, false)
      invariant PairsRecorded(a.progressPairs, g, bddMap, g.Keys - todo, true)
      decreases todo
    {
      ghost var w := Pick(todo);
      assert w in todo;
      var i :| i in todo;
      assert NodeOk(g, g[i]);
      assert forall e :: e in g[i].subg ==> e.goal in bddMap;
      RecordNode(a.tracePairs, g, bddMap, g.Keys - todo, i, false);
      RecordNode(a.progressPairs, g, bddMap, g.Keys - todo, i, true);
      a.SetPairs(bddMap, i, g[i].subg);
      assert g.Keys - (todo - {i}) == g.Keys - todo + {i};
      todo := todo - {i};
    }
    assert g.Keys - todo == g.Keys;
  }

  lemma TablesEncode(t: Tables, g: AbsProof, init: int, enc: map<int, Label>)
    requires WellFormed(g, init) && enc.Keys == g.Keys && Injective(enc)
    requires t.vertices == enc.Values && t.tags.Keys == t.vertices && t.trans.Keys == t.vertices
    requires t.initial == enc[init]
    requires forall i :: i in g ==> enc[i] in t.tags && t.tags[enc[i]] == g[i].tags
    requires forall i :: i in g ==> enc[i] in t.trans
    requires forall i, e :: i in g && e in g[i].subg ==> e.goal in enc
    requires forall i, u :: i in g ==> (u in t.trans[enc[i]] <==> exists e :: e in g[i].subg && u == enc[e.goal])
    requires PairsRecorded(t.trace, g, enc, g.Keys, false)
    requires PairsRecorded(t.progress, g, enc, g.Keys, true)
    ensures Encodes(t, g, init, enc)
  {
    forall i, u | i in g
      ensures u in t.trans[enc[i]] <==> exists j :: j in g && Step(g, i, j) && u == enc[j]
    {
      if u in t.trans[enc[i]] {
        var e :| e in g[i].subg && u == enc[e.goal];
        assert e.goal in g && Step(g, i, e.goal);
      }
    }
  }

  lemma GoalsMapped(g: AbsProof, bddMap: map<int, Label>)
    requires AllNodesOk(g) && bddMap.Keys == g.Keys
    ensures forall i, e :: i in g && e in g[i].subg ==> e.goal in bddMap
    ensures forall i, k :: i in g && 0 <= k < |g[i].subg| ==> g[i].subg[k].goal in g
  {
    forall i, k | i in g && 0 <= k < |g[i].subg|
      ensures g[i].subg[k].goal in g
    {
      assert NodeOk(g, g[i]) && EdgeOk(g, g[i].tags, g[i].subg[k]);
    }
  }

  method FillTables(a: ProofTables, g: AbsProof, init: int, bddMap: map<int, Label>)
    requires WellFormed(g, init) && Blank(a, bddMap) && bddMap.Keys == g.Keys
    requires a.tracePairs == {} && a.progressPairs == {}
    modifies a
    ensures Encodes(a.Snapshot(), g, init, bddMap)
  {
    GoalsMapped(g, bddMap);
    a.TagVertices(g, bddMap);
    a.SetAllSuccessors(g, bddMap);
    a.initial := bddMap[init];
    SetAllPairs(a, g, bddMap);
    TablesEncode(a.Snapshot(), g, init, bddMap);
  }

  /** `log2size` bits always suffice, and the tables hold the graph. */
  method BuildTables(g: AbsProof, init: int) returns (a: ProofTables, bddMap: map<int, Label>)
    requires WellFormed(g, init)
    ensures fresh(a) && Encodes(a.Snapshot(), g, init, bddMap)
  {
    var log2size := 1 + CeilLog2(|g|);
    a := new ProofTables(log2size);
    bddMap := CreateVertices(a, g);
    FillTables(a, g, init, bddMap);
  }

  // ---------- The trace automaton's successor iterator ----------

  /** `TraceSuccIterator::first`. */
  method TraceSuccessors(t: Tables, s: TraceState) returns (succs: seq<TraceState>)
    requires TablesOk(t) && (s.Following? ==> s.vertex in t.vertices)
    ensures forall s' :: s' in succs <==> TraceSucc(t, s, s')
  {
    succs := if s.Start? then [Start] else [];
    var successors := if s.Start? then t.vertices else t.trans[s.vertex];
    var todo := successors;
    while todo != {}
      invariant todo <= successors <= t.vertices
      invariant forall s' :: s' in succs <==> TraceSucc(t, s, s') && (s'.Following? ==> s'.vertex !in todo)
      decreases todo
    {
      var v :| v in todo;
      succs := AddTagged(t, s, succs, v);
      todo := todo - {v};
    }
  }

  /** The inner loop, over the tags of one successor vertex. */
  method AddTagged(t: Tables, s: TraceState, succs: seq<TraceState>, v: Label) returns (r: seq<TraceState>)
    requires v in t.tags
    ensures forall s' :: s' in r <==>
              s' in succs ||
              (s'.Following? && s'.vertex == v && s'.tag in t.tags[v] &&
                (s.Following? ==> (s.vertex, v, s.tag, s'.tag) in t.trace))
  {
    r := succs;
    var todo := t.tags[v];
    while todo != {}
      invariant todo <= t.tags[v]
      invariant forall s' :: s' in r <==>
                  s' in succs ||
                  (s'.Following? && s'.vertex == v && s'.tag in t.tags[v] - todo &&
                    (s.Following? ==> (s.vertex, v, s.tag, s'.tag) in t.trace))
      decreases todo
    {
      ghost var w := Pick(todo);
      assert w in todo;
      var x :| x in todo;
      if s.Start? || (s.vertex, v, s.tag, x) in t.trace {
        r := r + [Following(v, x)];
      }
      todo := todo - {x};
    }
  }

  // ---------- The memoised check ----------

  /** The soundness cache, for checks from one root. `contains` stands for `spot::contains`. */
  class Checker {
    const init: int
    const contains: Tables -> bool
    var cache: map<AbsProof, bool>

    ghost predicate Valid()
      reads this
    {
      && (forall t :: contains(t) <==> Included(t))
      && (forall p :: p in cache ==> (cache[p] <==> GTC(p, init)))
    }

    constructor (init: int, contains: Tables -> bool)
      requires forall t :: contains(t) <==> Included(t)
      ensures Valid() && this.init == init && this.contains == contains && cache == map[]
    {
      this.init := init;
      this.contains := contains;
      cache := map[];
    }

    /** The answer is in the cache, for a graph with the same condition. */
    ghost predicate Remembers(prf: AbsProof, answer: bool)
      reads this
    {
      exists g :: g in cache && cache[g] == answer && SameCondition(prf, g, init)
    }

    /** The inner, uncached check. */
    method CheckAutomata(p: AbsProof) returns (r: bool)
      requires Valid() && WellFormed(p, init)
      ensures r <==> GTC(p, init)
    {
      var a, bddMap := BuildTables(p, init);
      InclusionIsGTC(a.Snapshot(), p, init, bddMap);
      r := contains(a.Snapshot());
    }

    /**
     * Minimisation and caching never change the answer. A well-formed graph fails to get one exactly when its root
     * does not live while some other node does, which never happens from root 0.
     */
    method CheckProof(prf: AbsProof) returns (r: Outcome<bool>)
      requires Valid() && Simple(prf)
      modifies this
      ensures Valid()
      ensures prf == map[] ==> r == Ok(true)
      ensures prf != map[] && !WellFormed(prf, init) ==> r == Raised
      ensures prf != map[] && WellFormed(prf, init) && r.Ok? ==> (r.value <==> GTC(prf, init))
      ensures WellFormed(prf, init) ==> (r.Raised? <==> !Lives(prf, init) && exists i :: i in prf && Lives(prf, i))
      ensures WellFormed(prf, init) && init == 0 ==> r.Ok?
      ensures forall g :: g in old(cache) ==> g in cache && cache[g] == old(cache)[g]
      ensures WellFormed(prf, init) && Lives(prf, init) ==> r.Ok? && Remembers(prf, r.value)
    {
      if prf == map[] {
        return Ok(true);
      }
      if !WellFormed(prf, init) {
        return Raised;
      }
      var aprf := MinimizeAbsProof(prf, init);
      if aprf == map[] {
        return Ok(true);
      }
      if !WellFormed(aprf, init) {
        return Raised;
      }
      if aprf in cache {
        return Ok(cache[aprf]);
      }
      var b := CheckAutomata(aprf);
      cache := cache[aprf := b];
      return Ok(b);
    }
  }
}
