/** Copying one proof into an open node of another (src/generic/proof.ml, `add_subprf`). */
module Inlining {
  import opened Outcomes
  import opened TraceGraph
  import opened ProofTree
  import opened CyclicSoundness
  import Rules

  /** A copy in progress: the proof so far, where nodes went, and the back-links still to make. */
  datatype Copying = Copying(prf: Proof, places: map<int, int>, links: seq<(int, int)>)

  function Bind(places: map<int, int>, from: seq<int>, to: seq<int>): map<int, int>
    requires |from| == |to|
  {
    if from == [] then places else Bind(places, from[1..], to[1..])[from[0] := to[0]]
  }

  function PremisesOf(src: Proof, succs: seq<int>, tps: seq<(Pairs, Pairs)>): (r: seq<Premise>)
    requires |succs| == |tps| && forall k :: 0 <= k < |succs| ==> succs[k] in src
    ensures |r| == |succs|
  {
    seq(|succs|, k requires 0 <= k < |succs| => Premise(src[succs[k]].node.sequent, tps[k].0, tps[k].1))
  }

  function Copy(src: Proof, c: Copying, i: int, i': int): Outcome<Copying>
    requires ProofOk(src) && i in src
    decreases FreshIdx(src) - i, 0
  {
    match src[i].node
    case Open(_) => Ok(c)
    case Axiom(_, descr) =>
      var prf :- AddAxiom(i', descr, c.prf);
      Ok(c.(prf := prf))
    case Back(_, _, _, _) => Ok(c.(links := [(i, i')] + c.links))
    case Inf(_, descr, succs, tps) =>
      assert EntryOk(src, i) && NodeShapeOk(src[i].node);
      var grown :- AddInf(i', descr, PremisesOf(src, succs, tps), c.prf);
      CopyAll(src, Copying(grown.1, Bind(c.places, succs, grown.0), c.links), i, succs, grown.0)
  }

  function CopyAll(src: Proof, c: Copying, i: int, from: seq<int>, to: seq<int>): Outcome<Copying>
    requires ProofOk(src) && i in src && |from| == |to|
    requires forall k :: 0 <= k < |from| ==> from[k] in src && i < from[k]
    decreases FreshIdx(src) - i - 1, |from| + 1
  {
    if from == [] then Ok(c)
    else
      var c' :- Copy(src, c, from[0], to[0]);
      CopyAll(src, c', i, from[1..], to[1..])
  }

  function FixLinks(src: Proof, places: map<int, int>, links: seq<(int, int)>, prf: Proof): Outcome<Proof> {
    if links == [] then Ok(prf)
    else
      var (i, i') := links[0];
      if i !in src || !src[i].node.Back? || src[i].node.succ !in places then Raised
      else
        var prf' :- AddBacklink(i', src[i].node.descr, places[src[i].node.succ], src[i].node.tagpairs, prf);
        FixLinks(src, places, links[1..], prf')
  }

  function AddSubprf(src: Proof, idx: int, prf: Proof): Outcome<Proof>
    requires ProofOk(src)
  {
    if !CanAdd(prf, idx) || src[0].node.sequent != prf[idx].node.sequent then Raised
    else
      var c :- Copy(src, Copying(prf, map[0 := idx], []), 0, idx);
      FixLinks(src, c.places, c.links, c.prf)
  }

  // ---------- What a copy in progress keeps ----------

  function Moved(places: map<int, int>, s: seq<int>): (r: seq<int>)
    requires forall k :: 0 <= k < |s| ==> s[k] in places
  {
    seq(|s|, k requires 0 <= k < |s| => places[s[k]])
  }

  /** A placed node keeps its sequent, and its parent is placed before it. */
  ghost predicate Placed(src: Proof, base: Proof, idx: int, c: Copying, i: int)
    requires i in c.places && idx in base
  {
    var i' := c.places[i];
    && i in src && i' in c.prf && c.prf[i'].node.sequent == src[i].node.sequent
    && if i == 0 then i' == idx && c.prf[i'].parent == base[idx].parent
       else
         && i' !in base && src[i].parent in c.places
         && c.prf[i'].parent == c.places[src[i].parent] < i'
  }

  /** A visited node is copied, but for its back-link. */
  ghost predicate Visited(src: Proof, c: Copying, i: int)
    requires i in c.places && i in src && c.places[i] in c.prf
  {
    var n := c.prf[c.places[i]].node;
    match src[i].node
    case Open(s) => n.Open?
    case Axiom(s, _) => n == src[i].node
    case Back(s, _, _, _) => n.Open? && (i, c.places[i]) in c.links
    case Inf(s, descr, succs, tps) =>
      (forall k :: 0 <= k < |succs| ==> succs[k] in c.places) && n == Inf(s, descr, Moved(c.places, succs), tps)
  }

  ghost predicate Injective(places: map<int, int>) {
    forall i, j :: i in places && j in places && places[i] == places[j] ==> i == j
  }

  ghost predicate IsPlace(places: map<int, int>, j: int) {
    exists i :: i in places && places[i] == j
  }

  /** Outside the copy nothing changes, and nothing else is added. */
  ghost predicate OldKept(base: Proof, idx: int, prf: Proof, places: map<int, int>) {
    && (forall j :: j in base && j != idx ==> j in prf && prf[j] == base[j])
    && (forall j :: j in prf ==> j in base || IsPlace(places, j))
  }

  ghost predicate LinksOk(src: Proof, c: Copying, pending: set<int>) {
    && (forall l :: l in c.links ==>
          l.0 in c.places && l.0 !in pending && l.1 == c.places[l.0] && l.0 in src && src[l.0].node.Back?)
    && (forall j, k :: 0 <= j < k < |c.links| ==> c.links[j].0 != c.links[k].0)
  }

  /** The state of one placed node: waiting to be visited, or visited after its parent. */
  ghost predicate NodeInv(src: Proof, base: Proof, idx: int, c: Copying, pending: set<int>, i: int)
    requires i in c.places && idx in base
  {
    && Placed(src, base, idx, c, i)
    && (if i in pending then c.prf[c.places[i]].node.Open? else Visited(src, c, i))
    && (i != 0 ==> src[i].parent !in pending)
  }

  ghost predicate Inv(src: Proof, base: Proof, idx: int, c: Copying, pending: set<int>) {
    && idx in base && 0 in c.places && pending <= c.places.Keys && Injective(c.places)
    && OldKept(base, idx, c.prf, c.places)
    && LinksOk(src, c, pending)
    && forall i {:trigger NodeInv(src, base, idx, c, pending, i)} ::
         i in c.places ==> NodeInv(src, base, idx, c, pending, i)
  }

  ghost predicate Widens(places: map<int, int>, places': map<int, int>) {
    forall i :: i in places ==> i in places' && places'[i] == places[i]
  }

  // ---------- One node ----------

  lemma OpenStep(src: Proof, base: Proof, idx: int, c: Copying, pending: set<int>, i: int)
    requires Inv(src, base, idx, c, pending) && i in pending && i in src && src[i].node.Open?
    ensures Inv(src, base, idx, c, pending - {i})
  {
    forall j | j in c.places
      ensures NodeInv(src, base, idx, c, pending - {i}, j)
    {
      assert NodeInv(src, base, idx, c, pending, j);
    }
  }

  lemma LinkAdded(src: Proof, c: Copying, pending: set<int>, i: int)
    requires LinksOk(src, c, pending) && i in pending && i in c.places && i in src && src[i].node.Back?
    ensures LinksOk(src, c.(links := [(i, c.places[i])] + c.links), pending - {i})
  {
    var links := [(i, c.places[i])] + c.links;
    forall j, k | 0 <= j < k < |links|
      ensures links[j].0 != links[k].0
    {
      assert links[k] == c.links[k - 1] && c.links[k - 1] in c.links;
    }
  }

  lemma BackStep(src: Proof, base: Proof, idx: int, c: Copying, pending: set<int>, i: int)
    requires Inv(src, base, idx, c, pending) && i in pending && i in src && src[i].node.Back?
    ensures Inv(src, base, idx, c.(links := [(i, c.places[i])] + c.links), pending - {i})
  {
    var c' := c.(links := [(i, c.places[i])] + c.links);
    LinkAdded(src, c, pending, i);
    forall j | j in c.places
      ensures NodeInv(src, base, idx, c', pending - {i}, j)
    {
      assert NodeInv(src, base, idx, c, pending, j);
      assert (j, c.places[j]) in c.links ==> (j, c.places[j]) in c'.links;
      assert (i, c.places[i]) == c'.links[0];
    }
  }

  lemma AxiomStep(src: Proof, base: Proof, idx: int, c: Copying, pending: set<int>, i: int)
    requires Inv(src, base, idx, c, pending) && i in pending && i in src && src[i].node.Axiom?
    ensures AddAxiom(c.places[i], src[i].node.descr, c.prf).Ok?
    ensures
      Inv(src, base, idx, c.(prf := AddAxiom(c.places[i], src[i].node.descr, c.prf).value), pending - {i})
  {
    assert NodeInv(src, base, idx, c, pending, i);
    var c' := c.(prf := AddAxiom(c.places[i], src[i].node.descr, c.prf).value);
    forall j | j in c.places
      ensures NodeInv(src, base, idx, c', pending - {i}, j)
    {
      assert NodeInv(src, base, idx, c, pending, j);
    }
  }

  lemma {:induction false} BindGives(places: map<int, int>, from: seq<int>, to: seq<int>)
    requires |from| == |to| && Distinct(from)
    ensures forall i :: i in Bind(places, from, to) <==> i in places || i in from
    ensures forall k :: 0 <= k < |from| ==> Bind(places, from, to)[from[k]] == to[k]
    ensures forall i :: i in places && i !in from ==> Bind(places, from, to)[i] == places[i]
    decreases |from|
  {
    if from != [] {
      BindGives(places, from[1..], to[1..]);
      forall k | 0 <= k < |from|
        ensures Bind(places, from, to)[from[k]] == to[k]
      {
        if k > 0 {
          assert from[1..][k - 1] == from[k];
        }
      }
    }
  }

  /** A new place for a premise, above all earlier ones. */
  ghost predicate NewPlace(src: Proof, c: Copying, c': Copying, i: int, s: int)
    requires i in c.places && s in src
  {
    && s !in c.places && s in c'.places && c'.places[s] in c'.prf
    && (forall j :: j in c.prf ==> j < c'.places[s])
    && c'.prf[c'.places[s]] == Entry(c.places[i], Open(src[s].node.sequent))
  }

  /** `c'` is `c` with the inference at `i` copied and its premises placed. */
  ghost predicate Expanded(src: Proof, c: Copying, c': Copying, i: int)
    requires i in c.places && i in src && src[i].node.Inf? && c.places[i] in c.prf
  {
    var n := src[i].node;
    && c'.links == c.links && Widens(c.places, c'.places) && Injective(c'.places)
    && (forall j :: j in c'.places ==> j in c.places || j in n.succs)
    && (forall k :: 0 <= k < |n.succs| ==> n.succs[k] in src && NewPlace(src, c, c', i, n.succs[k]))
    && (forall j :: j in c.prf ==> j in c'.prf && (j != c.places[i] ==> c'.prf[j] == c.prf[j]))
    && c'.prf[c.places[i]]
       == Entry(c.prf[c.places[i]].parent, Inf(c.prf[c.places[i]].node.sequent, n.descr, Moved(c'.places, n.succs), n.tagpairs2))
    && (forall j :: j in c'.prf ==> j in c.prf || IsPlace(c'.places, j))
  }

  lemma MovedWidens(places: map<int, int>, places': map<int, int>, s: seq<int>)
    requires Widens(places, places') && forall k :: 0 <= k < |s| ==> s[k] in places
    ensures forall k :: 0 <= k < |s| ==> s[k] in places'
    ensures Moved(places', s) == Moved(places, s)
  {
    forall k | 0 <= k < |s|
      ensures s[k] in places' && places'[s[k]] == places[s[k]]
    {
      var x := s[k];
      assert x in places;
    }
  }

  lemma PremisesAreNew(src: Proof, c: Copying, c': Copying, i: int)
    requires i in c.places && i in src && src[i].node.Inf? && c.places[i] in c.prf && Expanded(src, c, c', i)
    ensures forall s :: s in src[i].node.succs ==> s in c'.places && s !in c.places
  {
    var succs := src[i].node.succs;
    forall s | s in succs
      ensures s in c'.places && s !in c.places
    {
      var k :| 0 <= k < |succs| && succs[k] == s;
      assert NewPlace(src, c, c', i, succs[k]);
    }
  }

  lemma ExpandedOldNode(
    src: Proof, base: Proof, idx: int, c: Copying, c': Copying, pending: set<int>, i: int, j: int
  )
    requires ProofOk(src) && Inv(src, base, idx, c, pending) && i in pending && i in src && src[i].node.Inf?
    requires c.places[i] in c.prf && Expanded(src, c, c', i) && j in c.places
    requires NodeInv(src, base, idx, c, pending, j) && NodeInv(src, base, idx, c, pending, i)
    ensures NodeInv(src, base, idx, c', pending - {i} + Rules.Elems(src[i].node.succs), j)
  {
    assert Placed(src, base, idx, c', j);
    if j != i && j !in pending && src[j].node.Inf? {
      assert Visited(src, c, j);
      MovedWidens(c.places, c'.places, src[j].node.succs);
    }
    PremisesAreNew(src, c, c', i);
  }

  lemma BaseIsThere(src: Proof, base: Proof, idx: int, c: Copying, pending: set<int>)
    requires Inv(src, base, idx, c, pending)
    ensures base.Keys <= c.prf.Keys
  {
    assert NodeInv(src, base, idx, c, pending, 0);
    forall j | j in base
      ensures j in c.prf
    {
      assert j == idx ==> j == c.places[0];
    }
  }

  lemma ExpandedNewNode(
    src: Proof, base: Proof, idx: int, c: Copying, c': Copying, pending: set<int>, i: int, k: nat
  )
    requires ProofOk(src) && Inv(src, base, idx, c, pending) && i in pending && i in src && src[i].node.Inf?
    requires c.places[i] in c.prf && Expanded(src, c, c', i) && k < |src[i].node.succs|
    ensures src[i].node.succs[k] in c'.places
    ensures NodeInv(src, base, idx, c', pending - {i} + Rules.Elems(src[i].node.succs), src[i].node.succs[k])
  {
    var s := src[i].node.succs[k];
    assert NewPlace(src, c, c', i, s);
    assert EntryOk(src, i);
    BaseIsThere(src, base, idx, c, pending);
    assert src[s].parent == i && s in Rules.Elems(src[i].node.succs);
  }

  lemma ExpandedInv(src: Proof, base: Proof, idx: int, c: Copying, c': Copying, pending: set<int>, i: int)
    requires ProofOk(src) && Inv(src, base, idx, c, pending) && i in pending && i in src && src[i].node.Inf?
    requires c.places[i] in c.prf && Expanded(src, c, c', i)
    ensures Inv(src, base, idx, c', pending - {i} + Rules.Elems(src[i].node.succs))
  {
    var succs := src[i].node.succs;
    var pending' := pending - {i} + Rules.Elems(succs);
    assert NodeInv(src, base, idx, c, pending, i);
    forall j | j in c'.places
      ensures NodeInv(src, base, idx, c', pending', j)
    {
      if j in c.places {
        assert NodeInv(src, base, idx, c, pending, j);
        ExpandedOldNode(src, base, idx, c, c', pending, i, j);
      } else {
        var k :| 0 <= k < |succs| && succs[k] == j;
        ExpandedNewNode(src, base, idx, c, c', pending, i, k);
      }
    }
    ExpandedRest(src, base, idx, c, c', pending, i);
  }

  lemma ExpandedRest(src: Proof, base: Proof, idx: int, c: Copying, c': Copying, pending: set<int>, i: int)
    requires Inv(src, base, idx, c, pending) && i in pending && i in src && src[i].node.Inf?
    requires c.places[i] in c.prf && Expanded(src, c, c', i) && NodeInv(src, base, idx, c, pending, i)
    ensures OldKept(base, idx, c'.prf, c'.places)
    ensures LinksOk(src, c', pending - {i} + Rules.Elems(src[i].node.succs))
    ensures pending - {i} + Rules.Elems(src[i].node.succs) <= c'.places.Keys
  {
    PremisesAreNew(src, c, c', i);
    forall j | j in base && j != idx
      ensures j in c'.prf && c'.prf[j] == base[j]
    {
      assert j in c.prf;
      assert i != 0 ==> c.places[i] !in base;
    }
    forall x | x in pending - {i} + Rules.Elems(src[i].node.succs)
      ensures x in c'.places
    {
      assert x in c.places || x in src[i].node.succs;
    }
    forall v | IsPlace(c.places, v)
      ensures IsPlace(c'.places, v)
    {
      var j :| j in c.places && c.places[j] == v;
      assert j in c'.places && c'.places[j] == v;
    }
  }

  ghost function Expand(src: Proof, c: Copying, i: int): Copying
    requires ProofOk(src) && i in src && src[i].node.Inf? && i in c.places && CanAdd(c.prf, c.places[i])
  {
    var n := src[i].node;
    assert EntryOk(src, i) && NodeShapeOk(n);
    var grown := AddInf(c.places[i], n.descr, PremisesOf(src, n.succs, n.tagpairs2), c.prf).value;
    Copying(grown.1, Bind(c.places, n.succs, grown.0), c.links)
  }

  lemma UnplacedPremises(src: Proof, base: Proof, idx: int, c: Copying, pending: set<int>, i: int)
    requires ProofOk(src) && Inv(src, base, idx, c, pending) && i in pending && i in src && src[i].node.Inf?
    ensures forall s :: s in src[i].node.succs ==> s !in c.places
  {
    forall s | s in c.places && s != 0
      ensures s in src && src[s].parent != i
    {
      assert NodeInv(src, base, idx, c, pending, s);
    }
    forall s | s in src[i].node.succs
      ensures s in src && s != 0 && src[s].parent == i
    {
      var k :| 0 <= k < |src[i].node.succs| && src[i].node.succs[k] == s;
      assert EntryOk(src, i);
    }
  }

  lemma ExpandPlaces(src: Proof, base: Proof, idx: int, c: Copying, pending: set<int>, i: int)
    requires ProofOk(src) && Inv(src, base, idx, c, pending) && i in pending && i in src && src[i].node.Inf?
    requires CanAdd(c.prf, c.places[i])
    ensures
      var places', succs, from := Expand(src, c, i).places, src[i].node.succs, FreshIdx(c.prf);
      && Widens(c.places, places') && (forall j :: j in places' ==> j in c.places || j in succs)
      && (forall k :: 0 <= k < |succs| ==> succs[k] in places' && places'[succs[k]] == from + k)
      && Moved(places', succs) == Range(from, |succs|)
  {
    var succs, from := src[i].node.succs, FreshIdx(c.prf);
    assert EntryOk(src, i);
    UnplacedPremises(src, base, idx, c, pending, i);
    BindGives(c.places, succs, Range(from, |succs|));
  }

  lemma ExpandNodes(src: Proof, c: Copying, i: int)
    requires ProofOk(src) && i in src && src[i].node.Inf? && i in c.places && CanAdd(c.prf, c.places[i])
    ensures
      var c', from, n, i' := Expand(src, c, i), FreshIdx(c.prf), src[i].node, c.places[i];
      && NodeShapeOk(n) && (forall k :: 0 <= k < |n.succs| ==> n.succs[k] in src)
      && (forall j :: j in c.prf ==> j in c'.prf && (j != i' ==> c'.prf[j] == c.prf[j]))
      && c'.prf[i'] == Entry(c.prf[i'].parent, Inf(c.prf[i'].node.sequent, n.descr, Range(from, |n.succs|), n.tagpairs2))
      && (forall k :: 0 <= k < |n.succs| ==>
            from + k in c'.prf && c'.prf[from + k] == Entry(i', Open(src[n.succs[k]].node.sequent)))
      && (forall j :: j in c'.prf ==> j in c.prf || from <= j < from + |n.succs|)
  {
    var n, i', from := src[i].node, c.places[i], FreshIdx(c.prf);
    assert EntryOk(src, i) && NodeShapeOk(n);
    var subgoals := PremisesOf(src, n.succs, n.tagpairs2);
    assert seq(|subgoals|, k requires 0 <= k < |subgoals| => (subgoals[k].tv, subgoals[k].tp)) == n.tagpairs2;
    assert i' < from;
  }

  lemma ExpandInjective(src: Proof, base: Proof, idx: int, c: Copying, pending: set<int>, i: int)
    requires ProofOk(src) && Inv(src, base, idx, c, pending) && i in pending && i in src && src[i].node.Inf?
    requires CanAdd(c.prf, c.places[i])
    ensures Injective(Expand(src, c, i).places)
  {
    var places', succs, from := Expand(src, c, i).places, src[i].node.succs, FreshIdx(c.prf);
    ExpandPlaces(src, base, idx, c, pending, i);
    forall j | j in c.places
      ensures places'[j] < from
    {
      assert NodeInv(src, base, idx, c, pending, j);
    }
    forall j | j in places' && j !in c.places
      ensures exists k :: 0 <= k < |succs| && j == succs[k] && places'[j] == from + k
    {
      var k :| 0 <= k < |succs| && succs[k] == j;
    }
  }

  lemma PremiseGetsPlace(src: Proof, base: Proof, idx: int, c: Copying, pending: set<int>, i: int, k: nat)
    requires ProofOk(src) && Inv(src, base, idx, c, pending) && i in pending && i in src && src[i].node.Inf?
    requires CanAdd(c.prf, c.places[i]) && k < |src[i].node.succs|
    ensures src[i].node.succs[k] in src && NewPlace(src, c, Expand(src, c, i), i, src[i].node.succs[k])
  {
    ExpandPlaces(src, base, idx, c, pending, i);
    ExpandNodes(src, c, i);
    UnplacedPremises(src, base, idx, c, pending, i);
    assert src[i].node.succs[k] in src[i].node.succs;
  }

  lemma AddedIsPlace(src: Proof, base: Proof, idx: int, c: Copying, pending: set<int>, i: int, j: int)
    requires ProofOk(src) && Inv(src, base, idx, c, pending) && i in pending && i in src && src[i].node.Inf?
    requires CanAdd(c.prf, c.places[i]) && j in Expand(src, c, i).prf && j !in c.prf
    ensures IsPlace(Expand(src, c, i).places, j)
  {
    ExpandPlaces(src, base, idx, c, pending, i);
    ExpandNodes(src, c, i);
    var places', s := Expand(src, c, i).places, src[i].node.succs[j - FreshIdx(c.prf)];
    assert s in places' && places'[s] == j;
  }

  lemma ExpandIsExpanded(src: Proof, base: Proof, idx: int, c: Copying, pending: set<int>, i: int)
    requires ProofOk(src) && Inv(src, base, idx, c, pending) && i in pending && i in src && src[i].node.Inf?
    requires CanAdd(c.prf, c.places[i])
    ensures Expanded(src, c, Expand(src, c, i), i)
  {
    var c' := Expand(src, c, i);
    forall k | 0 <= k < |src[i].node.succs|
      ensures src[i].node.succs[k] in src && NewPlace(src, c, c', i, src[i].node.succs[k])
    {
      PremiseGetsPlace(src, base, idx, c, pending, i, k);
    }
    forall j | j in c'.prf && j !in c.prf
      ensures IsPlace(c'.places, j)
    {
      AddedIsPlace(src, base, idx, c, pending, i, j);
    }
    ExpandPlaces(src, base, idx, c, pending, i);
    ExpandNodes(src, c, i);
    ExpandInjective(src, base, idx, c, pending, i);
  }

  // ---------- The whole copy ----------

  lemma CopyInfIs(src: Proof, c: Copying, i: int)
    requires ProofOk(src) && i in src && src[i].node.Inf? && i in c.places && CanAdd(c.prf, c.places[i])
    ensures EntryOk(src, i)
    ensures Copy(src, c, i, c.places[i])
         == CopyAll(src, Expand(src, c, i), i, src[i].node.succs, Range(FreshIdx(c.prf), |src[i].node.succs|))
  {
    assert EntryOk(src, i) && NodeShapeOk(src[i].node);
  }

  lemma CopyLeafWorks(src: Proof, base: Proof, idx: int, c: Copying, pending: set<int>, i: int)
    requires ProofOk(src) && Inv(src, base, idx, c, pending) && i in pending && i in src && !src[i].node.Inf?
    ensures Copy(src, c, i, c.places[i]).Ok?
    ensures Inv(src, base, idx, Copy(src, c, i, c.places[i]).value, pending - {i})
    ensures Widens(c.places, Copy(src, c, i, c.places[i]).value.places)
  {
    match src[i].node
    case Open(_) => OpenStep(src, base, idx, c, pending, i);
    case Axiom(_, _) => AxiomStep(src, base, idx, c, pending, i);
    case Back(_, _, _, _) => BackStep(src, base, idx, c, pending, i);
  }

  /** The premises of a pending inference are pending once it is copied. */
  lemma ExpandReady(src: Proof, base: Proof, idx: int, c: Copying, pending: set<int>, i: int)
    requires ProofOk(src) && Inv(src, base, idx, c, pending) && i in pending && i in src && src[i].node.Inf?
    ensures CanAdd(c.prf, c.places[i])
    ensures
      var c', succs := Expand(src, c, i), src[i].node.succs;
      && Inv(src, base, idx, c', pending - {i} + Rules.Elems(succs)) && Widens(c.places, c'.places)
      && (forall k :: 0 <= k < |succs| ==> succs[k] in c'.places && c'.places[succs[k]] == FreshIdx(c.prf) + k)
      && pending - {i} + Rules.Elems(succs) - Rules.Elems(succs) == pending - {i}
  {
    assert NodeInv(src, base, idx, c, pending, i);
    ExpandIsExpanded(src, base, idx, c, pending, i);
    ExpandedInv(src, base, idx, c, Expand(src, c, i), pending, i);
    ExpandPlaces(src, base, idx, c, pending, i);
    UnplacedPremises(src, base, idx, c, pending, i);
  }

  lemma WidensTransitive(a: map<int, int>, b: map<int, int>, c: map<int, int>)
    requires Widens(a, b) && Widens(b, c)
    ensures Widens(a, c)
  {
  }

  lemma {:induction false} CopyWorks(
    src: Proof, base: Proof, idx: int, c: Copying, pending: set<int>, i: int
  )
    requires ProofOk(src) && Inv(src, base, idx, c, pending) && i in pending && i in src
    ensures Copy(src, c, i, c.places[i]).Ok?
    ensures Inv(src, base, idx, Copy(src, c, i, c.places[i]).value, pending - {i})
    ensures Widens(c.places, Copy(src, c, i, c.places[i]).value.places)
    decreases FreshIdx(src) - i, 0
  {
    if !src[i].node.Inf? {
      CopyLeafWorks(src, base, idx, c, pending, i);
    } else {
      ExpandReady(src, base, idx, c, pending, i);
      var c', succs := Expand(src, c, i), src[i].node.succs;
      CopyInfIs(src, c, i);
      CopyAllWorks(src, base, idx, c', pending - {i} + Rules.Elems(succs), i, succs, Range(FreshIdx(c.prf), |succs|));
      WidensTransitive(c.places, c'.places, Copy(src, c, i, c.places[i]).value.places);
    }
  }

  lemma {:induction false} CopyAllWorks(
    src: Proof, base: Proof, idx: int, c: Copying, pending: set<int>, i: int, from: seq<int>, to: seq<int>
  )
    requires ProofOk(src) && Inv(src, base, idx, c, pending) && i in src && |from| == |to| && Distinct(from)
    requires forall k :: 0 <= k < |from| ==> from[k] in src && i < from[k] && from[k] in pending
    requires forall k :: 0 <= k < |from| ==> from[k] in c.places && c.places[from[k]] == to[k]
    ensures CopyAll(src, c, i, from, to).Ok?
    ensures Inv(src, base, idx, CopyAll(src, c, i, from, to).value, pending - Rules.Elems(from))
    ensures Widens(c.places, CopyAll(src, c, i, from, to).value.places)
    decreases FreshIdx(src) - i - 1, |from| + 1
  {
    if from == [] {
      assert pending - Rules.Elems(from) == pending;
    } else {
      CopyWorks(src, base, idx, c, pending, from[0]);
      var c' := Copy(src, c, from[0], to[0]).value;
      var rest := from[1..];
      forall k | 0 <= k < |rest|
        ensures rest[k] in pending - {from[0]} && rest[k] in c'.places && c'.places[rest[k]] == to[1..][k]
      {
        var x := from[k + 1];
        assert x in c.places && c.places[x] == to[k + 1];
      }
      CopyAllWorks(src, base, idx, c', pending - {from[0]}, i, rest, to[1..]);
      assert pending - Rules.Elems(from) == pending - {from[0]} - Rules.Elems(rest) by {
        assert from == [from[0]] + rest;
      }
    }
  }

  lemma {:induction false} AllPlaced(src: Proof, base: Proof, idx: int, c: Copying, i: int)
    requires ProofOk(src) && Inv(src, base, idx, c, {}) && i in src
    ensures i in c.places
    decreases i
  {
    assert EntryOk(src, i);
    if i != 0 {
      var p := src[i].parent;
      AllPlaced(src, base, idx, c, p);
      assert NodeInv(src, base, idx, c, {}, p);
      var k :| 0 <= k < |src[p].node.succs| && src[p].node.succs[k] == i;
      assert src[p].node.succs[k] in c.places;
    }
  }

  // ---------- The back-links ----------

  /** A back-link that can be made. */
  ghost predicate Linkable(src: Proof, places: map<int, int>, prf: Proof, l: (int, int)) {
    && l.0 in src && src[l.0].node.Back? && src[l.0].node.succ in places && places[src[l.0].node.succ] in prf
    && CanAdd(prf, l.1)
    && EqualUpToTags(prf[l.1].node.sequent, prf[places[src[l.0].node.succ]].node.sequent)
  }

  ghost function Linked(src: Proof, places: map<int, int>, prf: Proof, l: (int, int)): Entry
    requires Linkable(src, places, prf, l)
  {
    var n := src[l.0].node;
    Entry(prf[l.1].parent, Back(prf[l.1].node.sequent, n.descr, places[n.succ], n.tagpairs))
  }

  ghost predicate DistinctTargets(links: seq<(int, int)>) {
    forall j, k :: 0 <= j < k < |links| ==> links[j].1 != links[k].1
  }

  lemma {:induction false} FixLinksWorks(src: Proof, places: map<int, int>, links: seq<(int, int)>, prf: Proof)
    requires DistinctTargets(links) && forall l :: l in links ==> Linkable(src, places, prf, l)
    ensures FixLinks(src, places, links, prf).Ok?
    ensures FixLinks(src, places, links, prf).value.Keys == prf.Keys
    ensures forall l :: l in links ==>
              l.1 in prf && FixLinks(src, places, links, prf).value[l.1] == Linked(src, places, prf, l)
    ensures forall j :: j in prf && (forall l :: l in links ==> l.1 != j) ==>
              FixLinks(src, places, links, prf).value[j] == prf[j]
    decreases |links|
  {
    if links != [] {
      var l0, rest := links[0], links[1..];
      assert l0 in links && Linkable(src, places, prf, l0);
      var prf' := Replace(prf, l0.1, Linked(src, places, prf, l0).node);
      forall l | l in rest
        ensures l in links && l.1 != l0.1 && Linkable(src, places, prf', l)
        ensures Linked(src, places, prf', l) == Linked(src, places, prf, l)
      {
        var k :| 0 <= k < |rest| && rest[k] == l;
        assert links[k + 1] == l;
        assert Linkable(src, places, prf, l);
      }
      FixLinksWorks(src, places, rest, prf');
      assert links == [l0] + rest;
    }
  }

  // ---------- The result ----------

  function MovedNode(places: map<int, int>, n: Node): Node
    requires forall k :: 0 <= k < |Succs(n)| ==> Succs(n)[k] in places
  {
    match n
    case Open(_) => n
    case Axiom(_, _) => n
    case Inf(s, descr, succs, tps) =>
      assert Succs(n) == succs;
      Inf(s, descr, Moved(places, succs), tps)
    case Back(s, descr, succ, tps) =>
      assert Succs(n)[0] == succ;
      Back(s, descr, places[succ], tps)
  }

  /** The node `i` of `src` is in `prf`, renamed, below the copy of its parent. */
  ghost predicate CopiedAt(src: Proof, base: Proof, idx: int, prf: Proof, places: map<int, int>, i: int)
    requires i in src && idx in base
  {
    && i in places && places[i] in prf
    && (forall k :: 0 <= k < |Succs(src[i].node)| ==> Succs(src[i].node)[k] in places)
    && prf[places[i]].node == MovedNode(places, src[i].node)
    && if i == 0 then places[i] == idx && prf[idx].parent == base[idx].parent
       else
         && places[i] !in base && src[i].parent in places
         && prf[places[i]].parent == places[src[i].parent] < places[i]
  }

  /** `prf` is `base` with the node `idx` replaced by an isomorphic copy of `src`. */
  ghost predicate Inlined(src: Proof, base: Proof, idx: int, prf: Proof, places: map<int, int>) {
    && idx in base && places.Keys == src.Keys && Injective(places)
    && OldKept(base, idx, prf, places)
    && forall i {:trigger CopiedAt(src, base, idx, prf, places, i)} ::
         i in src ==> CopiedAt(src, base, idx, prf, places, i)
  }

  lemma LinksAreLinkable(src: Proof, base: Proof, idx: int, c: Copying, l: (int, int))
    requires ProofOk(src) && Inv(src, base, idx, c, {}) && l in c.links
    ensures Linkable(src, c.places, c.prf, l)
  {
    var i := l.0;
    assert NodeInv(src, base, idx, c, {}, i);
    assert EntryOk(src, i);
    var t := src[i].node.succ;
    AllPlaced(src, base, idx, c, t);
    assert NodeInv(src, base, idx, c, {}, t);
  }

  lemma LinkTargets(src: Proof, base: Proof, idx: int, c: Copying)
    requires Inv(src, base, idx, c, {})
    ensures DistinctTargets(c.links)
  {
    forall j, k | 0 <= j < k < |c.links|
      ensures c.links[j].1 != c.links[k].1
    {
      assert c.links[j] in c.links && c.links[k] in c.links;
    }
  }

  lemma CopiedNode(src: Proof, base: Proof, idx: int, c: Copying, prf: Proof, i: int)
    requires ProofOk(src) && Inv(src, base, idx, c, {}) && i in src && i in c.places
    requires forall l :: l in c.links ==> Linkable(src, c.places, c.prf, l)
    requires FixLinks(src, c.places, c.links, c.prf) == Ok(prf) && DistinctTargets(c.links)
    ensures CopiedAt(src, base, idx, prf, c.places, i)
  {
    assert NodeInv(src, base, idx, c, {}, i);
    assert EntryOk(src, i);
    var n, i' := src[i].node, c.places[i];
    FixLinksWorks(src, c.places, c.links, c.prf);
    forall k | 0 <= k < |Succs(n)|
      ensures Succs(n)[k] in c.places
    {
      AllPlaced(src, base, idx, c, Succs(n)[k]);
    }
    if n.Back? {
      assert (i, i') in c.links;
      assert prf[i'] == Linked(src, c.places, c.prf, (i, i'));
    } else {
      forall l | l in c.links
        ensures l.1 != i'
      {
        assert l.0 != i;
      }
      assert prf[i'] == c.prf[i'];
    }
  }

  lemma OldSurvivesLinks(src: Proof, base: Proof, idx: int, c: Copying, prf: Proof)
    requires ProofOk(src) && Inv(src, base, idx, c, {})
    requires forall l :: l in c.links ==> Linkable(src, c.places, c.prf, l)
    requires FixLinks(src, c.places, c.links, c.prf) == Ok(prf) && DistinctTargets(c.links)
    ensures OldKept(base, idx, prf, c.places)
  {
    FixLinksWorks(src, c.places, c.links, c.prf);
    forall j | j in base && j != idx
      ensures j in prf && prf[j] == base[j]
    {
      forall l | l in c.links
        ensures l.1 != j
      {
        assert NodeInv(src, base, idx, c, {}, l.0);
      }
      assert prf[j] == c.prf[j];
    }
  }

  lemma Begins(src: Proof, idx: int, base: Proof)
    requires ProofOk(src) && CanAdd(base, idx) && src[0].node.sequent == base[idx].node.sequent
    ensures Inv(src, base, idx, Copying(base, map[0 := idx], []), {0})
  {
    var c := Copying(base, map[0 := idx], []);
    assert EntryOk(src, 0);
    forall i | i in c.places
      ensures NodeInv(src, base, idx, c, {0}, i)
    {
    }
  }

  /** Inlining succeeds exactly at an open node with the sequent of the proof, and makes a renamed copy of it. */
  lemma InliningCopies(src: Proof, idx: int, base: Proof)
    requires ProofOk(src)
    ensures AddSubprf(src, idx, base).Ok? <==> CanAdd(base, idx) && src[0].node.sequent == base[idx].node.sequent
    ensures AddSubprf(src, idx, base).Ok? ==>
              exists places :: Inlined(src, base, idx, AddSubprf(src, idx, base).value, places)
  {
    if CanAdd(base, idx) && src[0].node.sequent == base[idx].node.sequent {
      var c0 := Copying(base, map[0 := idx], []);
      Begins(src, idx, base);
      CopyWorks(src, base, idx, c0, {0}, 0);
      var c := Copy(src, c0, 0, idx).value;
      assert {0} - {0} == {};
      forall l | l in c.links
        ensures Linkable(src, c.places, c.prf, l)
      {
        LinksAreLinkable(src, base, idx, c, l);
      }
      LinkTargets(src, base, idx, c);
      FixLinksWorks(src, c.places, c.links, c.prf);
      var prf := FixLinks(src, c.places, c.links, c.prf).value;
      OldSurvivesLinks(src, base, idx, c, prf);
      forall i | i in src
        ensures i in c.places && CopiedAt(src, base, idx, prf, c.places, i)
      {
        AllPlaced(src, base, idx, c, i);
        CopiedNode(src, base, idx, c, prf, i);
      }
      PlacesAreNodes(src, base, idx, c, {});
      assert forall i :: i in src.Keys ==> i in c.places.Keys;
      assert Inlined(src, base, idx, prf, c.places);
    }
  }

  lemma PlacesAreNodes(src: Proof, base: Proof, idx: int, c: Copying, pending: set<int>)
    requires Inv(src, base, idx, c, pending)
    ensures c.places.Keys <= src.Keys
  {
    forall i | i in c.places
      ensures i in src
    {
      assert NodeInv(src, base, idx, c, pending, i);
    }
  }

  // ---------- What inlining keeps ----------

  lemma {:induction false} PlacesNonNegative(
    src: Proof, base: Proof, idx: int, prf: Proof, places: map<int, int>, i: int
  )
    requires ProofOk(src) && ProofOk(base) && Inlined(src, base, idx, prf, places) && i in src
    ensures 0 <= places[i]
    decreases i
  {
    assert CopiedAt(src, base, idx, prf, places, i) && EntryOk(src, i) && EntryOk(base, idx);
    if i != 0 {
      PlacesNonNegative(src, base, idx, prf, places, src[i].parent);
    }
  }

  /** The copied parent lists the copied child. */
  lemma InlinedParent(src: Proof, base: Proof, idx: int, prf: Proof, places: map<int, int>, i: int)
    requires ProofOk(src) && ProofOk(base) && CanAdd(base, idx) && Inlined(src, base, idx, prf, places) && i in src
    ensures places[i] in prf
    ensures
      var i', p := places[i], prf[places[i]].parent;
      if i' == 0 then p == 0
      else 0 <= p < i' && p in prf && prf[p].node.Inf? && i' in prf[p].node.succs
  {
    assert CopiedAt(src, base, idx, prf, places, i) && EntryOk(src, i) && EntryOk(base, idx) && EntryOk(base, 0);
    if i != 0 {
      var p := src[i].parent;
      PlacesNonNegative(src, base, idx, prf, places, p);
      assert CopiedAt(src, base, idx, prf, places, p);
      var succs := src[p].node.succs;
      var k :| 0 <= k < |succs| && succs[k] == i;
      InlinedSuccs(src, base, idx, prf, places, p, k);
      assert Succs(prf[places[p]].node)[k] == places[i];
    }
  }

  lemma InlinedSuccs(src: Proof, base: Proof, idx: int, prf: Proof, places: map<int, int>, i: int, k: nat)
    requires ProofOk(src) && Inlined(src, base, idx, prf, places) && i in src && k < |Succs(src[i].node)|
    ensures places[i] in prf && |Succs(prf[places[i]].node)| == |Succs(src[i].node)|
    ensures Succs(src[i].node)[k] in src && Succs(prf[places[i]].node)[k] == places[Succs(src[i].node)[k]]
    ensures places[Succs(src[i].node)[k]] in prf
    ensures prf[places[Succs(src[i].node)[k]]].node.sequent == src[Succs(src[i].node)[k]].node.sequent
    ensures src[i].node.Inf? ==>
              var s' := places[Succs(src[i].node)[k]];
              places[i] < s' && prf[s'].parent == places[i]
  {
    assert EntryOk(src, i) && CopiedAt(src, base, idx, prf, places, i);
    assert CopiedAt(src, base, idx, prf, places, Succs(src[i].node)[k]);
  }

  lemma InlinedNodeOk(src: Proof, base: Proof, idx: int, prf: Proof, places: map<int, int>, i: int)
    requires ProofOk(src) && ProofOk(base) && CanAdd(base, idx) && Inlined(src, base, idx, prf, places) && i in src
    ensures places[i] in prf && NodeShapeOk(prf[places[i]].node) && EntryOk(prf, places[i])
  {
    assert EntryOk(src, i) && CopiedAt(src, base, idx, prf, places, i) && NodeShapeOk(src[i].node);
    InlinedParent(src, base, idx, prf, places, i);
    forall k | 0 <= k < |Succs(src[i].node)|
      ensures Succs(src[i].node)[k] in src && Succs(prf[places[i]].node)[k] == places[Succs(src[i].node)[k]]
      ensures places[Succs(src[i].node)[k]] in prf
      ensures prf[places[Succs(src[i].node)[k]]].node.sequent == src[Succs(src[i].node)[k]].node.sequent
      ensures src[i].node.Inf? ==>
                var s' := places[Succs(src[i].node)[k]];
                places[i] < s' && prf[s'].parent == places[i]
    {
      InlinedSuccs(src, base, idx, prf, places, i, k);
    }
    if src[i].node.Back? {
      assert Succs(src[i].node)[0] == src[i].node.succ;
    }
  }

  lemma InlinedOldOk(src: Proof, base: Proof, idx: int, prf: Proof, places: map<int, int>, j: int)
    requires ProofOk(src) && ProofOk(base) && CanAdd(base, idx) && Inlined(src, base, idx, prf, places)
    requires j in base && j != idx && src[0].node.sequent == base[idx].node.sequent
    ensures j in prf && NodeShapeOk(prf[j].node) && EntryOk(prf, j)
  {
    assert EntryOk(src, 0) && EntryOk(base, j) && CopiedAt(src, base, idx, prf, places, 0) && NodeShapeOk(base[j].node);
    assert prf[idx].node.sequent == src[0].node.sequent;
    forall k | 0 <= k < |Succs(base[j].node)|
      ensures Succs(base[j].node)[k] in prf
      ensures prf[Succs(base[j].node)[k]].parent == base[Succs(base[j].node)[k]].parent
    {
      var s := Succs(base[j].node)[k];
      assert s in base;
    }
  }

  lemma InlinedProofOk(src: Proof, base: Proof, idx: int, prf: Proof, places: map<int, int>)
    requires ProofOk(src) && ProofOk(base) && CanAdd(base, idx) && Inlined(src, base, idx, prf, places)
    requires src[0].node.sequent == base[idx].node.sequent
    ensures ProofOk(prf)
  {
    assert EntryOk(src, 0) && CopiedAt(src, base, idx, prf, places, 0);
    forall j | j in prf
      ensures NodeShapeOk(prf[j].node) && EntryOk(prf, j)
    {
      if j in base && j != idx {
        InlinedOldOk(src, base, idx, prf, places, j);
      } else if j == idx {
        InlinedNodeOk(src, base, idx, prf, places, 0);
      } else {
        var i :| i in places && places[i] == j;
        InlinedNodeOk(src, base, idx, prf, places, i);
      }
    }
  }

  // ---------- The trace condition ----------

  /** `es'` is `es` with the goals moved. */
  ghost predicate MovedEdges(places: map<int, int>, es: seq<Edge>, es': seq<Edge>) {
    && |es'| == |es|
    && forall k :: 0 <= k < |es| ==> es[k].goal in places && es'[k] == es[k].(goal := places[es[k].goal])
  }

  /** The graph `g` is `gb` with a copy of `gs` glued to the leaf `idx`. */
  ghost predicate Glued(gs: AbsProof, gb: AbsProof, g: AbsProof, idx: int, places: map<int, int>) {
    && 0 in gs && 0 in gb && idx in gb && gb[idx].subg == []
    && (forall j :: j in gb && j != idx ==> j in g && g[j] == gb[j])
    && (forall a, b :: Step(gb, a, b) ==> b in gb)
    && gs.Keys == places.Keys && Injective(places) && places[0] == idx
    && (forall i :: i in gs ==> places[i] in g && MovedEdges(places, gs[i].subg, g[places[i]].subg))
  }

  /** An edge out of a copied node is the copy of an edge. */
  lemma CopiedEdge(gs: AbsProof, gb: AbsProof, g: AbsProof, idx: int, places: map<int, int>, i: int, b: int)
    requires Glued(gs, gb, g, idx, places) && i in gs && Step(g, places[i], b)
    ensures exists s :: s in places && places[s] == b && Step(gs, i, s)
  {
    var es, es' := gs[i].subg, g[places[i]].subg;
    var e :| e in es' && e.goal == b;
    var k :| 0 <= k < |es'| && es'[k] == e;
    assert es[k] in es && es'[k] == es[k].(goal := places[es[k].goal]);
    assert Step(gs, i, es[k].goal);
  }

  lemma CopiedPairs(
    gs: AbsProof, gb: AbsProof, g: AbsProof, idx: int, places: map<int, int>, i: int, s: int, x: int, y: int
  )
    requires Glued(gs, gb, g, idx, places) && i in gs && s in places
    ensures Valid(gs, i, s, x, y) ==> Valid(g, places[i], places[s], x, y)
    ensures Prog(gs, i, s, x, y) ==> Prog(g, places[i], places[s], x, y)
  {
    var es, es' := gs[i].subg, g[places[i]].subg;
    assert MovedEdges(places, es, es');
    forall e | e in es && e.goal == s
      ensures e.(goal := places[s]) in es'
    {
      var k :| 0 <= k < |es| && es[k] == e;
      assert es'[k] == e.(goal := places[s]);
    }
    if Valid(gs, i, s, x, y) {
      var e :| e in es && e.goal == s && (x, y) in e.tv;
      assert e.(goal := places[s]) in es';
    }
    if Prog(gs, i, s, x, y) {
      var e :| e in es && e.goal == s && (x, y) in e.tp;
      assert e.(goal := places[s]) in es';
    }
  }

  ghost function Origin(places: map<int, int>, j: int): (i: int)
    ensures IsPlace(places, j) ==> i in places && places[i] == j
  {
    if IsPlace(places, j) then
      var i :| i in places && places[i] == j;
      i
    else 0
  }

  /** Once a path has entered the copy it stays there. */
  lemma {:induction false} StaysInCopy(
    gs: AbsProof, gb: AbsProof, g: AbsProof, idx: int, places: map<int, int>, p: nat -> int, n: nat, m: nat
  )
    requires Glued(gs, gb, g, idx, places) && IsPath(g, 0, p) && p(n) == idx && n <= m
    ensures IsPlace(places, p(m))
    decreases m
  {
    if m == n {
      assert 0 in places && places[0] == p(n);
    } else {
      StaysInCopy(gs, gb, g, idx, places, p, n, m - 1);
      var i := Origin(places, p(m - 1));
      assert StepAt(g, p, m - 1);
      CopiedEdge(gs, gb, g, idx, places, i, p(m));
    }
  }

  ghost function Tail(places: map<int, int>, p: nat -> int, n: nat): nat -> int {
    (j: nat) => Origin(places, p(n + j))
  }

  lemma TailIsPath(
    gs: AbsProof, gb: AbsProof, g: AbsProof, idx: int, places: map<int, int>, p: nat -> int, n: nat
  )
    requires Glued(gs, gb, g, idx, places) && IsPath(g, 0, p) && p(n) == idx
    ensures IsPath(gs, 0, Tail(places, p, n))
  {
    var q := Tail(places, p, n);
    assert IsPlace(places, p(n)) by {
      assert 0 in places && places[0] == p(n);
    }
    assert q(0) == Origin(places, p(n + 0)) == 0;
    forall j: nat
      ensures StepAt(gs, q, j)
    {
      StaysInCopy(gs, gb, g, idx, places, p, n, n + j);
      StaysInCopy(gs, gb, g, idx, places, p, n, n + j + 1);
      assert StepAt(g, p, n + j);
      assert q(j) == Origin(places, p(n + j)) && q(j + 1) == Origin(places, p(n + j + 1)) by {
        assert n + (j + 1) == n + j + 1;
      }
      CopiedEdge(gs, gb, g, idx, places, q(j), p(n + j + 1));
    }
  }

  lemma TailFollowed(
    gs: AbsProof, gb: AbsProof, g: AbsProof, idx: int, places: map<int, int>, p: nat -> int, n: nat
  )
    requires Glued(gs, gb, g, idx, places) && IsPath(g, 0, p) && p(n) == idx && Followed(gs, Tail(places, p, n))
    ensures Followed(g, p)
  {
    var q := Tail(places, p, n);
    var k: nat :| FollowedFrom(gs, q, k);
    var t: nat -> int :| IsTrace(gs, q, k, t) && InfinitelyProgressing(gs, q, t);
    var t' := (m: nat) => if m < n then 0 else t(m - n);
    forall j: nat
      ensures ValidAt(gs, q, t, j) ==> ValidAt(g, p, t', n + j)
      ensures ProgAt(gs, q, t, j) ==> ProgAt(g, p, t', n + j)
    {
      StaysInCopy(gs, gb, g, idx, places, p, n, n + j);
      StaysInCopy(gs, gb, g, idx, places, p, n, n + j + 1);
      assert q(j) == Origin(places, p(n + j)) && q(j + 1) == Origin(places, p(n + j + 1)) by {
        assert n + (j + 1) == n + j + 1;
      }
      assert t'(n + j) == t(j) && t'(n + j + 1) == t(j + 1);
      CopiedPairs(gs, gb, g, idx, places, q(j), q(j + 1), t(j), t(j + 1));
    }
    forall m: nat | n + k <= m
      ensures ValidAt(g, p, t', m)
    {
      assert ValidAt(gs, q, t, m - n) && n + (m - n) == m;
    }
    forall m: nat
      ensures ProgressesAfter(g, p, t', m)
    {
      assert ProgressesAfter(gs, q, t, m);
      var j: nat :| m <= j && ProgAt(gs, q, t, j);
      assert ProgAt(g, p, t', n + j);
    }
    assert IsTrace(g, p, n + k, t') && InfinitelyProgressing(g, p, t');
    assert FollowedFrom(g, p, n + k);
  }

  lemma {:induction false} AvoidsCopy(
    gs: AbsProof, gb: AbsProof, g: AbsProof, idx: int, places: map<int, int>, p: nat -> int, m: nat
  )
    requires Glued(gs, gb, g, idx, places) && IsPath(g, 0, p) && forall n: nat :: p(n) != idx
    ensures p(m) in gb
    decreases m
  {
    if m > 0 {
      AvoidsCopy(gs, gb, g, idx, places, p, m - 1);
      assert StepAt(g, p, m - 1);
      assert Step(gb, p(m - 1), p(m));
    }
  }

  /** Gluing two graphs that meet the trace condition gives one that does. */
  lemma GluedGTC(gs: AbsProof, gb: AbsProof, g: AbsProof, idx: int, places: map<int, int>)
    requires Glued(gs, gb, g, idx, places) && GTC(gs, 0) && GTC(gb, 0)
    ensures GTC(g, 0)
  {
    forall p: nat -> int | IsPath(g, 0, p)
      ensures Followed(g, p)
    {
      if n: nat :| p(n) == idx {
        TailIsPath(gs, gb, g, idx, places, p, n);
        TailFollowed(gs, gb, g, idx, places, p, n);
      } else {
        forall i: nat
          ensures StepAt(gb, p, i)
        {
          AvoidsCopy(gs, gb, g, idx, places, p, i);
          assert StepAt(g, p, i);
        }
        assert IsPath(gb, 0, p);
        Rules.FollowedMonotone(gb, g, p);
      }
    }
  }

  /** A proof and a place to inline it, with the result. */
  ghost predicate Inlining(src: Proof, base: Proof, idx: int, prf: Proof, places: map<int, int>) {
    && ProofOk(src) && ProofOk(base) && CanAdd(base, idx) && src[0].node.sequent == base[idx].node.sequent
    && Inlined(src, base, idx, prf, places) && ProofOk(prf)
  }

  lemma InlinedEdges(src: Proof, base: Proof, idx: int, prf: Proof, places: map<int, int>, i: int)
    requires Inlining(src, base, idx, prf, places) && i in src
    ensures places[i] in prf
    ensures MovedEdges(places, Abstract(src)[i].subg, Abstract(prf)[places[i]].subg)
  {
    assert CopiedAt(src, base, idx, prf, places, i) && NodeShapeOk(src[i].node) && EntryOk(src, i);
    var n := src[i].node;
    if n.Inf? {
      var es, es' := InfEdges(n.succs, n.tagpairs2), InfEdges(Moved(places, n.succs), n.tagpairs2);
      forall k | 0 <= k < |es|
        ensures es[k].goal in places && es'[k] == es[k].(goal := places[es[k].goal])
      {
        assert Succs(n)[k] in places;
      }
    } else if n.Back? {
      assert Succs(n)[0] in places;
    }
  }

  lemma InlinedIsGlued(src: Proof, base: Proof, idx: int, prf: Proof, places: map<int, int>)
    requires Inlining(src, base, idx, prf, places)
    ensures Glued(Abstract(src), Abstract(base), Abstract(prf), idx, places)
  {
    var gb := Abstract(base);
    forall i | i in src
      ensures places[i] in prf && MovedEdges(places, Abstract(src)[i].subg, Abstract(prf)[places[i]].subg)
    {
      InlinedEdges(src, base, idx, prf, places, i);
    }
    forall a: int, b: int | Step(gb, a, b)
      ensures b in gb
    {
      assert EntryOk(base, a) && NodeShapeOk(base[a].node);
      var e :| e in gb[a].subg && e.goal == b;
      var k :| 0 <= k < |gb[a].subg| && gb[a].subg[k] == e;
      assert Succs(base[a].node)[k] == b;
    }
    assert CopiedAt(src, base, idx, prf, places, 0);
    forall j | j in base && j != idx
      ensures Abstract(prf)[j] == gb[j]
    {
      assert prf[j] == base[j];
    }
  }

  lemma InlinedExtends(src: Proof, base: Proof, idx: int, prf: Proof, places: map<int, int>)
    requires Inlining(src, base, idx, prf, places)
    ensures Rules.Extends(base, prf)
  {
    assert CopiedAt(src, base, idx, prf, places, 0);
    forall j | j in base
      ensures Rules.Kept(base, prf, j)
    {
      if j != idx {
        assert prf[j] == base[j];
      }
    }
  }

  lemma CopiedNodeSound<M(!new)>(
    sem: Semantics<M>, src: Proof, base: Proof, idx: int, prf: Proof, places: map<int, int>, i: int
  )
    requires Inlining(src, base, idx, prf, places) && i in src && SoundNode(sem, src, i)
    ensures places[i] in prf && SoundNode(sem, prf, places[i])
  {
    assert CopiedAt(src, base, idx, prf, places, i) && EntryOk(src, i) && EntryOk(prf, places[i]);
    var n, n' := src[i].node, prf[places[i]].node;
    assert NodeShapeOk(n) && NodeShapeOk(n');
    forall k | 0 <= k < |Succs(n)|
      ensures Premises(prf, n')[k] == Premises(src, n)[k]
    {
      InlinedSuccs(src, base, idx, prf, places, i, k);
    }
    assert Premises(prf, n') == Premises(src, n);
  }

  lemma InlinedSound<M(!new)>(
    sem: Semantics<M>, src: Proof, base: Proof, idx: int, prf: Proof, places: map<int, int>
  )
    requires Inlining(src, base, idx, prf, places) && LocallySound(sem, src) && LocallySound(sem, base)
    ensures LocallySound(sem, prf)
  {
    InlinedExtends(src, base, idx, prf, places);
    assert CopiedAt(src, base, idx, prf, places, 0);
    forall j | j in prf
      ensures SoundNode(sem, prf, j)
    {
      if j in base && j != idx {
        assert SoundNode(sem, base, j);
        Rules.UnchangedNodesSound(sem, base, prf, j);
      } else {
        var i := if j == idx then 0 else Origin(places, j);
        assert SoundNode(sem, src, i);
        CopiedNodeSound(sem, src, base, idx, prf, places, i);
      }
    }
  }

  /** Only copies of open nodes are open besides what was open before. */
  lemma InlinedOpens(src: Proof, base: Proof, idx: int, prf: Proof, places: map<int, int>)
    requires Inlining(src, base, idx, prf, places)
    ensures Opens(prf) == Opens(base) - {idx} + (set i | i in Opens(src) && i in places :: places[i])
  {
    var copies := set i | i in Opens(src) && i in places :: places[i];
    forall i | i in src
      ensures places[i] in prf && (prf[places[i]].node.Open? <==> src[i].node.Open?)
    {
      assert CopiedAt(src, base, idx, prf, places, i);
    }
    forall j | j in copies || j in Opens(base) - {idx}
      ensures j in prf
    {
      if j in copies {
        var i :| i in Opens(src) && i in places && places[i] == j;
      }
    }
    forall j | j in prf
      ensures j in Opens(prf) <==> j in Opens(base) - {idx} || j in copies
    {
      if j in base && j != idx {
        assert j !in copies by {
          forall i | i in src
            ensures places[i] != j
          {
            assert CopiedAt(src, base, idx, prf, places, i);
          }
        }
      } else {
        assert CopiedAt(src, base, idx, prf, places, 0);
        var i := if j == idx then 0 else Origin(places, j);
        assert places[i] == j;
        assert i in Opens(src) <==> j in Opens(prf);
        assert forall i2 :: i2 in places && places[i2] == j ==> i2 == i;
      }
    }
  }

  /**
   * Inlining needs no new check: from two proofs that meet the trace condition
   * it makes one that does, and it keeps local soundness, the other nodes, and
   * the open nodes up to copies.
   */
  lemma InliningIsSafe<M(!new)>(sem: Semantics<M>, src: Proof, idx: int, base: Proof)
    requires ProofOk(src) && ProofOk(base) && AddSubprf(src, idx, base).Ok?
    ensures
      var prf := AddSubprf(src, idx, base).value;
      && ProofOk(prf) && Rules.Extends(base, prf)
      && (GTC(Abstract(src), 0) && GTC(Abstract(base), 0) ==> GTC(Abstract(prf), 0))
      && (LocallySound(sem, src) && LocallySound(sem, base) ==> LocallySound(sem, prf))
      && (IsClosed(src) ==> Opens(prf) == Opens(base) - {idx})
  {
    InliningCopies(src, idx, base);
    var prf := AddSubprf(src, idx, base).value;
    var places :| Inlined(src, base, idx, prf, places);
    InlinedProofOk(src, base, idx, prf, places);
    InlinedExtends(src, base, idx, prf, places);
    InlinedIsGlued(src, base, idx, prf, places);
    if GTC(Abstract(src), 0) && GTC(Abstract(base), 0) {
      GluedGTC(Abstract(src), Abstract(base), Abstract(prf), idx, places);
    }
    if LocallySound(sem, src) && LocallySound(sem, base) {
      InlinedSound(sem, src, base, idx, prf, places);
    }
    InlinedOpens(src, base, idx, prf, places);
  }
}
