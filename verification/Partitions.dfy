/**
 * Splitting a symbolic heap into the cases of which terms are equal
 * (src/seplog/invalid.ml), over the pure part of symbolic heaps
 * (src/seplog/heap.ml).
 */
module Partitions {
  import opened UnionFind
  import opened Outcomes

  datatype Heap = Heap(eqs: Uf, deqs: set<Pair>)

  predicate HeapEquates(h: Heap, x: int, y: int) {
    Equates(h.eqs, x, y)
  }

  predicate Crosses(h: Heap, p: Pair, x: int, y: int) {
    || (HeapEquates(h, x, p.lhs) && HeapEquates(h, y, p.rhs))
    || (HeapEquates(h, x, p.rhs) && HeapEquates(h, y, p.lhs))
  }

  predicate Disequates(h: Heap, x: int, y: int) {
    exists p :: p in h.deqs && Crosses(h, p, x, y)
  }

  predicate Inconsistent(h: Heap) {
    || (exists p :: p in h.deqs && p.lhs == p.rhs)
    || (exists p :: p in h.deqs && HeapEquates(h, p.lhs, p.rhs))
  }

  function AddEq(h: Heap, q: Pair): Heap {
    h.(eqs := Add(q, h.eqs))
  }

  function AddDeq(h: Heap, q: Pair): Heap {
    h.(deqs := h.deqs + {Order(q)})
  }

  predicate Decided(h: Heap, q: Pair) {
    HeapEquates(h, q.lhs, q.rhs) || Disequates(h, q.lhs, q.rhs)
  }

  function PairWith(x: int, ys: seq<int>, acc: seq<Pair>): seq<Pair> {
    if ys == [] then acc else PairWith(x, ys[1..], [Pair(x, ys[0])] + acc)
  }

  function HemiSquareOnto(xs: seq<int>, acc: seq<Pair>): seq<Pair> {
    if xs == [] then acc else HemiSquareOnto(xs[1..], PairWith(xs[0], xs[1..], acc))
  }

  function Undecided(qs: seq<Pair>, h: Heap): seq<Pair> {
    if qs == [] then []
    else if Decided(h, qs[0]) then Undecided(qs[1..], h)
    else [qs[0]] + Undecided(qs[1..], h)
  }

  /** Each heap that does not decide `q` becomes two. */
  function SplitOnto(hs: seq<Heap>, q: Pair, acc: seq<Heap>): seq<Heap> {
    if hs == [] then acc
    else
      var h := hs[0];
      SplitOnto(hs[1..], q, if Decided(h, q) then [h] + acc else [AddEq(h, q), AddDeq(h, q)] + acc)
  }

  function Refine(hs: seq<Heap>, qs: seq<Pair>): seq<Heap>
    decreases |qs|
  {
    if qs == [] then hs else Refine(SplitOnto(hs, qs[0], []), qs[1..])
  }

  function Partition(ts: seq<int>, h: Heap): Outcome<seq<Heap>> {
    if Inconsistent(h) then Raised
    else Ok(Refine([h], Undecided(HemiSquareOnto(ts, []), h)))
  }

  // ---------- Valuations ----------

  ghost predicate Holds(v: int -> int, h: Heap) {
    Models(v, h.eqs) && forall p :: p in h.deqs ==> v(p.lhs) != v(p.rhs)
  }

  /** A heap is inconsistent exactly when no valuation satisfies it. */
  lemma InconsistentIffUnsatisfiable(h: Heap)
    ensures Inconsistent(h) <==> forall v: int -> int :: !Holds(v, h)
  {
    forall v: int -> int, p: Pair | Holds(v, h) && p in h.deqs
      ensures !HeapEquates(h, p.lhs, p.rhs)
    {
      FindIsEqual(v, h.eqs, p.lhs);
      FindIsEqual(v, h.eqs, p.rhs);
    }
    if !Inconsistent(h) {
      RepresentativeModels(h.eqs);
      assert Holds(Representative(h.eqs), h);
    }
  }

  lemma DisequatesSound(v: int -> int, h: Heap, x: int, y: int)
    requires Holds(v, h) && Disequates(h, x, y)
    ensures v(x) != v(y)
  {
    var p :| p in h.deqs && Crosses(h, p, x, y);
    FindIsEqual(v, h.eqs, x);
    FindIsEqual(v, h.eqs, y);
    FindIsEqual(v, h.eqs, p.lhs);
    FindIsEqual(v, h.eqs, p.rhs);
  }

  /** What a further equality equates. */
  lemma AddEquates(q: Pair, m: Uf, x: int, y: int)
    ensures Equates(Add(q, m), x, y) <==>
            || Equates(m, x, y)
            || (Equates(m, x, q.lhs) && Equates(m, y, q.rhs))
            || (Equates(m, x, q.rhs) && Equates(m, y, q.lhs))
  {
    var o := Order(Pair(Find(q.lhs, m), Find(q.rhs, m)));
    var m' := Add(q, m);
    if o.lhs != o.rhs {
      forall z: int
        ensures Find(z, m') == if Find(z, m) == o.lhs then o.rhs else Find(z, m)
      {
        AddFinds(q, m, z);
      }
    }
  }

  lemma AddFinds(q: Pair, m: Uf, z: int)
    requires Find(q.lhs, m) != Find(q.rhs, m)
    ensures
      var o := Order(Pair(Find(q.lhs, m), Find(q.rhs, m)));
      Find(z, Add(q, m)) == if Find(z, m) == o.lhs then o.rhs else Find(z, m)
  {
    var m' := Add(q, m);
    assert z in m ==> Find(z, m) == m[z];
    assert z in m' ==> Find(z, m') == m'[z];
  }

  lemma AddEqConsistent(h: Heap, q: Pair)
    requires !Inconsistent(h) && !Decided(h, q)
    ensures !Inconsistent(AddEq(h, q))
  {
    forall p | p in h.deqs
      ensures !HeapEquates(AddEq(h, q), p.lhs, p.rhs)
    {
      AddEquates(q, h.eqs, p.lhs, p.rhs);
      assert !Crosses(h, p, q.lhs, q.rhs);
    }
  }

  lemma AddDeqConsistent(h: Heap, q: Pair)
    requires !Inconsistent(h) && !Decided(h, q)
    ensures !Inconsistent(AddDeq(h, q))
  {
  }

  /** In a consistent heap, disequating is exactly disequality under every satisfying valuation. */
  lemma DisequatesIsEntailment(h: Heap, x: int, y: int)
    requires !Inconsistent(h)
    ensures Disequates(h, x, y) <==> forall v: int -> int :: Holds(v, h) ==> v(x) != v(y)
  {
    if Disequates(h, x, y) {
      forall v: int -> int | Holds(v, h)
        ensures v(x) != v(y)
      {
        DisequatesSound(v, h, x, y);
      }
    } else {
      var q := Pair(x, y);
      var h' := if HeapEquates(h, x, y) then h else AddEq(h, q);
      if !HeapEquates(h, x, y) {
        AddEqConsistent(h, q);
        AddEquates(q, h.eqs, x, y);
      }
      InconsistentIffUnsatisfiable(h');
      var v: int -> int :| Holds(v, h');
      AddModels(v, q, h.eqs);
      assert Holds(v, h);
      FindIsEqual(v, h'.eqs, x);
      FindIsEqual(v, h'.eqs, y);
    }
  }

  // ---------- The cases ----------

  /** How many of the heaps a valuation satisfies. */
  ghost function Count(v: int -> int, hs: seq<Heap>): nat {
    if hs == [] then 0 else (if Holds(v, hs[0]) then 1 else 0) + Count(v, hs[1..])
  }

  lemma CaseSplit(v: int -> int, h: Heap, q: Pair)
    ensures Holds(v, AddEq(h, q)) <==> Holds(v, h) && v(q.lhs) == v(q.rhs)
    ensures Holds(v, AddDeq(h, q)) <==> Holds(v, h) && v(q.lhs) != v(q.rhs)
  {
    AddModels(v, q, h.eqs);
    if Holds(v, AddDeq(h, q)) {
      assert Order(q) in AddDeq(h, q).deqs;
      assert forall p :: p in h.deqs ==> p in AddDeq(h, q).deqs;
    }
  }

  lemma CountPush(v: int -> int, h: Heap, hs: seq<Heap>)
    ensures Count(v, [h] + hs) == (if Holds(v, h) then 1 else 0) + Count(v, hs)
  {
    assert ([h] + hs)[1..] == hs;
  }

  /** Splitting neither loses nor repeats a valuation. */
  lemma {:induction false} SplitCounts(v: int -> int, hs: seq<Heap>, q: Pair, acc: seq<Heap>)
    ensures Count(v, SplitOnto(hs, q, acc)) == Count(v, hs) + Count(v, acc)
    decreases |hs|
  {
    if hs != [] {
      var h := hs[0];
      if Decided(h, q) {
        SplitCounts(v, hs[1..], q, [h] + acc);
        CountPush(v, h, acc);
      } else {
        SplitCounts(v, hs[1..], q, [AddEq(h, q), AddDeq(h, q)] + acc);
        assert [AddEq(h, q), AddDeq(h, q)] + acc == [AddEq(h, q)] + ([AddDeq(h, q)] + acc);
        CountPush(v, AddEq(h, q), [AddDeq(h, q)] + acc);
        CountPush(v, AddDeq(h, q), acc);
        CaseSplit(v, h, q);
      }
    }
  }

  lemma {:induction false} RefineCounts(v: int -> int, hs: seq<Heap>, qs: seq<Pair>)
    ensures Count(v, Refine(hs, qs)) == Count(v, hs)
    decreases |qs|
  {
    if qs != [] {
      SplitCounts(v, hs, qs[0], []);
      RefineCounts(v, SplitOnto(hs, qs[0], []), qs[1..]);
    }
  }

  /** `h'` knows all that `h` knows. */
  ghost predicate Grows(h: Heap, h': Heap) {
    && (forall x, y :: HeapEquates(h, x, y) ==> HeapEquates(h', x, y))
    && h.deqs <= h'.deqs
  }

  lemma GrowsKeepsDecided(h: Heap, h': Heap, q: Pair)
    requires Grows(h, h') && Decided(h, q)
    ensures Decided(h', q)
  {
    if !HeapEquates(h, q.lhs, q.rhs) {
      var p :| p in h.deqs && Crosses(h, p, q.lhs, q.rhs);
      assert Crosses(h', p, q.lhs, q.rhs);
    }
  }

  lemma AddsGrow(h: Heap, q: Pair)
    ensures Grows(h, AddEq(h, q)) && Decided(AddEq(h, q), q)
    ensures Grows(h, AddDeq(h, q)) && Decided(AddDeq(h, q), q)
  {
    forall x: int, y: int | HeapEquates(h, x, y)
      ensures HeapEquates(AddEq(h, q), x, y)
    {
      AddEquates(q, h.eqs, x, y);
    }
    AddEquates(q, h.eqs, q.lhs, q.rhs);
    assert Order(q) in AddDeq(h, q).deqs && Crosses(AddDeq(h, q), Order(q), q.lhs, q.rhs);
  }

  /** A consistent heap that decides the pairs `done` and all that `base` decides. */
  ghost predicate Fine(base: Heap, done: set<Pair>, h: Heap) {
    !Inconsistent(h) && Grows(base, h) && forall q :: q in done ==> Decided(h, q)
  }

  ghost predicate AllFine(base: Heap, done: set<Pair>, hs: seq<Heap>) {
    forall h :: h in hs ==> Fine(base, done, h)
  }

  lemma AddsFine(base: Heap, done: set<Pair>, h: Heap, q: Pair)
    requires Fine(base, done, h) && !Decided(h, q)
    ensures Fine(base, done + {q}, AddEq(h, q)) && Fine(base, done + {q}, AddDeq(h, q))
  {
    AddsGrow(h, q);
    AddEqConsistent(h, q);
    AddDeqConsistent(h, q);
    forall d | d in done
      ensures Decided(AddEq(h, q), d) && Decided(AddDeq(h, q), d)
    {
      GrowsKeepsDecided(h, AddEq(h, q), d);
      GrowsKeepsDecided(h, AddDeq(h, q), d);
    }
  }

  lemma {:induction false} SplitFine(base: Heap, done: set<Pair>, hs: seq<Heap>, q: Pair, acc: seq<Heap>)
    requires AllFine(base, done, hs) && AllFine(base, done + {q}, acc)
    ensures AllFine(base, done + {q}, SplitOnto(hs, q, acc))
    decreases |hs|
  {
    if hs != [] {
      var h := hs[0];
      assert h in hs;
      assert AllFine(base, done, hs[1..]);
      if Decided(h, q) {
        SplitFine(base, done, hs[1..], q, [h] + acc);
      } else {
        AddsFine(base, done, h, q);
        SplitFine(base, done, hs[1..], q, [AddEq(h, q), AddDeq(h, q)] + acc);
      }
    }
  }

  lemma {:induction false} RefineFine(base: Heap, done: set<Pair>, hs: seq<Heap>, qs: seq<Pair>)
    requires AllFine(base, done, hs)
    ensures AllFine(base, done + (set q | q in qs), Refine(hs, qs))
    decreases |qs|
  {
    if qs == [] {
      assert done + (set q | q in qs) == done;
    } else {
      SplitFine(base, done, hs, qs[0], []);
      RefineFine(base, done + {qs[0]}, SplitOnto(hs, qs[0], []), qs[1..]);
      assert done + (set q | q in qs) == done + {qs[0]} + (set q | q in qs[1..]);
    }
  }

  lemma {:induction false} PairWithCovers(x: int, ys: seq<int>, acc: seq<Pair>)
    ensures forall q :: q in PairWith(x, ys, acc) <==> q in acc || (q.lhs == x && q.rhs in ys)
    decreases |ys|
  {
    if ys != [] {
      PairWithCovers(x, ys[1..], [Pair(x, ys[0])] + acc);
    }
  }

  /** Two terms of the list at different places, in their order. */
  ghost predicate Picked(ts: seq<int>, q: Pair) {
    exists i, j :: 0 <= i < j < |ts| && q == Pair(ts[i], ts[j])
  }

  lemma PickedTail(ts: seq<int>, q: Pair)
    requires ts != []
    ensures Picked(ts, q) <==> Picked(ts[1..], q) || (q.lhs == ts[0] && q.rhs in ts[1..])
  {
    if Picked(ts, q) {
      var i, j :| 0 <= i < j < |ts| && q == Pair(ts[i], ts[j]);
      assert ts[1..][j - 1] == ts[j];
      assert i > 0 ==> q == Pair(ts[1..][i - 1], ts[1..][j - 1]);
    }
    if Picked(ts[1..], q) {
      var i, j :| 0 <= i < j < |ts[1..]| && q == Pair(ts[1..][i], ts[1..][j]);
      assert q == Pair(ts[i + 1], ts[j + 1]);
    }
    if q.lhs == ts[0] && q.rhs in ts[1..] {
      var j :| 0 <= j < |ts[1..]| && ts[1..][j] == q.rhs;
      assert q == Pair(ts[0], ts[j + 1]);
    }
  }

  lemma {:induction false} HemiSquareCovers(ts: seq<int>, acc: seq<Pair>, q: Pair)
    ensures q in HemiSquareOnto(ts, acc) <==> q in acc || Picked(ts, q)
    decreases |ts|
  {
    if ts != [] {
      PairWithCovers(ts[0], ts[1..], acc);
      HemiSquareCovers(ts[1..], PairWith(ts[0], ts[1..], acc), q);
      PickedTail(ts, q);
    }
  }

  lemma {:induction false} UndecidedKeeps(qs: seq<Pair>, h: Heap, q: Pair)
    ensures q in Undecided(qs, h) <==> q in qs && !Decided(h, q)
    decreases |qs|
  {
    if qs != [] {
      UndecidedKeeps(qs[1..], h, q);
      assert qs == [qs[0]] + qs[1..];
    }
  }

  /**
   * The cases of a consistent heap are consistent, settle every two terms,
   * and every valuation of the heap satisfies exactly one of them, while
   * other valuations satisfy none.
   */
  lemma PartitionIsExact(ts: seq<int>, h: Heap, v: int -> int)
    ensures Partition(ts, h).Raised? <==> forall w: int -> int :: !Holds(w, h)
    ensures Partition(ts, h).Ok? ==>
              && Count(v, Partition(ts, h).value) == (if Holds(v, h) then 1 else 0)
              && forall h' :: h' in Partition(ts, h).value ==> Settled(ts, h')
  {
    InconsistentIffUnsatisfiable(h);
    if !Inconsistent(h) {
      var todo := Undecided(HemiSquareOnto(ts, []), h);
      RefineCounts(v, [h], todo);
      RefineFine(h, {}, [h], todo);
      forall h' | h' in Refine([h], todo)
        ensures Settled(ts, h')
      {
        FineIsSettled(ts, h, h');
      }
    }
  }

  ghost predicate Settled(ts: seq<int>, h: Heap) {
    !Inconsistent(h) && forall q :: Picked(ts, q) ==> Decided(h, q)
  }

  lemma FineIsSettled(ts: seq<int>, h: Heap, h': Heap)
    requires Fine(h, {} + (set p | p in Undecided(HemiSquareOnto(ts, []), h)), h')
    ensures Settled(ts, h')
  {
    forall q | Picked(ts, q)
      ensures Decided(h', q)
    {
      HemiSquareCovers(ts, [], q);
      UndecidedKeeps(HemiSquareOnto(ts, []), h, q);
      if Decided(h, q) {
        GrowsKeepsDecided(h, h', q);
      }
    }
  }
}
