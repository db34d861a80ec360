/** The lock-free queue with many enqueuers and one dequeuer (benchmarks/slmc/programs/queue.c) as a
    system of threads that each take one shared-memory access at a time. Addresses may be reused. */
module LockFreeQueue {
  import opened Sets
  import opened Outcomes

  type Addr = int

  datatype Cell = Cell(next: Addr, value: int)

  type Heap = map<Addr, Cell>

  /** An enqueuer; each constructor names the access it makes next. */
  datatype EnqPc =
    | EnqIdle
    | Allocate(v: int)                             // n = malloc(..); n->value = value
    | Load(n: Addr, v: int)                        // last = queue->last
    | SetNext(n: Addr, v: int, last: Addr)         // n->next = last
    | Cas(n: Addr, v: int, last: Addr)             // compare-and-store queue->last
    | EnqReturn(v: int)

  /** The dequeuer. */
  datatype DeqPc =
    | DeqIdle
    | ReadFirst                                    // first = queue->first
    | ReadMiddle(f: Addr)                          // middle = queue->middle; first == middle
    | Noop(f: Addr)                                // atomic_noop
    | LoadLast(f: Addr, mid: Addr)                 // last = queue->last; last == middle
    | ReadPrev(f: Addr, mid: Addr, last: Addr)     // node = last; prev = last->next
    | Loop(f: Addr, mid: Addr, last: Addr, node: Addr, prev: Addr)
                                                   // prev->next, or first->next = node when prev == middle
    | Reverse(f: Addr, mid: Addr, last: Addr, node: Addr, prev: Addr, prevPrev: Addr)
                                                   // prev->next = node
    | SetMiddle(f: Addr, last: Addr)               // queue->middle = last
    | ReadNext(f: Addr)                            // firstNext = first->next
    | ReadValue(f: Addr, fn: Addr)                 // firstNext->value
    | SetFirst(f: Addr, fn: Addr, v: int)          // queue->first = firstNext
    | Free(f: Addr, v: int)                        // free(first)
    | DeqReturn(result: Option<int>)

  datatype Event =
    | EnqInvoke(t: int, v: int)
    | EnqPoint(t: int, v: int)
    | EnqRespond(t: int, v: int)
    | DeqInvoke
    | DeqPoint(result: Option<int>)
    | DeqRespond(result: Option<int>)

  datatype State = State(
    heap: Heap, first: Addr, middle: Addr, last: Addr,
    enqs: map<int, EnqPc>, deq: DeqPc, log: seq<Event>)

  // ---------- The sequential specification ----------

  function Answer(q: seq<int>): Option<int> {
    if q == [] then None else Some(q[0])
  }

  function QueueNext(q: seq<int>, e: Event): seq<int> {
    match e
    case EnqPoint(_, v) => q + [v]
    case DeqPoint(_) => if q == [] then q else q[1..]
    case _ => q
  }

  /** The contents after the effects logged so far. */
  function QueueAfter(log: seq<Event>): seq<int> {
    if log == [] then [] else QueueNext(QueueAfter(log[..|log| - 1]), log[|log| - 1])
  }

  /** Every dequeue has the answer of the sequential queue at the moment of its effect. */
  ghost predicate Legal(log: seq<Event>) {
    forall k :: 0 <= k < |log| && log[k].DeqPoint? ==> log[k].result == Answer(QueueAfter(log[..k]))
  }

  /** The state of the current call of an enqueuer or of the dequeuer, as the events tell it. */
  datatype EnqStatus = EnqQuiet | EnqPending(v: int) | EnqDone(v: int) | EnqBroken

  datatype DeqStatus = DeqQuiet | DeqPending | DeqDecided(result: Option<int>) | DeqBroken

  function EnqNext(st: EnqStatus, t: int, e: Event): EnqStatus {
    match e
    case EnqInvoke(u, v) => if u != t then st else if st.EnqQuiet? then EnqPending(v) else EnqBroken
    case EnqPoint(u, v) => if u != t then st else if st == EnqPending(v) then EnqDone(v) else EnqBroken
    case EnqRespond(u, v) => if u != t then st else if st == EnqDone(v) then EnqQuiet else EnqBroken
    case _ => st
  }

  function DeqNext(st: DeqStatus, e: Event): DeqStatus {
    match e
    case DeqInvoke => if st.DeqQuiet? then DeqPending else DeqBroken
    case DeqPoint(r) => if st.DeqPending? then DeqDecided(r) else DeqBroken
    case DeqRespond(r) => if st == DeqDecided(r) then DeqQuiet else DeqBroken
    case _ => st
  }

  function EnqStatusOf(log: seq<Event>, t: int): EnqStatus {
    if log == [] then EnqQuiet else EnqNext(EnqStatusOf(log[..|log| - 1], t), t, log[|log| - 1])
  }

  function DeqStatusOf(log: seq<Event>): DeqStatus {
    if log == [] then DeqQuiet else DeqNext(DeqStatusOf(log[..|log| - 1]), log[|log| - 1])
  }

  // ---------- Steps ----------

  function GoEnq(s: State, t: int, pc: EnqPc): State {
    s.(enqs := s.enqs[t := pc])
  }

  function Emit(s: State, e: Event): State {
    s.(log := s.log + [e])
  }

  function Store(h: Heap, a: Addr, n: Addr): Heap
    requires a in h
  {
    h[a := h[a].(next := n)]
  }

  ghost predicate EnqStep(s: State, t: int, s': State) {
    t in s.enqs &&
    var h := s.heap;
    match s.enqs[t]
    case EnqIdle => exists v :: s' == Emit(GoEnq(s, t, Allocate(v)), EnqInvoke(t, v))
    case Allocate(v) => exists n, junk :: n !in h && s' == GoEnq(s.(heap := h[n := Cell(junk, v)]), t, Load(n, v))
    case Load(n, v) => s' == GoEnq(s, t, SetNext(n, v, s.last))
    case SetNext(n, v, last) => n in h && s' == GoEnq(s.(heap := Store(h, n, last)), t, Cas(n, v, last))
    case Cas(n, v, last) =>
      s' == if s.last == last then Emit(GoEnq(s.(last := n), t, EnqReturn(v)), EnqPoint(t, v)) else GoEnq(s, t, Load(n, v))
    case EnqReturn(v) => s' == Emit(GoEnq(s, t, EnqIdle), EnqRespond(t, v))
  }

  ghost predicate DeqStep(s: State, s': State) {
    var h := s.heap;
    match s.deq
    case DeqIdle => s' == Emit(s.(deq := ReadFirst), DeqInvoke)
    case ReadFirst => s' == s.(deq := ReadMiddle(s.first))
    case ReadMiddle(f) => s' == s.(deq := if f == s.middle then LoadLast(f, s.middle) else Noop(f))
    case Noop(f) => s' == Emit(s.(deq := ReadNext(f)), DeqPoint(Answer(QueueAfter(s.log))))
    case LoadLast(f, mid) =>
      s' == if s.last == mid then Emit(s.(deq := DeqReturn(None)), DeqPoint(Answer(QueueAfter(s.log))))
            else Emit(s.(deq := ReadPrev(f, mid, s.last)), DeqPoint(Answer(QueueAfter(s.log))))
    case ReadPrev(f, mid, last) => last in h && s' == s.(deq := Loop(f, mid, last, last, h[last].next))
    case Loop(f, mid, last, node, prev) =>
      if prev != mid then prev in h && s' == s.(deq := Reverse(f, mid, last, node, prev, h[prev].next))
      else f in h && s' == s.(heap := Store(h, f, node), deq := SetMiddle(f, last))
    case Reverse(f, mid, last, node, prev, pp) =>
      prev in h && s' == s.(heap := Store(h, prev, node), deq := Loop(f, mid, last, prev, pp))
    case SetMiddle(f, last) => s' == s.(middle := last, deq := ReadNext(f))
    case ReadNext(f) => f in h && s' == s.(deq := ReadValue(f, h[f].next))
    case ReadValue(f, fn) => fn in h && s' == s.(deq := SetFirst(f, fn, h[fn].value))
    case SetFirst(f, fn, v) => s' == s.(first := fn, deq := Free(f, v))
    case Free(f, v) => f in h && s' == s.(heap := h - {f}, deq := DeqReturn(Some(v)))
    case DeqReturn(r) => s' == Emit(s.(deq := DeqIdle), DeqRespond(r))
  }

  /** `create_queue`: one dummy node. */
  ghost predicate Init(s: State) {
    && s.middle == s.first && s.last == s.first
    && (exists junk, junk' :: s.heap == map[s.first := Cell(junk, junk')])
    && (forall t :: t in s.enqs ==> s.enqs[t] == EnqIdle) && s.deq == DeqIdle
    && s.log == []
  }

  /** The cells that the next access of the dequeuer dereferences or frees. */
  function DeqTarget(pc: DeqPc): set<Addr> {
    match pc
    case ReadPrev(_, _, last) => {last}
    case Loop(f, mid, _, _, prev) => if prev != mid then {prev} else {f}
    case Reverse(_, _, _, _, prev, _) => {prev}
    case ReadNext(f) => {f}
    case ReadValue(_, fn) => {fn}
    case Free(f, _) => {f}
    case _ => {}
  }

  function EnqTarget(pc: EnqPc): set<Addr> {
    match pc
    case SetNext(n, _, _) => {n}
    case _ => {}
  }

  // ---------- The invariant ----------

  /** The nodes in queue order, the dummy first. From `k` to the middle `m` they are linked forwards;
      the other ones, except the dummy, are linked backwards. */
  ghost predicate Linked(h: Heap, dq: seq<Addr>, m: int, k: int) {
    && 0 <= k <= m < |dq|
    && (forall i :: 0 <= i < |dq| ==> dq[i] in h)
    && (forall i, j :: 0 <= i < j < |dq| ==> dq[i] != dq[j])
    && (forall i :: k <= i < m ==> Forward(h, dq, i))
    && (forall i :: 1 <= i < k || m < i < |dq| ==> Backward(h, dq, i))
  }

  ghost predicate Forward(h: Heap, dq: seq<Addr>, i: int) {
    0 <= i < |dq| - 1 && dq[i] in h && h[dq[i]].next == dq[i + 1]
  }

  ghost predicate Backward(h: Heap, dq: seq<Addr>, i: int) {
    1 <= i < |dq| && dq[i] in h && h[dq[i]].next == dq[i - 1]
  }

  ghost function Values(h: Heap, dq: seq<Addr>, from: nat): seq<int>
    requires from <= |dq| && forall i :: 0 <= i < |dq| ==> dq[i] in h
  {
    seq(|dq| - from, i requires 0 <= i < |dq| - from => h[dq[from + i]].value)
  }

  function Private(pc: EnqPc): set<Addr> {
    match pc
    case Load(n, _) => {n}
    case SetNext(n, _, _) => {n}
    case Cas(n, _, _) => {n}
    case _ => {}
  }

  function DeqPrivate(pc: DeqPc): set<Addr> {
    match pc
    case Free(f, _) => {f}
    case _ => {}
  }

  ghost predicate EnqOk(h: Heap, pc: EnqPc) {
    match pc
    case Load(n, v) => n in h && h[n].value == v
    case SetNext(n, v, _) => n in h && h[n].value == v
    case Cas(n, v, last) => n in h && h[n].value == v && h[n].next == last
    case _ => true
  }

  /** How far the dequeuer has got, and how the nodes are linked at that point. */
  ghost predicate DeqOk(s: State, dq: seq<Addr>, m: int, k: int)
    requires Linked(s.heap, dq, m, k)
  {
    match s.deq
    case DeqIdle => k == 0 && s.middle == dq[m]
    case ReadFirst => k == 0 && s.middle == dq[m]
    case ReadMiddle(f) => k == 0 && s.middle == dq[m] && f == dq[0]
    case Noop(f) => k == 0 && s.middle == dq[m] && f == dq[0] && m >= 1
    case LoadLast(f, mid) => k == 0 && s.middle == dq[m] && f == dq[0] && mid == dq[0] && m == 0
    case ReadPrev(f, mid, last) =>
      && k == m >= 1 && s.middle == dq[0] && f == dq[0] && mid == dq[0] && last == dq[m]
      && s.heap[last].next == dq[m - 1]
    case Loop(f, mid, last, node, prev) =>
      k >= 1 && s.middle == dq[0] && f == dq[0] && mid == dq[0] && last == dq[m] && node == dq[k] && prev == dq[k - 1]
    case Reverse(f, mid, last, node, prev, pp) =>
      && k >= 2 && s.middle == dq[0] && f == dq[0] && mid == dq[0] && last == dq[m]
      && node == dq[k] && prev == dq[k - 1] && pp == dq[k - 2]
    case SetMiddle(f, last) => k == 0 && m >= 1 && s.middle == dq[0] && f == dq[0] && last == dq[m]
    case ReadNext(f) => k == 0 && m >= 1 && s.middle == dq[m] && f == dq[0]
    case ReadValue(f, fn) => k == 0 && m >= 1 && s.middle == dq[m] && f == dq[0] && fn == dq[1]
    case SetFirst(f, fn, v) => k == 0 && m >= 1 && s.middle == dq[m] && f == dq[0] && fn == dq[1] && v == s.heap[dq[1]].value
    case Free(f, v) => k == 0 && s.middle == dq[m] && f in s.heap && f !in dq
    case DeqReturn(_) => k == 0 && s.middle == dq[m]
  }

  /** The dequeuer has taken its element logically, but the node is still in place. */
  predicate Taken(pc: DeqPc) {
    pc.ReadPrev? || pc.Loop? || pc.Reverse? || pc.SetMiddle? || pc.ReadNext? || pc.ReadValue? || pc.SetFirst?
  }

  ghost predicate Owners(s: State, dq: seq<Addr>) {
    && (forall t, a :: t in s.enqs && a in Private(s.enqs[t]) ==> a !in dq && a !in DeqPrivate(s.deq))
    && (forall t, u :: t in s.enqs && u in s.enqs && t != u ==> Private(s.enqs[t]) !! Private(s.enqs[u]))
  }

  ghost predicate OwnedBySome(s: State, a: Addr) {
    a in DeqPrivate(s.deq) || exists t :: t in s.enqs && a in Private(s.enqs[t])
  }

  ghost predicate NoLeak(s: State, dq: seq<Addr>) {
    forall a :: a in s.heap ==> a in dq || OwnedBySome(s, a)
  }

  function EnqPcStatus(pc: EnqPc): EnqStatus {
    match pc
    case EnqIdle => EnqQuiet
    case Allocate(v) => EnqPending(v)
    case Load(_, v) => EnqPending(v)
    case SetNext(_, v, _) => EnqPending(v)
    case Cas(_, v, _) => EnqPending(v)
    case EnqReturn(v) => EnqDone(v)
  }

  ghost predicate DeqConsistent(s: State, dq: seq<Addr>)
    requires forall i :: 0 <= i < |dq| ==> dq[i] in s.heap
  {
    match s.deq
    case DeqIdle => DeqStatusOf(s.log) == DeqQuiet
    case ReadFirst => DeqStatusOf(s.log) == DeqPending
    case ReadMiddle(_) => DeqStatusOf(s.log) == DeqPending
    case Noop(_) => DeqStatusOf(s.log) == DeqPending
    case LoadLast(_, _) => DeqStatusOf(s.log) == DeqPending
    case Free(_, v) => DeqStatusOf(s.log) == DeqDecided(Some(v))
    case DeqReturn(r) => DeqStatusOf(s.log) == DeqDecided(r)
    case _ => |dq| > 1 && DeqStatusOf(s.log) == DeqDecided(Some(s.heap[dq[1]].value))
  }

  ghost predicate Contents(s: State, dq: seq<Addr>)
    requires forall i :: 0 <= i < |dq| ==> dq[i] in s.heap
  {
    if Taken(s.deq) then |dq| > 1 && QueueAfter(s.log) == Values(s.heap, dq, 2)
    else |dq| > 0 && QueueAfter(s.log) == Values(s.heap, dq, 1)
  }

  ghost predicate Shape(s: State, dq: seq<Addr>, m: int, k: int) {
    && Linked(s.heap, dq, m, k) && DeqOk(s, dq, m, k)
    && s.first == dq[0] && s.last == dq[|dq| - 1]
    && (forall t :: t in s.enqs ==> EnqOk(s.heap, s.enqs[t]))
    && Owners(s, dq) && NoLeak(s, dq)
  }

  ghost predicate History(s: State, dq: seq<Addr>)
    requires forall i :: 0 <= i < |dq| ==> dq[i] in s.heap
  {
    && Legal(s.log) && Contents(s, dq) && DeqConsistent(s, dq)
    && (forall t :: t in s.enqs ==> EnqStatusOf(s.log, t) == EnqPcStatus(s.enqs[t]))
  }

  ghost predicate InvWith(s: State, dq: seq<Addr>, m: int, k: int) {
    Shape(s, dq, m, k) && History(s, dq)
  }

  ghost predicate Inv(s: State) {
    exists dq, m, k :: InvWith(s, dq, m, k)
  }

  // ---------- The log ----------

  lemma EmitStatus(log: seq<Event>, e: Event, t: int)
    ensures EnqStatusOf(log + [e], t) == EnqNext(EnqStatusOf(log, t), t, e)
    ensures DeqStatusOf(log + [e]) == DeqNext(DeqStatusOf(log), e)
  {
    assert (log + [e])[..|log|] == log;
  }

  lemma EmitQueue(log: seq<Event>, e: Event)
    requires Legal(log) && (e.DeqPoint? ==> e.result == Answer(QueueAfter(log)))
    ensures Legal(log + [e])
    ensures QueueAfter(log + [e]) == QueueNext(QueueAfter(log), e)
  {
    var log' := log + [e];
    assert log'[..|log|] == log;
    forall k | 0 <= k < |log'| && log'[k].DeqPoint?
      ensures log'[k].result == Answer(QueueAfter(log'[..k]))
    {
      if k < |log| {
        assert log'[..k] == log[..k];
      }
    }
  }

  // ---------- Steps of the enqueuers ----------

  /** Nothing on the list changes. */
  ghost predicate SameOnList(h: Heap, h': Heap, dq: seq<Addr>)
    requires forall i :: 0 <= i < |dq| ==> dq[i] in h
  {
    forall i :: 0 <= i < |dq| ==> dq[i] in h' && h'[dq[i]] == h[dq[i]]
  }

  lemma ListFrame(h: Heap, h': Heap, dq: seq<Addr>, m: int, k: int)
    requires Linked(h, dq, m, k) && SameOnList(h, h', dq)
    ensures Linked(h', dq, m, k)
    ensures forall from: nat :: from <= |dq| ==> Values(h', dq, from) == Values(h, dq, from)
  {
    assert forall i :: Forward(h, dq, i) ==> Forward(h', dq, i);
    assert forall i :: Backward(h, dq, i) ==> Backward(h', dq, i);
  }

  lemma DeqFrame(s: State, s': State, dq: seq<Addr>, m: int, k: int)
    requires Linked(s.heap, dq, m, k) && Linked(s'.heap, dq, m, k) && DeqOk(s, dq, m, k)
    requires SameOnList(s.heap, s'.heap, dq) && s'.deq == s.deq && s'.middle == s.middle
    requires forall a :: a in DeqPrivate(s.deq) ==> a in s'.heap
    ensures DeqOk(s', dq, m, k)
  {
  }

  /** How the cells of one enqueuer may change. */
  ghost predicate OwnCellsOnly(s: State, t: int, s': State)
    requires t in s.enqs && t in s'.enqs
  {
    && (forall a :: a in s.heap && a !in Private(s.enqs[t]) ==> a in s'.heap && s'.heap[a] == s.heap[a])
    && (forall a :: a in s'.heap && a !in s.heap ==> a in Private(s'.enqs[t]))
    && (forall a :: a in Private(s'.enqs[t]) ==> a in Private(s.enqs[t]) || a !in s.heap)
    && Private(s.enqs[t]) <= Private(s'.enqs[t])
  }

  lemma ListInHeap(s: State, dq: seq<Addr>, m: int, k: int)
    requires Linked(s.heap, dq, m, k) && DeqOk(s, dq, m, k)
    ensures forall a :: a in dq ==> a in s.heap
    ensures DeqPrivate(s.deq) <= s.heap.Keys
  {
    forall a | a in dq
      ensures a in s.heap
    {
      var i :| 0 <= i < |dq| && dq[i] == a;
    }
  }

  lemma OtherEnq(s: State, t: int, s': State, pc: EnqPc)
    requires t in s.enqs && t in s'.enqs && OwnCellsOnly(s, t, s')
    requires EnqOk(s.heap, pc) && Private(s.enqs[t]) !! Private(pc)
    ensures EnqOk(s'.heap, pc) && Private(s'.enqs[t]) !! Private(pc)
  {
    forall a | a in Private(pc)
      ensures a in s.heap && a in s'.heap && s'.heap[a] == s.heap[a] && a !in Private(s'.enqs[t])
    {
    }
  }

  lemma EnqOwners(s: State, t: int, s': State, dq: seq<Addr>)
    requires t in s.enqs && t in s'.enqs && s'.enqs == s.enqs[t := s'.enqs[t]] && s'.deq == s.deq
    requires OwnCellsOnly(s, t, s') && Owners(s, dq)
    requires (forall a :: a in dq ==> a in s.heap) && DeqPrivate(s.deq) <= s.heap.Keys
    requires forall u :: u in s.enqs ==> EnqOk(s.heap, s.enqs[u])
    ensures Owners(s', dq)
    ensures forall u :: u in s.enqs && u != t ==> EnqOk(s'.heap, s'.enqs[u])
  {
    forall u | u in s.enqs && u != t
      ensures EnqOk(s'.heap, s'.enqs[u]) && Private(s'.enqs[t]) !! Private(s'.enqs[u])
    {
      assert EnqOk(s.heap, s.enqs[u]);
      OtherEnq(s, t, s', s.enqs[u]);
    }
  }

  lemma EnqNoLeak(s: State, t: int, s': State, dq: seq<Addr>)
    requires NoLeak(s, dq) && t in s.enqs && t in s'.enqs
    requires s'.enqs == s.enqs[t := s'.enqs[t]] && s'.deq == s.deq
    requires OwnCellsOnly(s, t, s')
    ensures NoLeak(s', dq)
  {
    forall a | a in s'.heap && a !in dq
      ensures OwnedBySome(s', a)
    {
      if a in s.heap && a !in DeqPrivate(s.deq) {
        assert OwnedBySome(s, a);
        var u :| u in s.enqs && a in Private(s.enqs[u]);
        assert u in s'.enqs && a in Private(s'.enqs[u]);
      }
    }
  }

  /** A step of one enqueuer that leaves the list alone. */
  lemma EnqFrame(s: State, t: int, s': State, dq: seq<Addr>, m: int, k: int)
    requires Shape(s, dq, m, k) && t in s.enqs && t in s'.enqs
    requires s'.enqs == s.enqs[t := s'.enqs[t]] && s'.deq == s.deq
    requires s'.first == s.first && s'.middle == s.middle && s'.last == s.last
    requires OwnCellsOnly(s, t, s') && EnqOk(s'.heap, s'.enqs[t])
    ensures Shape(s', dq, m, k) && SameOnList(s.heap, s'.heap, dq)
  {
    forall i | 0 <= i < |dq|
      ensures dq[i] in s'.heap && s'.heap[dq[i]] == s.heap[dq[i]]
    {
      assert dq[i] in dq;
    }
    ListFrame(s.heap, s'.heap, dq, m, k);
    assert forall a :: a in DeqPrivate(s.deq) ==> a in s.heap && a !in Private(s.enqs[t]);
    DeqFrame(s, s', dq, m, k);
    ListInHeap(s, dq, m, k);
    EnqOwners(s, t, s', dq);
    EnqNoLeak(s, t, s', dq);
  }

  /** The step logs nothing, or a call or return that fits the move. */
  ghost predicate EnqLogs(s: State, t: int, s': State)
    requires t in s.enqs && t in s'.enqs
  {
    || (s'.log == s.log && EnqPcStatus(s'.enqs[t]) == EnqPcStatus(s.enqs[t]))
    || exists e :: EnqLogged(s, t, s', e)
  }

  ghost predicate EnqLogged(s: State, t: int, s': State, e: Event)
    requires t in s.enqs && t in s'.enqs
  {
    && s'.log == s.log + [e] && (e.EnqInvoke? || e.EnqRespond?) && e.t == t
    && EnqPcStatus(s'.enqs[t]) == EnqNext(EnqPcStatus(s.enqs[t]), t, e)
  }

  lemma SameValues(h: Heap, h': Heap, dq: seq<Addr>, from: nat)
    requires from <= |dq| && (forall i :: 0 <= i < |dq| ==> dq[i] in h) && SameOnList(h, h', dq)
    ensures Values(h', dq, from) == Values(h, dq, from)
  {
  }

  lemma SameContents(s: State, s': State, dq: seq<Addr>)
    requires (forall i :: 0 <= i < |dq| ==> dq[i] in s.heap) && SameOnList(s.heap, s'.heap, dq) && s'.deq == s.deq
    requires Contents(s, dq) && QueueAfter(s'.log) == QueueAfter(s.log)
    ensures Contents(s', dq)
  {
    SameValues(s.heap, s'.heap, dq, if Taken(s.deq) then 2 else 1);
  }

  lemma SameDeqConsistent(s: State, s': State, dq: seq<Addr>)
    requires (forall i :: 0 <= i < |dq| ==> dq[i] in s.heap) && SameOnList(s.heap, s'.heap, dq) && s'.deq == s.deq
    requires DeqConsistent(s, dq) && DeqStatusOf(s'.log) == DeqStatusOf(s.log)
    ensures DeqConsistent(s', dq)
  {
  }

  /** After a logged call or return every enqueuer's place still fits the log. */
  lemma EnqLoggedStatus(s: State, t: int, s': State, e: Event, u: int)
    requires t in s.enqs && t in s'.enqs && s'.enqs == s.enqs[t := s'.enqs[t]] && EnqLogged(s, t, s', e)
    requires u in s.enqs && EnqStatusOf(s.log, u) == EnqPcStatus(s.enqs[u])
    ensures EnqStatusOf(s'.log, u) == EnqPcStatus(s'.enqs[u])
  {
    EmitStatus(s.log, e, u);
  }

  lemma EnqLoggedHistory(s: State, t: int, s': State, dq: seq<Addr>, e: Event)
    requires forall i :: 0 <= i < |dq| ==> dq[i] in s.heap
    requires History(s, dq) && SameOnList(s.heap, s'.heap, dq)
    requires t in s.enqs && t in s'.enqs && s'.enqs == s.enqs[t := s'.enqs[t]] && s'.deq == s.deq
    requires EnqLogged(s, t, s', e)
    ensures History(s', dq)
  {
    EmitQueue(s.log, e);
    EmitStatus(s.log, e, t);
    SameContents(s, s', dq);
    SameDeqConsistent(s, s', dq);
    forall u | u in s'.enqs
      ensures EnqStatusOf(s'.log, u) == EnqPcStatus(s'.enqs[u])
    {
      EnqLoggedStatus(s, t, s', e, u);
    }
  }

  lemma EnqHistory(s: State, t: int, s': State, dq: seq<Addr>)
    requires forall i :: 0 <= i < |dq| ==> dq[i] in s.heap
    requires History(s, dq) && SameOnList(s.heap, s'.heap, dq)
    requires t in s.enqs && t in s'.enqs && s'.enqs == s.enqs[t := s'.enqs[t]] && s'.deq == s.deq
    requires EnqLogs(s, t, s')
    ensures History(s', dq)
  {
    if e :| EnqLogged(s, t, s', e) {
      EnqLoggedHistory(s, t, s', dq, e);
    } else {
      SameContents(s, s', dq);
      SameDeqConsistent(s, s', dq);
    }
  }

  lemma EnqStepFacts(s: State, t: int, s': State)
    requires EnqStep(s, t, s') && EnqOk(s.heap, s.enqs[t])
    requires !(s.enqs[t].Cas? && s.last == s.enqs[t].last)
    ensures t in s'.enqs && s'.enqs == s.enqs[t := s'.enqs[t]] && s'.deq == s.deq
    ensures s'.first == s.first && s'.middle == s.middle && s'.last == s.last
    ensures OwnCellsOnly(s, t, s') && EnqOk(s'.heap, s'.enqs[t]) && EnqLogs(s, t, s')
  {
    match s.enqs[t]
    case EnqIdle =>
      var v :| s' == Emit(GoEnq(s, t, Allocate(v)), EnqInvoke(t, v));
      assert EnqLogged(s, t, s', EnqInvoke(t, v));
    case EnqReturn(v) =>
      assert EnqLogged(s, t, s', EnqRespond(t, v));
    case _ =>
  }

  lemma EnqPlainStep(s: State, t: int, s': State, dq: seq<Addr>, m: int, k: int)
    requires InvWith(s, dq, m, k) && EnqStep(s, t, s')
    requires !(s.enqs[t].Cas? && s.last == s.enqs[t].last)
    ensures InvWith(s', dq, m, k)
  {
    EnqStepFacts(s, t, s');
    EnqFrame(s, t, s', dq, m, k);
    EnqHistory(s, t, s', dq);
  }

  lemma Appended(h: Heap, dq: seq<Addr>, n: Addr, from: nat)
    requires from <= |dq| && (forall i :: 0 <= i < |dq| ==> dq[i] in h) && n in h
    ensures Values(h, dq + [n], from) == Values(h, dq, from) + [h[n].value]
  {
  }

  lemma AppendLinked(h: Heap, dq: seq<Addr>, m: int, k: int, n: Addr)
    requires Linked(h, dq, m, k) && n in h && n !in dq && h[n].next == dq[|dq| - 1]
    ensures Linked(h, dq + [n], m, k)
  {
    assert forall i :: Forward(h, dq, i) ==> Forward(h, dq + [n], i);
    assert forall i :: Backward(h, dq, i) ==> Backward(h, dq + [n], i);
    assert Backward(h, dq + [n], |dq|);
  }

  lemma AppendDeqOk(s: State, s': State, dq: seq<Addr>, m: int, k: int, n: Addr)
    requires Linked(s.heap, dq, m, k) && Linked(s'.heap, dq + [n], m, k) && DeqOk(s, dq, m, k)
    requires s'.heap == s.heap && s'.deq == s.deq && s'.middle == s.middle && n !in DeqPrivate(s.deq)
    ensures DeqOk(s', dq + [n], m, k)
  {
  }

  /** A successful compare-and-store publishes the node at the end of the queue, even if the address
      of the last node was freed and reused since it was loaded. */
  lemma PublishShape(s: State, t: int, s': State, dq: seq<Addr>, m: int, k: int)
    requires Shape(s, dq, m, k) && EnqStep(s, t, s')
    requires s.enqs[t].Cas? && s.last == s.enqs[t].last
    ensures Shape(s', dq + [s.enqs[t].n], m, k)
  {
    var n := s.enqs[t].n;
    assert EnqOk(s.heap, s.enqs[t]);
    assert n in Private(s.enqs[t]) && n !in dq;
    AppendLinked(s.heap, dq, m, k, n);
    AppendDeqOk(s, s', dq, m, k, n);
    PublishOwners(s, t, s', dq, n);
  }

  lemma PublishOwners(s: State, t: int, s': State, dq: seq<Addr>, n: Addr)
    requires Owners(s, dq) && NoLeak(s, dq) && t in s.enqs && Private(s.enqs[t]) == {n}
    requires s'.heap == s.heap && s'.deq == s.deq && t in s'.enqs
    requires s'.enqs == s.enqs[t := s'.enqs[t]] && Private(s'.enqs[t]) == {}
    ensures Owners(s', dq + [n]) && NoLeak(s', dq + [n])
  {
    forall a | a in s'.heap && a !in dq + [n]
      ensures OwnedBySome(s', a)
    {
      assert OwnedBySome(s, a);
      if a !in DeqPrivate(s.deq) {
        var u :| u in s.enqs && a in Private(s.enqs[u]);
        assert u in s'.enqs && a in Private(s'.enqs[u]);
      }
    }
  }

  lemma PublishHistory(s: State, t: int, s': State, dq: seq<Addr>, m: int, k: int)
    requires InvWith(s, dq, m, k) && EnqStep(s, t, s')
    requires s.enqs[t].Cas? && s.last == s.enqs[t].last
    requires forall i :: 0 <= i < |dq| + 1 ==> (dq + [s.enqs[t].n])[i] in s'.heap
    ensures History(s', dq + [s.enqs[t].n])
  {
    var n, v := s.enqs[t].n, s.enqs[t].v;
    assert EnqOk(s.heap, s.enqs[t]);
    var e := EnqPoint(t, v);
    EmitQueue(s.log, e);
    EmitStatus(s.log, e, t);
    forall u | u in s'.enqs
      ensures EnqStatusOf(s'.log, u) == EnqPcStatus(s'.enqs[u])
    {
      EmitStatus(s.log, e, u);
    }
    Appended(s.heap, dq, n, 1);
    if |dq| > 1 {
      Appended(s.heap, dq, n, 2);
    }
  }

  /** A step of an enqueuer leaves the nodes in place and may append one; `m` and `k` stay. */
  lemma EnqStepKeeps(s: State, t: int, s': State, dq: seq<Addr>, m: int, k: int) returns (dq': seq<Addr>)
    requires InvWith(s, dq, m, k) && EnqStep(s, t, s')
    ensures InvWith(s', dq', m, k)
  {
    if s.enqs[t].Cas? && s.last == s.enqs[t].last {
      dq' := dq + [s.enqs[t].n];
      PublishShape(s, t, s', dq, m, k);
      PublishHistory(s, t, s', dq, m, k);
    } else {
      dq' := dq;
      EnqPlainStep(s, t, s', dq, m, k);
    }
  }

  lemma EnqKeepsInv(s: State, t: int, s': State)
    requires Inv(s) && EnqStep(s, t, s')
    ensures Inv(s')
  {
    var dq, m, k :| InvWith(s, dq, m, k);
    var dq' := EnqStepKeeps(s, t, s', dq, m, k);
  }

  // ---------- Steps of the dequeuer ----------

  ghost predicate DeqOwns(s: State, dq: seq<Addr>, a: Addr) {
    a in dq || a in DeqPrivate(s.deq)
  }

  /** A step of the dequeuer touches only the list and its own cell. */
  ghost predicate DeqCellsOnly(s: State, s': State, dq: seq<Addr>, dq': seq<Addr>) {
    && (forall a :: a in s.heap && !DeqOwns(s, dq, a) ==> a in s'.heap && s'.heap[a] == s.heap[a])
    && s'.heap.Keys <= s.heap.Keys
    && (forall a :: DeqOwns(s', dq', a) ==> DeqOwns(s, dq, a))
    && (forall a :: DeqOwns(s, dq, a) && a in s'.heap ==> DeqOwns(s', dq', a))
  }

  lemma DeqOthers(s: State, s': State, dq: seq<Addr>, dq': seq<Addr>)
    requires s'.enqs == s.enqs && DeqCellsOnly(s, s', dq, dq')
    requires Owners(s, dq) && NoLeak(s, dq) && forall t :: t in s.enqs ==> EnqOk(s.heap, s.enqs[t])
    ensures Owners(s', dq') && NoLeak(s', dq') && forall t :: t in s'.enqs ==> EnqOk(s'.heap, s'.enqs[t])
  {
    forall t, a | t in s.enqs && a in Private(s.enqs[t])
      ensures !DeqOwns(s, dq, a)
    {
    }
    forall t | t in s'.enqs
      ensures EnqOk(s'.heap, s'.enqs[t])
    {
      assert EnqOk(s.heap, s.enqs[t]);
    }
    forall a | a in s'.heap && a !in dq'
      ensures OwnedBySome(s', a)
    {
      if !DeqOwns(s, dq, a) {
        assert OwnedBySome(s, a);
        var u :| u in s.enqs && a in Private(s.enqs[u]);
        assert u in s'.enqs && a in Private(s'.enqs[u]);
      }
    }
  }

  lemma LoopStep(s: State, s': State, dq: seq<Addr>, m: int, k: int)
    requires InvWith(s, dq, m, k) && DeqStep(s, s') && s.deq.Loop? && s.deq.prev != s.deq.mid
    ensures InvWith(s', dq, m, k)
  {
    DeqOthers(s, s', dq, dq);
    assert k >= 2 && Backward(s.heap, dq, k - 1);
  }

  lemma ReadNextStep(s: State, s': State, dq: seq<Addr>, m: int, k: int)
    requires InvWith(s, dq, m, k) && DeqStep(s, s') && s.deq.ReadNext? && s'.log == s.log
    ensures InvWith(s', dq, m, k)
  {
    DeqOthers(s, s', dq, dq);
    assert Forward(s.heap, dq, 0);
  }

  lemma ReadStep(s: State, s': State, dq: seq<Addr>, m: int, k: int)
    requires InvWith(s, dq, m, k) && DeqStep(s, s') && (s.deq.ReadFirst? || s.deq.ReadMiddle?)
    ensures InvWith(s', dq, m, k)
  {
    DeqOthers(s, s', dq, dq);
  }

  /** A step that only moves the dequeuer on, or writes `queue->middle`. */
  lemma SilentStep(s: State, s': State, dq: seq<Addr>, m: int, k: int)
    requires InvWith(s, dq, m, k) && DeqStep(s, s')
    requires s'.log == s.log && !s.deq.SetFirst? && !s.deq.Free? && !s.deq.Reverse?
    requires s.deq.Loop? ==> s.deq.prev != s.deq.mid
    ensures InvWith(s', dq, m, k)
  {
    match s.deq
    case Loop(_, _, _, _, _) => LoopStep(s, s', dq, m, k);
    case ReadNext(_) => ReadNextStep(s, s', dq, m, k);
    case ReadFirst => ReadStep(s, s', dq, m, k);
    case ReadMiddle(_) => ReadStep(s, s', dq, m, k);
    case _ => DeqOthers(s, s', dq, dq);
  }

  /** An event of the dequeuer changes no enqueuer's status. */
  lemma DeqEventStatus(s: State, s': State, e: Event)
    requires s'.log == s.log + [e] && (e.DeqInvoke? || e.DeqPoint? || e.DeqRespond?) && s'.enqs == s.enqs
    requires forall t :: t in s.enqs ==> EnqStatusOf(s.log, t) == EnqPcStatus(s.enqs[t])
    ensures forall t :: t in s'.enqs ==> EnqStatusOf(s'.log, t) == EnqPcStatus(s'.enqs[t])
    ensures DeqStatusOf(s'.log) == DeqNext(DeqStatusOf(s.log), e)
  {
    EmitStatus(s.log, e, 0);
    forall t | t in s'.enqs
      ensures EnqStatusOf(s'.log, t) == EnqPcStatus(s'.enqs[t])
    {
      EmitStatus(s.log, e, t);
    }
  }

  lemma CallStep(s: State, s': State, dq: seq<Addr>, m: int, k: int)
    requires InvWith(s, dq, m, k) && DeqStep(s, s') && (s.deq.DeqIdle? || s.deq.DeqReturn?)
    ensures InvWith(s', dq, m, k)
  {
    DeqOthers(s, s', dq, dq);
    var e := if s.deq.DeqIdle? then DeqInvoke else DeqRespond(s.deq.result);
    EmitQueue(s.log, e);
    DeqEventStatus(s, s', e);
  }

  lemma FrontValue(h: Heap, dq: seq<Addr>)
    requires |dq| > 1 && forall i :: 0 <= i < |dq| ==> dq[i] in h
    ensures Values(h, dq, 1) == [h[dq[1]].value] + Values(h, dq, 2)
  {
  }

  lemma TakeFront(s: State, s': State, dq: seq<Addr>, m: int, k: int)
    requires InvWith(s, dq, m, k) && !Taken(s.deq) && DeqStatusOf(s.log) == DeqPending
    requires |dq| > 1 && s'.heap == s.heap && s'.enqs == s.enqs && Taken(s'.deq)
    requires s'.log == s.log + [DeqPoint(Answer(QueueAfter(s.log)))]
    ensures History(s', dq)
  {
    var e := DeqPoint(Answer(QueueAfter(s.log)));
    EmitQueue(s.log, e);
    DeqEventStatus(s, s', e);
    FrontValue(s.heap, dq);
  }

  lemma NoopStep(s: State, s': State, dq: seq<Addr>, m: int, k: int)
    requires InvWith(s, dq, m, k) && DeqStep(s, s') && s.deq.Noop?
    ensures InvWith(s', dq, m, k)
  {
    DeqOthers(s, s', dq, dq);
    TakeFront(s, s', dq, m, k);
  }

  /** `last == middle` means that the queue is empty at this very access. */
  lemma EmptyStep(s: State, s': State, dq: seq<Addr>, m: int, k: int)
    requires InvWith(s, dq, m, k) && DeqStep(s, s') && s.deq.LoadLast? && s.last == s.deq.mid
    ensures QueueAfter(s.log) == [] && InvWith(s', dq, m, k)
  {
    assert |dq| == 1 && Values(s.heap, dq, 1) == [];
    DeqOthers(s, s', dq, dq);
    var e := DeqPoint(Answer(QueueAfter(s.log)));
    EmitQueue(s.log, e);
    DeqEventStatus(s, s', e);
  }

  /** Otherwise the whole back part is captured, to be reversed. */
  lemma CaptureStep(s: State, s': State, dq: seq<Addr>, m: int, k: int)
    requires InvWith(s, dq, m, k) && DeqStep(s, s') && s.deq.LoadLast? && s.last != s.deq.mid
    ensures InvWith(s', dq, |dq| - 1, |dq| - 1)
  {
    DeqOthers(s, s', dq, dq);
    assert Backward(s.heap, dq, |dq| - 1);
    TakeFront(s, s', dq, m, k);
  }

  /** Writing the next pointer of a list node keeps the values and the history. */
  lemma RelinkHistory(s: State, s': State, dq: seq<Addr>, m: int, k: int, a: Addr, n: Addr)
    requires InvWith(s, dq, m, k) && Taken(s.deq) && Taken(s'.deq) && a in s.heap
    requires s'.heap == Store(s.heap, a, n) && s'.enqs == s.enqs && s'.log == s.log
    ensures History(s', dq)
  {
    assert Values(s'.heap, dq, 2) == Values(s.heap, dq, 2);
  }

  lemma StoreLinked(h: Heap, dq: seq<Addr>, m: int, k: int)
    requires Linked(h, dq, m, k) && k >= 1
    ensures Linked(Store(h, dq[k - 1], dq[k]), dq, m, k - 1)
  {
    var h' := Store(h, dq[k - 1], dq[k]);
    assert forall i :: Forward(h, dq, i) && i != k - 1 ==> Forward(h', dq, i);
    assert forall i :: Backward(h, dq, i) && i != k - 1 ==> Backward(h', dq, i);
    assert Forward(h', dq, k - 1);
  }

  lemma ReverseStep(s: State, s': State, dq: seq<Addr>, m: int, k: int)
    requires InvWith(s, dq, m, k) && DeqStep(s, s')
    requires s.deq.Reverse? || (s.deq.Loop? && s.deq.prev == s.deq.mid)
    ensures InvWith(s', dq, m, k - 1)
  {
    if s.deq.Loop? {
      assert k == 1;
    }
    StoreLinked(s.heap, dq, m, k);
    DeqOthers(s, s', dq, dq);
    RelinkHistory(s, s', dq, m, k, dq[k - 1], dq[k]);
  }

  lemma DropFirst(h: Heap, dq: seq<Addr>, m: int)
    requires Linked(h, dq, m, 0) && m >= 1
    ensures Linked(h, dq[1..], m - 1, 0)
    ensures Values(h, dq[1..], 1) == Values(h, dq, 2)
  {
    var dq' := dq[1..];
    forall i | 0 <= i < m - 1
      ensures Forward(h, dq', i)
    {
      assert Forward(h, dq, i + 1);
    }
    forall i | m - 1 < i < |dq'|
      ensures Backward(h, dq', i)
    {
      assert Backward(h, dq, i + 1);
    }
  }

  lemma SetFirstOthers(s: State, s': State, dq: seq<Addr>)
    requires |dq| > 0 && dq[0] !in dq[1..] && s.deq.SetFirst? && s.deq.f == dq[0] && s'.deq == Free(dq[0], s.deq.v)
    requires s'.heap == s.heap && s'.enqs == s.enqs
    requires Owners(s, dq) && NoLeak(s, dq) && forall t :: t in s.enqs ==> EnqOk(s.heap, s.enqs[t])
    ensures Owners(s', dq[1..]) && NoLeak(s', dq[1..])
  {
    assert dq == [dq[0]] + dq[1..];
    assert forall a :: a in dq <==> a == dq[0] || a in dq[1..];
    DeqOthers(s, s', dq, dq[1..]);
  }

  lemma SetFirstStep(s: State, s': State, dq: seq<Addr>, m: int, k: int)
    requires InvWith(s, dq, m, k) && DeqStep(s, s') && s.deq.SetFirst?
    ensures InvWith(s', dq[1..], m - 1, 0)
  {
    DropFirst(s.heap, dq, m);
    SetFirstOthers(s, s', dq);
  }

  lemma FreeStep(s: State, s': State, dq: seq<Addr>, m: int, k: int)
    requires InvWith(s, dq, m, k) && DeqStep(s, s') && s.deq.Free?
    ensures InvWith(s', dq, m, k)
  {
    ListFrame(s.heap, s'.heap, dq, m, k);
    DeqOthers(s, s', dq, dq);
    assert Values(s'.heap, dq, 1) == Values(s.heap, dq, 1);
  }

  /** After its effect the dequeuer has this many steps left, with `k` links still to be turned. */
  function Cost(pc: DeqPc, k: nat): nat {
    match pc
    case ReadPrev(_, _, _) => 2 * k + 6
    case Loop(_, _, _, _, _) => 2 * k + 5
    case Reverse(_, _, _, _, _, _) => 2 * k + 4
    case SetMiddle(_, _) => 6
    case ReadNext(_) => 5
    case ReadValue(_, _) => 4
    case SetFirst(_, _, _) => 3
    case Free(_, _) => 2
    case DeqReturn(_) => 1
    case _ => 0
  }

  /** Steps left until the effect. */
  function EarlyCost(pc: DeqPc): nat {
    match pc
    case ReadFirst => 3
    case ReadMiddle(_) => 2
    case Noop(_) => 1
    case LoadLast(_, _) => 1
    case _ => 0
  }

  /** One step less to go. */
  predicate Cheaper(pc: DeqPc, k: int, pc': DeqPc, k': int) {
    && 0 <= k && 0 <= k'
    && (Cost(pc, k) > 0 && !pc'.DeqIdle? ==> 0 < Cost(pc', k') < Cost(pc, k))
    && (EarlyCost(pc) > 0 ==> EarlyCost(pc') < EarlyCost(pc))
  }

  ghost predicate Gets(s: State, s': State, dq': seq<Addr>, m': int, k: int, k': int) {
    InvWith(s', dq', m', k') && Cheaper(s.deq, k, s'.deq, k')
  }

  lemma SimpleCheaper(s: State, s': State, k: nat)
    requires DeqStep(s, s') && !s.deq.Loop? && !s.deq.Reverse? && !s.deq.LoadLast?
    ensures Cheaper(s.deq, k, s'.deq, k)
  {
  }

  lemma LoopOrReverse(s: State, s': State, dq: seq<Addr>, m: int, k: int) returns (k': int)
    requires InvWith(s, dq, m, k) && DeqStep(s, s') && (s.deq.Loop? || s.deq.Reverse?)
    ensures Gets(s, s', dq, m, k, k')
  {
    if s.deq.Reverse? || s.deq.prev == s.deq.mid {
      ReverseStep(s, s', dq, m, k);
      k' := k - 1;
    } else {
      LoopStep(s, s', dq, m, k);
      k' := k;
    }
  }

  lemma LoadLastStep(s: State, s': State, dq: seq<Addr>, m: int, k: int) returns (m': int, k': int)
    requires InvWith(s, dq, m, k) && DeqStep(s, s') && s.deq.LoadLast?
    ensures Gets(s, s', dq, m', k, k')
  {
    if s.last == s.deq.mid {
      EmptyStep(s, s', dq, m, k);
      m', k' := m, k;
    } else {
      CaptureStep(s, s', dq, m, k);
      m', k' := |dq| - 1, |dq| - 1;
    }
  }

  lemma SimpleStep(s: State, s': State, dq: seq<Addr>, m: int, k: int)
    requires InvWith(s, dq, m, k) && DeqStep(s, s')
    requires !s.deq.Loop? && !s.deq.Reverse? && !s.deq.LoadLast? && !s.deq.SetFirst?
    ensures InvWith(s', dq, m, k)
  {
    match s.deq
    case DeqIdle => CallStep(s, s', dq, m, k);
    case DeqReturn(_) => CallStep(s, s', dq, m, k);
    case Noop(_) => NoopStep(s, s', dq, m, k);
    case Free(_, _) => FreeStep(s, s', dq, m, k);
    case _ => SilentStep(s, s', dq, m, k);
  }

  lemma DeqStepKeeps(s: State, s': State, dq: seq<Addr>, m: int, k: int)
    returns (dq': seq<Addr>, m': int, k': int)
    requires InvWith(s, dq, m, k) && DeqStep(s, s')
    ensures Gets(s, s', dq', m', k, k')
  {
    dq', m', k' := dq, m, k;
    if s.deq.Loop? || s.deq.Reverse? {
      k' := LoopOrReverse(s, s', dq, m, k);
    } else if s.deq.LoadLast? {
      m', k' := LoadLastStep(s, s', dq, m, k);
    } else if s.deq.SetFirst? {
      SetFirstStep(s, s', dq, m, k);
      SimpleCheaper(s, s', 0);
      dq', m', k' := dq[1..], m - 1, 0;
    } else {
      SimpleStep(s, s', dq, m, k);
      SimpleCheaper(s, s', k);
    }
  }

  lemma DeqKeepsInv(s: State, s': State)
    requires Inv(s) && DeqStep(s, s')
    ensures Inv(s')
  {
    var dq, m, k :| InvWith(s, dq, m, k);
    var dq', m', k' := DeqStepKeeps(s, s', dq, m, k);
  }

  // ---------- Every run ----------

  ghost predicate Next(s: State, s': State) {
    DeqStep(s, s') || exists t :: EnqStep(s, t, s')
  }

  ghost predicate NextAt(run: seq<State>, i: nat)
    requires i + 1 < |run|
  {
    Next(run[i], run[i + 1])
  }

  ghost predicate IsRun(run: seq<State>) {
    |run| > 0 && Init(run[0]) && forall i: nat :: i + 1 < |run| ==> NextAt(run, i)
  }

  lemma InitInv(s: State)
    requires Init(s)
    ensures Inv(s)
  {
    assert Linked(s.heap, [s.first], 0, 0);
    assert Values(s.heap, [s.first], 1) == [];
    assert InvWith(s, [s.first], 0, 0);
  }

  lemma {:induction false} RunInv(run: seq<State>, i: nat)
    requires IsRun(run) && i < |run|
    ensures Inv(run[i])
  {
    if i == 0 {
      InitInv(run[0]);
    } else {
      RunInv(run, i - 1);
      assert NextAt(run, i - 1);
      if DeqStep(run[i - 1], run[i]) {
        DeqKeepsInv(run[i - 1], run[i]);
      } else {
        var t :| EnqStep(run[i - 1], t, run[i]);
        EnqKeepsInv(run[i - 1], t, run[i]);
      }
    }
  }

  /** The nodes `dq`, in queue order, hold the contents of the sequential queue, after the element that a dequeue in
      progress has already taken. `Shape` says how they are linked, given `middle` and where the dequeuer is, and
      that there are no other cells but those that a call in progress owns. */
  ghost predicate Represents(s: State, dq: seq<Addr>, m: int, k: int) {
    Shape(s, dq, m, k) && Contents(s, dq)
  }

  /** Enqueues and dequeues take effect exactly once between call and return, in a legal FIFO order,
      and every dequeue returns the answer of the queue at its effect: nothing exactly if it was empty then. */
  ghost predicate Linearized(s: State) {
    && Legal(s.log)
    && (forall t :: t in s.enqs ==> !EnqStatusOf(s.log, t).EnqBroken?)
    && !DeqStatusOf(s.log).DeqBroken?
    && exists dq, m, k :: Represents(s, dq, m, k)
  }

  lemma LinearizableAndSafe(run: seq<State>, i: nat)
    requires IsRun(run) && i < |run|
    ensures Linearized(run[i])
    ensures DeqTarget(run[i].deq) <= run[i].heap.Keys
    ensures forall t :: t in run[i].enqs ==> EnqTarget(run[i].enqs[t]) <= run[i].heap.Keys
  {
    var s := run[i];
    RunInv(run, i);
    var dq, m, k :| InvWith(s, dq, m, k);
    assert Represents(s, dq, m, k);
    forall t | t in s.enqs
      ensures EnqTarget(s.enqs[t]) <= s.heap.Keys
    {
      assert EnqOk(s.heap, s.enqs[t]);
    }
  }

  /** Between dequeues: `first` leads forwards to `middle`, `last` leads backwards to `middle`, and the nodes after the
      dummy hold the queue. */
  ghost predicate AtRest(s: State, dq: seq<Addr>, m: int) {
    && 0 <= m < |dq| && (forall i :: 0 <= i < |dq| ==> dq[i] in s.heap)
    && s.first == dq[0] && s.middle == dq[m] && s.last == dq[|dq| - 1]
    && (forall i :: 0 <= i < m ==> Forward(s.heap, dq, i))
    && (forall i :: m < i < |dq| ==> Backward(s.heap, dq, i))
    && QueueAfter(s.log) == Values(s.heap, dq, 1)
  }

  lemma RestingQueue(run: seq<State>, i: nat)
    requires IsRun(run) && i < |run| && run[i].deq.DeqIdle?
    ensures exists dq, m :: AtRest(run[i], dq, m) && NoLeak(run[i], dq)
  {
    RunInv(run, i);
    var dq, m, k :| InvWith(run[i], dq, m, k);
    assert AtRest(run[i], dq, m) && NoLeak(run[i], dq);
  }

  // ---------- Some enqueuer always makes progress ----------

  /** The enqueuer has loaded `last` and not yet tried to store. */
  predicate HasLoaded(pc: EnqPc, last: Addr) {
    (pc.SetNext? || pc.Cas?) && pc.last == last
  }

  /** The attempt of `t` that is under way at `i` loaded `last` at `from`. */
  ghost predicate Attempt(run: seq<State>, from: nat, i: nat, t: int, last: Addr) {
    && from < i < |run| && run[from].last == last && t in run[from].enqs && run[from].enqs[t].Load?
    && forall h :: from < h <= i ==> t in run[h].enqs && HasLoaded(run[h].enqs[t], last)
  }

  /** The step after `h` is the successful store of `u`. */
  ghost predicate Publishes(run: seq<State>, h: nat, u: int) {
    && h + 1 < |run| && u in run[h].enqs && run[h].enqs[u].Cas? && run[h + 1].last == run[h].enqs[u].n
    && run[h + 1].log == run[h].log + [EnqPoint(u, run[h].enqs[u].v)]
  }

  lemma LoadedBefore(s: State, s': State, t: int, last: Addr)
    requires Next(s, s') && t in s'.enqs && HasLoaded(s'.enqs[t], last)
    ensures t in s.enqs && (HasLoaded(s.enqs[t], last) || (s.enqs[t].Load? && s.last == last))
  {
    if !DeqStep(s, s') {
      var u :| EnqStep(s, u, s');
    }
  }

  lemma {:induction false} AttemptStarts(run: seq<State>, i: nat, t: int, last: Addr) returns (from: nat)
    requires IsRun(run) && i < |run| && t in run[i].enqs && HasLoaded(run[i].enqs[t], last)
    ensures Attempt(run, from, i, t, last)
  {
    assert i != 0;
    assert NextAt(run, i - 1);
    LoadedBefore(run[i - 1], run[i], t, last);
    if HasLoaded(run[i - 1].enqs[t], last) {
      from := AttemptStarts(run, i - 1, t, last);
    } else {
      from := i - 1;
    }
  }

  lemma {:induction false} LastChanges(run: seq<State>, i: nat, j: nat) returns (h: nat, u: int)
    requires IsRun(run) && i <= j < |run| && run[i].last != run[j].last
    ensures i <= h < j && Publishes(run, h, u) && u in run[h + 1].enqs && run[h + 1].enqs[u].EnqReturn?
    decreases j - i
  {
    assert NextAt(run, i);
    if run[i + 1].last == run[i].last {
      h, u := LastChanges(run, i + 1, j);
    } else {
      h := i;
      u :| EnqStep(run[i], u, run[i + 1]);
    }
  }

  /** A compare-and-store is about to fail only if another enqueuer has stored since the load. */
  lemma SomeEnqueuerProgresses(run: seq<State>, i: nat, t: int) returns (from: nat, h: nat, u: int)
    requires IsRun(run) && i < |run| && t in run[i].enqs && run[i].enqs[t].Cas?
    requires run[i].last != run[i].enqs[t].last
    ensures Attempt(run, from, i, t, run[i].enqs[t].last)
    ensures from <= h < i && u != t && Publishes(run, h, u)
  {
    from := AttemptStarts(run, i, t, run[i].enqs[t].last);
    h, u := LastChanges(run, from, i);
    assert t in run[h + 1].enqs && HasLoaded(run[h + 1].enqs[t], run[i].enqs[t].last);
  }

  // ---------- Enqueues store and return ----------

  ghost predicate Moves(run: seq<State>, t: int, k: nat)
    requires k + 1 < |run| && t in run[k].enqs && t in run[k + 1].enqs
  {
    run[k + 1].enqs[t] != run[k].enqs[t]
  }

  lemma EnqStepMoves(s: State, u: int, s': State, t: int)
    requires EnqStep(s, u, s') && t in s.enqs
    ensures t in s'.enqs && (s'.enqs[t] != s.enqs[t] <==> u == t)
  {
  }

  /** A step of an enqueuer moves it and nobody else, so its steps are where it moves. */
  lemma EnqMovesOn(s: State, s': State, t: int)
    requires Next(s, s') && t in s.enqs
    ensures t in s'.enqs
    ensures s'.enqs[t] != s.enqs[t] <==> EnqStep(s, t, s')
  {
    if EnqStep(s, t, s') {
      EnqStepMoves(s, t, s', t);
    } else if !DeqStep(s, s') {
      var u :| EnqStep(s, u, s');
      EnqStepMoves(s, u, s', t);
    }
  }

  ghost predicate Enqueues(run: seq<State>, t: int, i: nat, j: nat) {
    i <= j < |run| && forall k :: i <= k <= j ==> t in run[k].enqs
  }

  /** How many steps the enqueuer takes from `i` to `j`. */
  ghost function EnqMoves(run: seq<State>, t: int, i: nat, j: nat): nat
    requires Enqueues(run, t, i, j)
    decreases j
  {
    if i == j then 0 else EnqMoves(run, t, i, j - 1) + if Moves(run, t, j - 1) then 1 else 0
  }

  ghost predicate SomeOtherPublishes(run: seq<State>, t: int, k: nat) {
    exists u :: u != t && Publishes(run, k, u)
  }

  /** How many stores of other enqueuers succeed from `i` to `j`. */
  ghost function OtherStores(run: seq<State>, t: int, i: nat, j: nat): nat
    requires i <= j < |run|
    decreases j
  {
    if i == j then 0 else OtherStores(run, t, i, j - 1) + if SomeOtherPublishes(run, t, j - 1) then 1 else 0
  }

  /** Steps left if no other store succeeds: an attempt that has seen an outdated `last` costs one more round. */
  function EnqCost(last: Addr, pc: EnqPc): nat {
    match pc
    case EnqIdle => 0
    case Allocate(_) => 5
    case Load(_, _) => 4
    case SetNext(_, _, l) => if l == last then 3 else 6
    case Cas(_, _, l) => if l == last then 2 else 5
    case EnqReturn(_) => 1
  }

  lemma OwnEnqStep(s: State, t: int, s': State)
    requires EnqStep(s, t, s') && !s.enqs[t].EnqIdle?
    ensures t in s'.enqs && EnqCost(s'.last, s'.enqs[t]) < EnqCost(s.last, s.enqs[t])
  {
  }

  lemma OtherStep(run: seq<State>, t: int, k: nat)
    requires IsRun(run) && k + 1 < |run| && t in run[k].enqs && !EnqStep(run[k], t, run[k + 1])
    ensures t in run[k + 1].enqs && run[k + 1].enqs[t] == run[k].enqs[t]
    ensures run[k + 1].last == run[k].last || SomeOtherPublishes(run, t, k)
  {
    assert NextAt(run, k);
    EnqMovesOn(run[k], run[k + 1], t);
    if run[k + 1].last != run[k].last {
      var u :| EnqStep(run[k], u, run[k + 1]);
      assert u != t && Publishes(run, k, u);
    }
  }

  /** Whatever the dequeuer and the other enqueuers do, an enqueue takes at most five steps of its own, and three more
      for each store of another enqueuer meanwhile. */
  lemma {:induction false} EnqueueBound(run: seq<State>, t: int, i: nat, j: nat)
    requires IsRun(run) && Enqueues(run, t, i, j) && forall k :: i <= k < j ==> !run[k].enqs[t].EnqIdle?
    ensures EnqMoves(run, t, i, j) + EnqCost(run[j].last, run[j].enqs[t])
         <= EnqCost(run[i].last, run[i].enqs[t]) + 3 * OtherStores(run, t, i, j)
    ensures EnqCost(run[i].last, run[i].enqs[t]) <= 6 && (run[i].enqs[t].Allocate? ==> EnqCost(run[i].last, run[i].enqs[t]) == 5)
    decreases j
  {
    if i < j {
      EnqueueBound(run, t, i, j - 1);
      assert NextAt(run, j - 1);
      EnqMovesOn(run[j - 1], run[j], t);
      if EnqStep(run[j - 1], t, run[j]) {
        OwnEnqStep(run[j - 1], t, run[j]);
      } else {
        OtherStep(run, t, j - 1);
      }
    }
  }

  /** Where an attempt stands after `m` steps of its enqueuer. */
  predicate AttemptAt(pc: EnqPc, n: Addr, v: int, last: Addr, m: nat) {
    if m == 0 then pc == Load(n, v) else if m == 1 then pc == SetNext(n, v, last) else pc == Cas(n, v, last)
  }

  ghost predicate LastStays(run: seq<State>, i: nat, j: nat) {
    i <= j < |run| && forall k :: i <= k <= j ==> run[k].last == run[i].last
  }

  lemma {:induction false} AttemptGoesOn(run: seq<State>, t: int, i: nat, j: nat, n: Addr, v: int)
    requires IsRun(run) && Enqueues(run, t, i, j) && LastStays(run, i, j) && run[i].enqs[t] == Load(n, v)
    requires EnqMoves(run, t, i, j) <= 2
    ensures AttemptAt(run[j].enqs[t], n, v, run[i].last, EnqMoves(run, t, i, j))
    decreases j
  {
    if i < j {
      AttemptGoesOn(run, t, i, j - 1, n, v);
      assert NextAt(run, j - 1);
      EnqMovesOn(run[j - 1], run[j], t);
    }
  }

  /** If `last` does not change from the load to the third step of an attempt, then that step stores. */
  lemma AttemptStores(run: seq<State>, t: int, i: nat, j: nat)
    requires IsRun(run) && Enqueues(run, t, i, j + 1) && LastStays(run, i, j) && run[i].enqs[t].Load?
    requires EnqMoves(run, t, i, j) == 2 && Moves(run, t, j)
    ensures Publishes(run, j, t) && run[j + 1].enqs[t].EnqReturn?
  {
    AttemptGoesOn(run, t, i, j, run[i].enqs[t].n, run[i].enqs[t].v);
    assert NextAt(run, j);
    EnqMovesOn(run[j], run[j + 1], t);
  }

  lemma FreshAddr(h: Heap)
    ensures exists n :: n !in h
  {
    if h.Keys == {} {
      assert 0 !in h;
    } else {
      MaxExists(h.Keys);
      var m :| m in h.Keys && forall n :: n in h.Keys ==> n <= m;
      assert m + 1 !in h;
    }
  }

  /** An enqueuer can always take its next step. */
  lemma EnqNeverStuck(run: seq<State>, i: nat, t: int) returns (s': State)
    requires IsRun(run) && i < |run| && t in run[i].enqs
    ensures EnqStep(run[i], t, s')
  {
    LinearizableAndSafe(run, i);
    var s := run[i];
    match s.enqs[t]
    case EnqIdle => s' := Emit(GoEnq(s, t, Allocate(0)), EnqInvoke(t, 0));
    case Allocate(v) =>
      FreshAddr(s.heap);
      var n :| n !in s.heap;
      s' := GoEnq(s.(heap := s.heap[n := Cell(0, v)]), t, Load(n, v));
    case Load(n, v) => s' := GoEnq(s, t, SetNext(n, v, s.last));
    case SetNext(n, v, last) =>
      assert n in EnqTarget(s.enqs[t]);
      s' := GoEnq(s.(heap := Store(s.heap, n, last)), t, Cas(n, v, last));
    case Cas(n, v, last) =>
      s' := if s.last == last then Emit(GoEnq(s.(last := n), t, EnqReturn(v)), EnqPoint(t, v)) else GoEnq(s, t, Load(n, v));
    case EnqReturn(v) => s' := Emit(GoEnq(s, t, EnqIdle), EnqRespond(t, v));
  }

  // ---------- Dequeues are wait-free ----------

  /** How many steps the dequeuer takes from `i` to `j`. */
  ghost function DeqMoves(run: seq<State>, i: nat, j: nat): nat
    requires i <= j < |run|
    decreases j - i
  {
    if i == j then 0 else (if run[i + 1].deq != run[i].deq then 1 else 0) + DeqMoves(run, i + 1, j)
  }

  /** One call lasts from `i` to `j`. */
  ghost predicate OneCall(run: seq<State>, i: nat, j: nat) {
    i <= j < |run| && forall h :: i <= h <= j ==> !run[h].deq.DeqIdle?
  }

  ghost predicate Owes(s: State, n: nat) {
    exists dq, m, k: nat :: InvWith(s, dq, m, k) && 0 < Cost(s.deq, k) <= n
  }

  lemma OwesStep(s: State, s': State, n: nat)
    requires Owes(s, n) && Next(s, s') && !s'.deq.DeqIdle?
    ensures s'.deq != s.deq ==> n > 0 && Owes(s', n - 1)
    ensures s'.deq == s.deq ==> Owes(s', n)
  {
    var dq, m, k: nat :| InvWith(s, dq, m, k) && 0 < Cost(s.deq, k) <= n;
    if DeqStep(s, s') {
      var dq', m', k' := DeqStepKeeps(s, s', dq, m, k);
      assert Owes(s', n - 1);
      DeqMovesOn(s, s');
    } else {
      var t :| EnqStep(s, t, s');
      var dq' := EnqStepKeeps(s, t, s', dq, m, k);
      EnqLeavesDeq(s, t, s');
    }
  }

  lemma DeqMovesOn(s: State, s': State)
    requires DeqStep(s, s')
    ensures s'.deq != s.deq
  {
  }

  lemma EnqLeavesDeq(s: State, t: int, s': State)
    requires EnqStep(s, t, s')
    ensures s'.deq == s.deq
  {
  }

  ghost predicate PaysAt(run: seq<State>, owes: (State, nat) -> bool, h: nat, n: nat)
    requires h + 1 < |run|
  {
    owes(run[h], n) ==>
      if run[h + 1].deq == run[h].deq then owes(run[h + 1], n) else n > 0 && owes(run[h + 1], n - 1)
  }

  /** A debt that every step of the dequeuer lowers bounds the number of its steps. */
  lemma {:induction false} DebtBounds(run: seq<State>, i: nat, j: nat, owes: (State, nat) -> bool, n: nat)
    requires i <= j < |run| && owes(run[i], n)
    requires forall h: nat, m: nat :: i <= h < j ==> PaysAt(run, owes, h, m)
    ensures DeqMoves(run, i, j) <= n
    decreases j - i
  {
    if i < j {
      assert PaysAt(run, owes, i, n);
      DebtBounds(run, i + 1, j, owes, if run[i + 1].deq == run[i].deq then n else n - 1);
    }
  }

  ghost function Debt(): (State, nat) -> bool {
    (s: State, n: nat) => Owes(s, n)
  }

  lemma DebtIsPaid(run: seq<State>, h: nat, n: nat)
    requires IsRun(run) && h + 1 < |run| && !run[h + 1].deq.DeqIdle?
    ensures PaysAt(run, Debt(), h, n)
  {
    assert NextAt(run, h);
    if Owes(run[h], n) {
      OwesStep(run[h], run[h + 1], n);
    }
  }

  lemma OwesBounds(run: seq<State>, i: nat, j: nat, n: nat)
    requires IsRun(run) && OneCall(run, i, j) && Debt()(run[i], n)
    ensures DeqMoves(run, i, j) <= n
  {
    forall h: nat, m: nat | i <= h < j
      ensures PaysAt(run, Debt(), h, m)
    {
      DebtIsPaid(run, h, m);
    }
    DebtBounds(run, i, j, Debt(), n);
  }

  /** From its effect on, the dequeuer owes at most two steps for each element, and a few more. */
  lemma EffectOwes(s: State)
    requires Inv(s) && !s.deq.DeqIdle? && EarlyCost(s.deq) == 0
    ensures Owes(s, 2 * |QueueAfter(s.log)| + 8)
  {
    var dq, m, k :| InvWith(s, dq, m, k);
    var n: nat := k;
    assert Cost(s.deq, n) <= 2 * |QueueAfter(s.log)| + 8;
  }

  lemma {:induction false} CallBound(run: seq<State>, i: nat, j: nat) returns (h: nat)
    requires IsRun(run) && OneCall(run, i, j)
    ensures i <= h <= j && DeqMoves(run, i, j) <= EarlyCost(run[i].deq) + 2 * |QueueAfter(run[h].log)| + 8
    decreases j - i
  {
    h := i;
    RunInv(run, i);
    if EarlyCost(run[i].deq) == 0 {
      EffectOwes(run[i]);
      OwesBounds(run, i, j, 2 * |QueueAfter(run[i].log)| + 8);
    } else if i < j {
      assert NextAt(run, i);
      h := CallBound(run, i + 1, j);
      EarlyStep(run[i], run[i + 1]);
    }
  }

  lemma EarlyStep(s: State, s': State)
    requires Inv(s) && Next(s, s') && EarlyCost(s.deq) > 0
    ensures s'.deq == s.deq || EarlyCost(s'.deq) < EarlyCost(s.deq)
  {
    if DeqStep(s, s') {
      var dq, m, k :| InvWith(s, dq, m, k);
      var dq', m', k' := DeqStepKeeps(s, s', dq, m, k);
    } else {
      var t :| EnqStep(s, t, s');
      EnqLeavesDeq(s, t, s');
    }
  }

  /** The dequeuer can always take its next step. */
  lemma NeverStuck(run: seq<State>, i: nat) returns (s': State)
    requires IsRun(run) && i < |run|
    ensures DeqStep(run[i], s')
  {
    LinearizableAndSafe(run, i);
    var s := run[i];
    var h, point := s.heap, DeqPoint(Answer(QueueAfter(s.log)));
    match s.deq
    case DeqIdle => s' := Emit(s.(deq := ReadFirst), DeqInvoke);
    case ReadFirst => s' := s.(deq := ReadMiddle(s.first));
    case ReadMiddle(f) => s' := s.(deq := if f == s.middle then LoadLast(f, s.middle) else Noop(f));
    case Noop(f) => s' := Emit(s.(deq := ReadNext(f)), point);
    case LoadLast(f, mid) =>
      s' := Emit(s.(deq := if s.last == mid then DeqReturn(None) else ReadPrev(f, mid, s.last)), point);
    case ReadPrev(f, mid, last) => s' := s.(deq := Loop(f, mid, last, last, h[last].next));
    case Loop(f, mid, last, node, prev) =>
      s' := if prev != mid then s.(deq := Reverse(f, mid, last, node, prev, h[prev].next))
            else s.(heap := Store(h, f, node), deq := SetMiddle(f, last));
    case Reverse(f, mid, last, node, prev, pp) =>
      s' := s.(heap := Store(h, prev, node), deq := Loop(f, mid, last, prev, pp));
    case SetMiddle(f, last) => s' := s.(middle := last, deq := ReadNext(f));
    case ReadNext(f) => s' := s.(deq := ReadValue(f, h[f].next));
    case ReadValue(f, fn) => s' := s.(deq := SetFirst(f, fn, h[fn].value));
    case SetFirst(f, fn, v) => s' := s.(first := fn, deq := Free(f, v));
    case Free(f, v) => s' := s.(heap := h - {f}, deq := DeqReturn(Some(v)));
    case DeqReturn(r) => s' := Emit(s.(deq := DeqIdle), DeqRespond(r));
  }

  /** Whatever the enqueuers do, one dequeue takes a number of its own steps that is linear in the length of the queue
      at some moment of the call. */
  lemma WaitFree(run: seq<State>, i: nat, j: nat)
    requires IsRun(run) && OneCall(run, i, j)
    ensures exists h :: i <= h <= j && DeqMoves(run, i, j) <= 2 * |QueueAfter(run[h].log)| + 11
  {
    var h := CallBound(run, i, j);
    assert EarlyCost(run[i].deq) <= 3;
  }
}
