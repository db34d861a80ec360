/** The lock-coupling sorted set (benchmarks/slmc/programs/lcset.c) as a system of threads that
    each take one shared-memory access at a time. */
module LockCoupling {
  import opened Sets

  type Addr = int

  const INT_MIN: int := -0x8000_0000
  const INT_MAX: int := 0x7fff_ffff

  datatype Cell = Cell(locked: bool, next: Addr, value: int)

  type Heap = map<Addr, Cell>

  datatype Op = Contains | Add | Remove

  datatype Call = Call(op: Op, e: int)

  /** What the callers must respect: `INT_MIN < e < INT_MAX`. */
  predicate CallOk(c: Call) {
    INT_MIN < c.e < INT_MAX
  }

  /** Where a thread stands; each constructor names the access it makes next. */
  datatype Pc =
    | Idle
    | LockHead(c: Call)                            // lock(&p->lock), p being the head
    | ReadNext(c: Call, p: Addr)                   // c = p->next
    | Compare(c: Call, p: Addr, n: Addr)           // c->value < e
    | LockNext(c: Call, p: Addr, n: Addr)          // lock(&c->lock)
    | UnlockPrev(c: Call, p: Addr, n: Addr)        // unlock(&p->lock); p = c
    | ReadFound(c: Call, x: Addr)                  // locate has returned x; z = x->next
    | Test(c: Call, x: Addr, z: Addr)              // z->value == e
    | Allocate(c: Call, x: Addr, z: Addr)          // y = malloc(..), filled in while private
    | Link(c: Call, x: Addr, z: Addr, y: Addr)     // x->next = y
    | LockVictim(c: Call, x: Addr, y: Addr)        // lock(&y->lock)
    | ReadVictim(c: Call, x: Addr, y: Addr)        // y->next
    | Unlink(c: Call, x: Addr, y: Addr, z: Addr)   // x->next = y->next
    | Free(c: Call, x: Addr, y: Addr)              // free(y)
    | Unlock(c: Call, x: Addr, result: bool)       // unlock(&x->lock)
    | Return(c: Call, result: bool)

  /** What a run shows: calls, returns, and the one access at which each call takes effect. */
  datatype Event =
    | Invoke(t: int, c: Call)
    | Point(t: int, c: Call, result: bool)
    | Respond(t: int, c: Call, result: bool)

  datatype State = State(head: Addr, heap: Heap, threads: map<int, Pc>, log: seq<Event>)

  // ---------- Steps ----------

  function Go(s: State, t: int, pc: Pc): State {
    s.(threads := s.threads[t := pc])
  }

  function Emit(s: State, e: Event): State {
    s.(log := s.log + [e])
  }

  function SetLock(h: Heap, a: Addr, b: bool): Heap
    requires a in h
  {
    h[a := h[a].(locked := b)]
  }

  function SetNext(h: Heap, a: Addr, n: Addr): Heap
    requires a in h
  {
    h[a := h[a].(next := n)]
  }

  /** The cell that a thread's next access dereferences or frees. */
  function Target(s: State, pc: Pc): set<Addr> {
    match pc
    case Idle => {}
    case LockHead(_) => {s.head}
    case ReadNext(_, p) => {p}
    case Compare(_, _, n) => {n}
    case LockNext(_, _, n) => {n}
    case UnlockPrev(_, p, _) => {p}
    case ReadFound(_, x) => {x}
    case Test(_, _, z) => {z}
    case Allocate(_, _, _) => {}
    case Link(_, x, _, _) => {x}
    case LockVictim(_, _, y) => {y}
    case ReadVictim(_, _, y) => {y}
    case Unlink(_, x, _, _) => {x}
    case Free(_, _, y) => {y}
    case Unlock(_, x, _) => {x}
    case Return(_, _) => {}
  }

  /** Memory safety of the next access of thread `t`. */
  predicate Safe(s: State, t: int)
    requires t in s.threads
  {
    Target(s, s.threads[t]) <= s.heap.Keys
  }

  /** The lock that a thread waits for, if any. */
  function WaitsFor(s: State, pc: Pc): set<Addr> {
    match pc
    case LockHead(_) => {s.head}
    case LockNext(_, _, n) => {n}
    case LockVictim(_, _, y) => {y}
    case _ => {}
  }

  /** What the access that tests `z->value == e` does. */
  function AfterTest(s: State, t: int, c: Call, x: Addr, z: Addr, found: bool): State {
    match c.op
    case Contains => Emit(Go(s, t, Unlock(c, x, found)), Point(t, c, found))
    case Add => if found then Emit(Go(s, t, Unlock(c, x, false)), Point(t, c, false)) else Go(s, t, Allocate(c, x, z))
    case Remove => if found then Go(s, t, LockVictim(c, x, z)) else Emit(Go(s, t, Unlock(c, x, false)), Point(t, c, false))
  }

  ghost predicate StepBy(s: State, t: int, s': State) {
    t in s.threads && Safe(s, t) &&
    var h := s.heap;
    match s.threads[t]
    case Idle => exists c :: CallOk(c) && s' == Emit(Go(s, t, LockHead(c)), Invoke(t, c))
    case LockHead(c) => !h[s.head].locked && s' == Go(s.(heap := SetLock(h, s.head, true)), t, ReadNext(c, s.head))
    case ReadNext(c, p) => s' == Go(s, t, Compare(c, p, h[p].next))
    case Compare(c, p, n) => s' == Go(s, t, if h[n].value < c.e then LockNext(c, p, n) else ReadFound(c, p))
    case LockNext(c, p, n) => !h[n].locked && s' == Go(s.(heap := SetLock(h, n, true)), t, UnlockPrev(c, p, n))
    case UnlockPrev(c, p, n) => s' == Go(s.(heap := SetLock(h, p, false)), t, ReadNext(c, n))
    case ReadFound(c, x) => s' == Go(s, t, Test(c, x, h[x].next))
    case Test(c, x, z) => s' == AfterTest(s, t, c, x, z, h[z].value == c.e)
    case Allocate(c, x, z) =>
      exists y :: y !in h && s' == Go(s.(heap := h[y := Cell(false, z, c.e)]), t, Link(c, x, z, y))
    case Link(c, x, z, y) => s' == Emit(Go(s.(heap := SetNext(h, x, y)), t, Unlock(c, x, true)), Point(t, c, true))
    case LockVictim(c, x, y) => !h[y].locked && s' == Go(s.(heap := SetLock(h, y, true)), t, ReadVictim(c, x, y))
    case ReadVictim(c, x, y) => s' == Go(s, t, Unlink(c, x, y, h[y].next))
    case Unlink(c, x, y, z) => s' == Emit(Go(s.(heap := SetNext(h, x, z)), t, Free(c, x, y)), Point(t, c, true))
    case Free(c, x, y) => s' == Go(s.(heap := h - {y}), t, Unlock(c, x, true))
    case Unlock(c, x, r) => s' == Go(s.(heap := SetLock(h, x, false)), t, Return(c, r))
    case Return(c, r) => s' == Emit(Go(s, t, Idle), Respond(t, c, r))
  }

  /** `create_set`; the lock and the successor of the last node are left uninitialised. */
  ghost predicate Init(s: State) {
    && (exists last, junk, junk' ::
          last != s.head &&
          s.heap == map[s.head := Cell(false, last, INT_MIN), last := Cell(junk, junk', INT_MAX)])
    && (forall t :: t in s.threads ==> s.threads[t] == Idle)
    && s.log == []
  }

  // ---------- The sequential specification ----------

  function Answer(elems: set<int>, c: Call): bool {
    match c.op
    case Contains => c.e in elems
    case Add => c.e !in elems
    case Remove => c.e in elems
  }

  function Effect(elems: set<int>, c: Call): set<int> {
    match c.op
    case Contains => elems
    case Add => elems + {c.e}
    case Remove => elems - {c.e}
  }

  /** The abstract set after the effects logged so far. */
  function SetAfter(log: seq<Event>): set<int> {
    if log == [] then {}
    else
      var before, e := SetAfter(log[..|log| - 1]), log[|log| - 1];
      if e.Point? then Effect(before, e.c) else before
  }

  /** Every effect has the answer of the sequential set at that moment. */
  ghost predicate Legal(log: seq<Event>) {
    forall k :: 0 <= k < |log| && log[k].Point? ==> log[k].result == Answer(SetAfter(log[..k]), log[k].c)
  }

  /** The state of the current call of a thread, as its events tell it. */
  datatype Status = Quiet | Pending(c: Call) | Decided(c: Call, result: bool) | Broken

  function NextStatus(st: Status, e: Event): Status {
    match e
    case Invoke(_, c) => if st.Quiet? then Pending(c) else Broken
    case Point(_, c, r) => if st == Pending(c) then Decided(c, r) else Broken
    case Respond(_, c, r) => if st == Decided(c, r) then Quiet else Broken
  }

  function StatusOf(log: seq<Event>, t: int): Status {
    if log == [] then Quiet
    else
      var before, e := StatusOf(log[..|log| - 1], t), log[|log| - 1];
      if e.t == t then NextStatus(before, e) else before
  }

  // ---------- The invariant ----------

  ghost predicate ChainOk(h: Heap, head: Addr, ch: seq<Addr>) {
    && |ch| >= 2 && ch[0] == head
    && (forall i :: 0 <= i < |ch| ==> ch[i] in h)
    && (forall i :: 0 <= i < |ch| - 1 ==> h[ch[i]].next == ch[i + 1])
    && (forall i, j :: 0 <= i < j < |ch| ==> h[ch[i]].value < h[ch[j]].value)
    && h[ch[0]].value == INT_MIN && h[ch[|ch| - 1]].value == INT_MAX
  }

  /** On the chain, before the last node. */
  ghost predicate Inside(ch: seq<Addr>, a: Addr) {
    exists i :: 0 <= i < |ch| - 1 && ch[i] == a
  }

  ghost function Elements(h: Heap, ch: seq<Addr>): set<int>
    requires forall i :: 0 <= i < |ch| ==> ch[i] in h
  {
    set i | 1 <= i < |ch| - 1 :: h[ch[i]].value
  }

  function Held(pc: Pc): set<Addr> {
    match pc
    case Idle => {}
    case LockHead(_) => {}
    case ReadNext(_, p) => {p}
    case Compare(_, p, _) => {p}
    case LockNext(_, p, _) => {p}
    case UnlockPrev(_, p, n) => {p, n}
    case ReadFound(_, x) => {x}
    case Test(_, x, _) => {x}
    case Allocate(_, x, _) => {x}
    case Link(_, x, _, _) => {x}
    case LockVictim(_, x, _) => {x}
    case ReadVictim(_, x, y) => {x, y}
    case Unlink(_, x, y, _) => {x, y}
    case Free(_, x, y) => {x, y}
    case Unlock(_, x, _) => {x}
    case Return(_, _) => {}
  }

  /** Nodes that only this thread can reach. */
  function Private(pc: Pc): set<Addr> {
    match pc
    case Link(_, _, _, y) => {y}
    case Free(_, _, y) => {y}
    case _ => {}
  }

  function Owned(pc: Pc): set<Addr> {
    Held(pc) + Private(pc)
  }

  /** `x` is the locked node of the chain after which `e` belongs. */
  ghost predicate At(h: Heap, ch: seq<Addr>, e: int, x: Addr) {
    x in h && Inside(ch, x) && h[x].locked && h[x].value < e && h[x].next in h
  }

  ghost predicate Located(h: Heap, ch: seq<Addr>, e: int, x: Addr) {
    At(h, ch, e, x) && e <= h[h[x].next].value
  }

  ghost predicate ThreadOk(h: Heap, ch: seq<Addr>, pc: Pc) {
    match pc
    case Idle => true
    case LockHead(c) => CallOk(c)
    case ReadNext(c, p) => CallOk(c) && At(h, ch, c.e, p)
    case Compare(c, p, n) => CallOk(c) && At(h, ch, c.e, p) && n == h[p].next
    case LockNext(c, p, n) => CallOk(c) && At(h, ch, c.e, p) && n == h[p].next && h[n].value < c.e
    case UnlockPrev(c, p, n) => CallOk(c) && At(h, ch, c.e, p) && n == h[p].next && h[n].value < c.e && h[n].locked
    case ReadFound(c, x) => CallOk(c) && Located(h, ch, c.e, x)
    case Test(c, x, z) => CallOk(c) && Located(h, ch, c.e, x) && z == h[x].next
    case Allocate(c, x, z) => CallOk(c) && c.op.Add? && Located(h, ch, c.e, x) && z == h[x].next && h[z].value != c.e
    case Link(c, x, z, y) =>
      && CallOk(c) && c.op.Add? && Located(h, ch, c.e, x) && z == h[x].next && h[z].value != c.e
      && y in h && y !in ch && h[y] == Cell(false, z, c.e)
    case LockVictim(c, x, y) => CallOk(c) && c.op.Remove? && Located(h, ch, c.e, x) && y == h[x].next && h[y].value == c.e
    case ReadVictim(c, x, y) =>
      CallOk(c) && c.op.Remove? && Located(h, ch, c.e, x) && y == h[x].next && h[y].value == c.e && h[y].locked
    case Unlink(c, x, y, z) =>
      && CallOk(c) && c.op.Remove? && Located(h, ch, c.e, x) && y == h[x].next
      && h[y].value == c.e && h[y].locked && h[y].next == z
    case Free(c, x, y) => At(h, ch, c.e, x) && y in h && y !in ch && h[y].locked
    case Unlock(c, x, _) => At(h, ch, c.e, x)
    case Return(_, _) => true
  }

  ghost predicate Disjoint(threads: map<int, Pc>) {
    forall t, u :: t in threads && u in threads && t != u ==> Owned(threads[t]) !! Owned(threads[u])
  }

  ghost predicate HeldBySome(threads: map<int, Pc>, a: Addr) {
    exists t :: t in threads && a in Held(threads[t])
  }

  ghost predicate PrivateToSome(threads: map<int, Pc>, a: Addr) {
    exists t :: t in threads && a in Private(threads[t])
  }

  ghost predicate LocksOwned(h: Heap, ch: seq<Addr>, threads: map<int, Pc>) {
    forall a :: a in h && Inside(ch, a) && h[a].locked ==> HeldBySome(threads, a)
  }

  /** Nothing leaks: a cell is on the chain or private to a thread. */
  ghost predicate NoLeak(h: Heap, ch: seq<Addr>, threads: map<int, Pc>) {
    forall a :: a in h ==> a in ch || PrivateToSome(threads, a)
  }

  ghost predicate ThreadsOk(h: Heap, ch: seq<Addr>, threads: map<int, Pc>) {
    forall t :: t in threads ==> ThreadOk(h, ch, threads[t])
  }

  function PcStatus(pc: Pc): Status {
    match pc
    case Idle => Quiet
    case LockHead(c) => Pending(c)
    case ReadNext(c, _) => Pending(c)
    case Compare(c, _, _) => Pending(c)
    case LockNext(c, _, _) => Pending(c)
    case UnlockPrev(c, _, _) => Pending(c)
    case ReadFound(c, _) => Pending(c)
    case Test(c, _, _) => Pending(c)
    case Allocate(c, _, _) => Pending(c)
    case Link(c, _, _, _) => Pending(c)
    case LockVictim(c, _, _) => Pending(c)
    case ReadVictim(c, _, _) => Pending(c)
    case Unlink(c, _, _, _) => Pending(c)
    case Free(c, _, _) => Decided(c, true)
    case Unlock(c, _, r) => Decided(c, r)
    case Return(c, r) => Decided(c, r)
  }

  /** The events of every thread match its position in the program. */
  ghost predicate Consistent(s: State) {
    forall t :: t in s.threads ==> StatusOf(s.log, t) == PcStatus(s.threads[t])
  }

  ghost predicate Structure(h: Heap, head: Addr, ch: seq<Addr>, threads: map<int, Pc>) {
    && ChainOk(h, head, ch) && ThreadsOk(h, ch, threads) && Disjoint(threads)
    && LocksOwned(h, ch, threads) && NoLeak(h, ch, threads)
  }

  ghost predicate InvWith(s: State, ch: seq<Addr>) {
    && Structure(s.heap, s.head, ch, s.threads)
    && Consistent(s)
    && Legal(s.log) && SetAfter(s.log) == Elements(s.heap, ch)
  }

  ghost predicate Inv(s: State) {
    exists ch :: InvWith(s, ch)
  }

  // ---------- What a step may do to the others ----------

  /** Cells outside `touched` are as before, chain cells keep their values and are not freed. */
  ghost predicate Frame(h: Heap, h': Heap, ch: seq<Addr>, ch': seq<Addr>, touched: set<Addr>) {
    && (forall a :: a in h && a !in touched ==> a in h' && h'[a] == h[a])
    && (forall a :: a in h && a in ch ==> a in h' && h'[a].value == h[a].value)
    && (forall a :: Inside(ch, a) && a !in touched ==> Inside(ch', a))
    && (forall a :: a in h && a !in ch && a !in touched ==> a !in ch')
  }

  lemma NextOnChain(h: Heap, head: Addr, ch: seq<Addr>, a: Addr)
    requires ChainOk(h, head, ch) && Inside(ch, a)
    ensures a in h && h[a].next in ch && h[a].next in h
  {
    var i :| 0 <= i < |ch| - 1 && ch[i] == a;
    assert h[a].next == ch[i + 1];
  }

  lemma OthersKeep(h: Heap, h': Heap, head: Addr, ch: seq<Addr>, ch': seq<Addr>, touched: set<Addr>, pc: Pc)
    requires Frame(h, h', ch, ch', touched) && ChainOk(h, head, ch)
    requires ThreadOk(h, ch, pc) && Owned(pc) !! touched
    ensures ThreadOk(h', ch', pc)
  {
    forall a | Inside(ch, a) { NextOnChain(h, head, ch, a); }
  }

  /** The conditions under which one thread's step keeps the shared structure intact. */
  ghost predicate LocalStep(h: Heap, h': Heap, ch: seq<Addr>, ch': seq<Addr>, pc: Pc, pc': Pc, touched: set<Addr>) {
    && Frame(h, h', ch, ch', touched)
    && ThreadOk(h', ch', pc')
    && Owned(pc') <= Owned(pc) + touched
    && Held(pc) - touched <= Held(pc') && Private(pc) - touched <= Private(pc')
    && (forall a :: Inside(ch', a) && a !in touched ==> Inside(ch, a))
    && (forall a :: a in touched && a in h' && Inside(ch', a) && h'[a].locked ==> a in Held(pc'))
    && (forall a :: a in h' && a !in touched ==> a in h && (a in ch ==> a in ch'))
    && (forall a :: a in touched && a in h' ==> a in ch' || a in Private(pc'))
  }

  ghost predicate UntouchedByOthers(threads: map<int, Pc>, t: int, touched: set<Addr>) {
    forall u :: u in threads && u != t ==> Owned(threads[u]) !! touched
  }

  lemma LocalStepKeepsThreads(h: Heap, h': Heap, head: Addr, ch: seq<Addr>, ch': seq<Addr>, threads: map<int, Pc>,
                              t: int, pc': Pc, touched: set<Addr>)
    requires Structure(h, head, ch, threads) && t in threads
    requires LocalStep(h, h', ch, ch', threads[t], pc', touched) && UntouchedByOthers(threads, t, touched)
    ensures ThreadsOk(h', ch', threads[t := pc']) && Disjoint(threads[t := pc'])
  {
    forall u | u in threads && u != t
      ensures ThreadOk(h', ch', threads[u])
    {
      OthersKeep(h, h', head, ch, ch', touched, threads[u]);
    }
  }

  lemma LocalStepKeepsOwners(h: Heap, h': Heap, head: Addr, ch: seq<Addr>, ch': seq<Addr>, threads: map<int, Pc>,
                             t: int, pc': Pc, touched: set<Addr>)
    requires Structure(h, head, ch, threads) && t in threads
    requires LocalStep(h, h', ch, ch', threads[t], pc', touched)
    ensures LocksOwned(h', ch', threads[t := pc']) && NoLeak(h', ch', threads[t := pc'])
  {
    var threads' := threads[t := pc'];
    forall a | a in h' && Inside(ch', a) && h'[a].locked
      ensures HeldBySome(threads', a)
    {
      if a in touched {
        assert t in threads' && a in Held(threads'[t]);
      } else {
        assert HeldBySome(threads, a);
        var u :| u in threads && a in Held(threads[u]);
        assert u in threads' && a in Held(threads'[u]);
      }
    }
    forall a | a in h' && a !in ch'
      ensures PrivateToSome(threads', a)
    {
      if a in touched {
        assert t in threads' && a in Private(threads'[t]);
      } else {
        assert PrivateToSome(threads, a);
        var u :| u in threads && a in Private(threads[u]);
        assert u in threads' && a in Private(threads'[u]);
      }
    }
  }

  // ---------- Each kind of step ----------

  lemma OwnedCells(h: Heap, ch: seq<Addr>, pc: Pc)
    requires ThreadOk(h, ch, pc)
    ensures Owned(pc) <= h.Keys && Private(pc) !! (set a | a in ch)
    ensures forall a :: a in Held(pc) ==> a in h && h[a].locked
  {
  }

  lemma SameLinks(h: Heap, h': Heap, head: Addr, ch: seq<Addr>)
    requires ChainOk(h, head, ch)
    requires forall i :: 0 <= i < |ch| ==> ch[i] in h' && h'[ch[i]].next == h[ch[i]].next && h'[ch[i]].value == h[ch[i]].value
    ensures ChainOk(h', head, ch) && Elements(h', ch) == Elements(h, ch)
  {
  }

  /** A step that only moves the thread on. */
  lemma QuietStep(h: Heap, head: Addr, ch: seq<Addr>, threads: map<int, Pc>, t: int, pc': Pc)
    requires Structure(h, head, ch, threads) && t in threads
    requires ThreadOk(h, ch, pc')
    requires Held(pc') == Held(threads[t]) && Private(pc') == Private(threads[t])
    ensures Structure(h, head, ch, threads[t := pc'])
  {
    LocalStepKeepsThreads(h, h, head, ch, ch, threads, t, pc', {});
    LocalStepKeepsOwners(h, h, head, ch, ch, threads, t, pc', {});
  }

  lemma UnlockedUntouched(h: Heap, head: Addr, ch: seq<Addr>, threads: map<int, Pc>, t: int, a: Addr)
    requires Structure(h, head, ch, threads) && a in ch && a in h && !h[a].locked
    ensures UntouchedByOthers(threads, t, {a})
  {
    forall u | u in threads && u != t
      ensures a !in Owned(threads[u])
    {
      OwnedCells(h, ch, threads[u]);
    }
  }

  lemma OwnUntouched(threads: map<int, Pc>, t: int, touched: set<Addr>)
    requires Disjoint(threads) && t in threads && touched <= Owned(threads[t])
    ensures UntouchedByOthers(threads, t, touched)
  {
  }

  /** Taking or releasing the lock of a chain node. */
  lemma LockStep(h: Heap, head: Addr, ch: seq<Addr>, threads: map<int, Pc>, t: int, a: Addr, b: bool, pc': Pc)
    requires Structure(h, head, ch, threads) && t in threads && Inside(ch, a) && a in h
    requires UntouchedByOthers(threads, t, {a})
    requires ThreadOk(SetLock(h, a, b), ch, pc')
    requires Private(pc') == Private(threads[t])
    requires Held(pc') == if b then Held(threads[t]) + {a} else Held(threads[t]) - {a}
    ensures Structure(SetLock(h, a, b), head, ch, threads[t := pc'])
    ensures Elements(SetLock(h, a, b), ch) == Elements(h, ch)
  {
    var h' := SetLock(h, a, b);
    SameLinks(h, h', head, ch);
    LocalStepKeepsThreads(h, h', head, ch, ch, threads, t, pc', {a});
    LocalStepKeepsOwners(h, h', head, ch, ch, threads, t, pc', {a});
  }

  lemma HeadInside(h: Heap, head: Addr, ch: seq<Addr>)
    requires ChainOk(h, head, ch)
    ensures Inside(ch, head) && head in h && h[head].value == INT_MIN && h[head].next in h
  {
    assert ch[0] == head && h[ch[0]].next == ch[1];
  }

  /** The successor of an inside node is inside too, unless it is the last one. */
  lemma SuccInside(h: Heap, head: Addr, ch: seq<Addr>, a: Addr)
    requires ChainOk(h, head, ch) && Inside(ch, a)
    ensures a in h && h[a].next in h && h[a].next in ch && h[a].next != a
    ensures h[h[a].next].value < INT_MAX ==> Inside(ch, h[a].next) && h[h[a].next].next in h
    ensures h[a].value < h[h[a].next].value
  {
    var i :| 0 <= i < |ch| - 1 && ch[i] == a;
    assert h[a].next == ch[i + 1];
    if h[ch[i + 1]].value < INT_MAX {
      assert i + 1 < |ch| - 1;
      assert h[ch[i + 1]].next == ch[i + 2];
    }
  }

  // The chain grows after x, or loses the node after x.

  ghost predicate Inserted(ch: seq<Addr>, ch': seq<Addr>, i: int, y: Addr) {
    |ch'| == |ch| + 1 && 0 <= i < |ch| &&
    forall k {:trigger ch'[k]} :: 0 <= k < |ch'| ==> ch'[k] == if k <= i then ch[k] else if k == i + 1 then y else ch[k - 1]
  }

  ghost predicate Deleted(ch: seq<Addr>, ch': seq<Addr>, i: int) {
    |ch'| == |ch| - 1 && 0 <= i < |ch| - 1 &&
    forall k {:trigger ch'[k]} :: 0 <= k < |ch'| ==> ch'[k] == if k <= i then ch[k] else ch[k + 1]
  }

  lemma Insert(ch: seq<Addr>, i: int, y: Addr) returns (ch': seq<Addr>)
    requires 0 <= i < |ch|
    ensures Inserted(ch, ch', i, y)
  {
    ch' := ch[..i + 1] + [y] + ch[i + 1..];
  }

  lemma Delete(ch: seq<Addr>, i: int) returns (ch': seq<Addr>)
    requires 0 <= i < |ch| - 1
    ensures Deleted(ch, ch', i)
  {
    ch' := ch[..i + 1] + ch[i + 2..];
  }

  lemma ChainDistinct(h: Heap, head: Addr, ch: seq<Addr>)
    requires ChainOk(h, head, ch)
    ensures forall j, k :: 0 <= j < k < |ch| ==> ch[j] != ch[k]
  {
    forall j, k | 0 <= j < k < |ch|
      ensures ch[j] != ch[k]
    {
      assert h[ch[j]].value < h[ch[k]].value;
    }
  }

  lemma InsertChain(h: Heap, h': Heap, head: Addr, ch: seq<Addr>, ch': seq<Addr>, i: int, y: Addr)
    requires ChainOk(h, head, ch) && 0 <= i < |ch| - 1 && Inserted(ch, ch', i, y)
    requires y in h && y !in ch && h[y].next == ch[i + 1]
    requires h[ch[i]].value < h[y].value < h[ch[i + 1]].value
    requires h' == SetNext(h, ch[i], y)
    ensures ChainOk(h', head, ch')
  {
    ChainDistinct(h, head, ch);
    forall j, k | 0 <= j < k < |ch'|
      ensures h[ch'[j]].value < h[ch'[k]].value
    {
      var j', k' := if j <= i then j else j - 1, if k <= i then k else k - 1;
      assert j == i + 1 || h[ch'[j]].value == h[ch[j']].value;
    }
  }

  lemma InsertElements(h: Heap, h': Heap, ch: seq<Addr>, ch': seq<Addr>, i: int, y: Addr)
    requires forall k :: 0 <= k < |ch| ==> ch[k] in h
    requires 0 <= i < |ch| - 1 && Inserted(ch, ch', i, y) && y in h
    requires forall a :: a in h ==> a in h' && h'[a].value == h[a].value
    ensures forall k :: 0 <= k < |ch'| ==> ch'[k] in h'
    ensures Elements(h', ch') == Elements(h, ch) + {h[y].value}
  {
    assert ch'[i + 1] == y && h'[ch'[i + 1]].value in Elements(h', ch');
    forall v | v in Elements(h, ch)
      ensures v in Elements(h', ch')
    {
      var k :| 1 <= k < |ch| - 1 && v == h[ch[k]].value;
      var k' := if k <= i then k else k + 1;
      assert 1 <= k' < |ch'| - 1 && ch'[k'] == ch[k] && v == h'[ch'[k']].value;
    }
    forall v | v in Elements(h', ch')
      ensures v in Elements(h, ch) + {h[y].value}
    {
      var k :| 1 <= k < |ch'| - 1 && v == h'[ch'[k]].value;
      var k' := if k <= i then k else k - 1;
      assert k == i + 1 || (1 <= k' < |ch| - 1 && ch'[k] == ch[k'] && v == h[ch[k']].value);
    }
  }

  lemma DeleteChain(h: Heap, h': Heap, head: Addr, ch: seq<Addr>, ch': seq<Addr>, i: int)
    requires ChainOk(h, head, ch) && 0 <= i < |ch| - 2 && Deleted(ch, ch', i)
    requires h' == SetNext(h, ch[i], ch[i + 2])
    ensures ChainOk(h', head, ch')
  {
    ChainDistinct(h, head, ch);
  }

  lemma DeleteElements(h: Heap, h': Heap, head: Addr, ch: seq<Addr>, ch': seq<Addr>, i: int)
    requires ChainOk(h, head, ch) && 0 <= i < |ch| - 2 && Deleted(ch, ch', i)
    requires forall a :: a in h ==> a in h' && h'[a].value == h[a].value
    ensures forall k :: 0 <= k < |ch'| ==> ch'[k] in h'
    ensures Elements(h', ch') == Elements(h, ch) - {h[ch[i + 1]].value}
    ensures h[ch[i + 1]].value in Elements(h, ch)
  {
    var gone := h[ch[i + 1]].value;
    forall v | v in Elements(h, ch) && v != gone
      ensures v in Elements(h', ch')
    {
      var k :| 1 <= k < |ch| - 1 && v == h[ch[k]].value;
      var k' := if k <= i then k else k - 1;
      assert 1 <= k' < |ch'| - 1 && ch'[k'] == ch[k] && v == h'[ch'[k']].value;
    }
    forall v | v in Elements(h', ch')
      ensures v in Elements(h, ch) && v != gone
    {
      var k :| 1 <= k < |ch'| - 1 && v == h'[ch'[k]].value;
      var k' := if k <= i then k else k + 1;
      assert 1 <= k' < |ch| - 1 && ch'[k] == ch[k'] && v == h[ch[k']].value && k' != i + 1;
    }
  }

  lemma InsertedNodes(ch: seq<Addr>, ch': seq<Addr>, i: int, y: Addr)
    requires Inserted(ch, ch', i, y) && i < |ch| - 1
    ensures forall a :: Inside(ch', a) <==> Inside(ch, a) || a == y
    ensures forall a :: a in ch' <==> a in ch || a == y
  {
    forall a | Inside(ch, a)
      ensures Inside(ch', a)
    {
      var k :| 0 <= k < |ch| - 1 && ch[k] == a;
      var k' := if k <= i then k else k + 1;
      assert ch'[k'] == a;
    }
    forall a | a in ch
      ensures a in ch'
    {
      var k :| 0 <= k < |ch| && ch[k] == a;
      var k' := if k <= i then k else k + 1;
      assert ch'[k'] == a;
    }
    assert ch'[i + 1] == y;
  }

  lemma DeletedNodes(h: Heap, head: Addr, ch: seq<Addr>, ch': seq<Addr>, i: int)
    requires ChainOk(h, head, ch) && Deleted(ch, ch', i) && i < |ch| - 2
    ensures forall a :: Inside(ch', a) <==> Inside(ch, a) && a != ch[i + 1]
    ensures forall a :: a in ch' <==> a in ch && a != ch[i + 1]
  {
    ChainDistinct(h, head, ch);
    forall a | Inside(ch, a) && a != ch[i + 1]
      ensures Inside(ch', a)
    {
      var k :| 0 <= k < |ch| - 1 && ch[k] == a;
      var k' := if k <= i then k else k - 1;
      assert ch'[k'] == a;
    }
    forall a | a in ch && a != ch[i + 1]
      ensures a in ch'
    {
      var k :| 0 <= k < |ch| && ch[k] == a;
      var k' := if k <= i then k else k - 1;
      assert ch'[k'] == a;
    }
    forall a | Inside(ch', a)
      ensures Inside(ch, a) && a != ch[i + 1]
    {
      var k :| 0 <= k < |ch'| - 1 && ch'[k] == a;
      assert ch[if k <= i then k else k + 1] == a;
    }
  }

  lemma LinkIsLocal(h: Heap, h': Heap, ch: seq<Addr>, ch': seq<Addr>, c: Call, x: Addr, z: Addr, y: Addr)
    requires ThreadOk(h, ch, Link(c, x, z, y)) && h' == SetNext(h, x, y)
    requires forall a :: Inside(ch', a) <==> Inside(ch, a) || a == y
    requires forall a :: a in ch' <==> a in ch || a == y
    ensures LocalStep(h, h', ch, ch', Link(c, x, z, y), Unlock(c, x, true), {x, y})
  {
    assert forall a :: Inside(ch, a) ==> a in ch;
  }

  lemma LinkChain(h: Heap, head: Addr, ch: seq<Addr>, e: int, x: Addr, y: Addr) returns (ch': seq<Addr>)
    requires ChainOk(h, head, ch) && Inside(ch, x) && x in h && h[x].next in h
    requires y in h && y !in ch && h[y].next == h[x].next
    requires e == h[y].value && h[x].value < e < h[h[x].next].value
    ensures ChainOk(SetNext(h, x, y), head, ch')
    ensures e !in Elements(h, ch) && Elements(SetNext(h, x, y), ch') == Elements(h, ch) + {e}
    ensures forall a :: Inside(ch', a) <==> Inside(ch, a) || a == y
    ensures forall a :: a in ch' <==> a in ch || a == y
  {
    var i :| 0 <= i < |ch| - 1 && ch[i] == x;
    assert h[x].next == ch[i + 1];
    ch' := Insert(ch, i, y);
    InsertChain(h, SetNext(h, x, y), head, ch, ch', i, y);
    InsertElements(h, SetNext(h, x, y), ch, ch', i, y);
    InsertedNodes(ch, ch', i, y);
    NotAnElement(h, head, ch, i, e);
  }

  lemma LinkStep(h: Heap, head: Addr, ch: seq<Addr>, threads: map<int, Pc>, t: int, c: Call, x: Addr, z: Addr, y: Addr)
    returns (ch': seq<Addr>)
    requires Structure(h, head, ch, threads) && t in threads && threads[t] == Link(c, x, z, y)
    ensures x in h && Structure(SetNext(h, x, y), head, ch', threads[t := Unlock(c, x, true)])
    ensures c.e !in Elements(h, ch) && Elements(SetNext(h, x, y), ch') == Elements(h, ch) + {c.e}
  {
    assert ThreadOk(h, ch, threads[t]);
    ch' := LinkChain(h, head, ch, c.e, x, y);
    var h' := SetNext(h, x, y);
    OwnUntouched(threads, t, {x, y});
    LinkIsLocal(h, h', ch, ch', c, x, z, y);
    LocalStepKeepsThreads(h, h', head, ch, ch', threads, t, Unlock(c, x, true), {x, y});
    LocalStepKeepsOwners(h, h', head, ch, ch', threads, t, Unlock(c, x, true), {x, y});
  }

  /** Nothing lies strictly between two neighbours. */
  lemma NotAnElement(h: Heap, head: Addr, ch: seq<Addr>, i: int, e: int)
    requires ChainOk(h, head, ch) && 0 <= i < |ch| - 1
    requires h[ch[i]].value < e < h[ch[i + 1]].value
    ensures e !in Elements(h, ch)
  {
    forall k | 1 <= k < |ch| - 1
      ensures h[ch[k]].value != e
    {
      assert k < i ==> h[ch[k]].value < h[ch[i]].value;
      assert i + 1 < k ==> h[ch[i + 1]].value < h[ch[k]].value;
    }
  }

  lemma UnlinkIsLocal(h: Heap, h': Heap, ch: seq<Addr>, ch': seq<Addr>, c: Call, x: Addr, y: Addr, z: Addr)
    requires ThreadOk(h, ch, Unlink(c, x, y, z)) && h' == SetNext(h, x, z) && z in h && x != y
    requires forall a :: Inside(ch', a) <==> Inside(ch, a) && a != y
    requires forall a :: a in ch' <==> a in ch && a != y
    ensures LocalStep(h, h', ch, ch', Unlink(c, x, y, z), Free(c, x, y), {x, y})
  {
    assert forall a :: Inside(ch, a) ==> a in ch;
  }

  lemma UnlinkChain(h: Heap, head: Addr, ch: seq<Addr>, x: Addr, y: Addr, z: Addr) returns (ch': seq<Addr>)
    requires ChainOk(h, head, ch) && Inside(ch, x) && x in h && y == h[x].next && y in h && z == h[y].next
    requires h[y].value < INT_MAX
    ensures ChainOk(SetNext(h, x, z), head, ch') && z in h && x != y
    ensures h[y].value in Elements(h, ch) && Elements(SetNext(h, x, z), ch') == Elements(h, ch) - {h[y].value}
    ensures forall a :: Inside(ch', a) <==> Inside(ch, a) && a != y
    ensures forall a :: a in ch' <==> a in ch && a != y
  {
    var i :| 0 <= i < |ch| - 1 && ch[i] == x;
    assert y == ch[i + 1] && i + 1 < |ch| - 1;
    assert z == ch[i + 2];
    ch' := Delete(ch, i);
    DeleteChain(h, SetNext(h, x, z), head, ch, ch', i);
    DeleteElements(h, SetNext(h, x, z), head, ch, ch', i);
    DeletedNodes(h, head, ch, ch', i);
    ChainDistinct(h, head, ch);
  }

  lemma UnlinkStep(h: Heap, head: Addr, ch: seq<Addr>, threads: map<int, Pc>, t: int, c: Call, x: Addr, y: Addr, z: Addr)
    returns (ch': seq<Addr>)
    requires Structure(h, head, ch, threads) && t in threads && threads[t] == Unlink(c, x, y, z)
    ensures x in h && Structure(SetNext(h, x, z), head, ch', threads[t := Free(c, x, y)])
    ensures c.e in Elements(h, ch) && Elements(SetNext(h, x, z), ch') == Elements(h, ch) - {c.e}
  {
    assert ThreadOk(h, ch, threads[t]);
    ch' := UnlinkChain(h, head, ch, x, y, z);
    var h' := SetNext(h, x, z);
    OwnUntouched(threads, t, {x, y});
    UnlinkIsLocal(h, h', ch, ch', c, x, y, z);
    LocalStepKeepsThreads(h, h', head, ch, ch', threads, t, Free(c, x, y), {x, y});
    LocalStepKeepsOwners(h, h', head, ch, ch', threads, t, Free(c, x, y), {x, y});
  }

  lemma AllocateIsLocal(h: Heap, ch: seq<Addr>, c: Call, x: Addr, z: Addr, y: Addr)
    requires ThreadOk(h, ch, Allocate(c, x, z)) && y !in h && (forall a :: a in ch ==> a in h)
    ensures LocalStep(h, h[y := Cell(false, z, c.e)], ch, ch, Allocate(c, x, z), Link(c, x, z, y), {y})
  {
  }

  /** No thread owns an address that is not allocated. */
  lemma FreshUntouched(h: Heap, ch: seq<Addr>, threads: map<int, Pc>, t: int, y: Addr)
    requires ThreadsOk(h, ch, threads) && y !in h
    ensures UntouchedByOthers(threads, t, {y})
  {
    forall u | u in threads
      ensures y !in Owned(threads[u])
    {
      OwnedCells(h, ch, threads[u]);
    }
  }

  lemma AllocateStep(h: Heap, head: Addr, ch: seq<Addr>, threads: map<int, Pc>, t: int, c: Call, x: Addr, z: Addr, y: Addr)
    requires Structure(h, head, ch, threads) && t in threads && threads[t] == Allocate(c, x, z) && y !in h
    ensures Structure(h[y := Cell(false, z, c.e)], head, ch, threads[t := Link(c, x, z, y)])
    ensures Elements(h[y := Cell(false, z, c.e)], ch) == Elements(h, ch)
  {
    var h' := h[y := Cell(false, z, c.e)];
    SameLinks(h, h', head, ch);
    AllocateIsLocal(h, ch, c, x, z, y);
    FreshUntouched(h, ch, threads, t, y);
    LocalStepKeepsThreads(h, h', head, ch, ch, threads, t, Link(c, x, z, y), {y});
    LocalStepKeepsOwners(h, h', head, ch, ch, threads, t, Link(c, x, z, y), {y});
  }

  lemma FreeStep(h: Heap, head: Addr, ch: seq<Addr>, threads: map<int, Pc>, t: int, c: Call, x: Addr, y: Addr)
    requires Structure(h, head, ch, threads) && t in threads && threads[t] == Free(c, x, y)
    ensures Structure(h - {y}, head, ch, threads[t := Unlock(c, x, true)])
    ensures Elements(h - {y}, ch) == Elements(h, ch)
  {
    assert ThreadOk(h, ch, threads[t]);
    var h' := h - {y};
    SameLinks(h, h', head, ch);
    NextOnChain(h, head, ch, x);
    OwnUntouched(threads, t, {y});
    LocalStepKeepsThreads(h, h', head, ch, ch, threads, t, Unlock(c, x, true), {y});
    LocalStepKeepsOwners(h, h', head, ch, ch, threads, t, Unlock(c, x, true), {y});
  }

  // ---------- The log ----------

  lemma EmitStatus(log: seq<Event>, e: Event, t: int)
    ensures StatusOf(log + [e], t) == if e.t == t then NextStatus(StatusOf(log, t), e) else StatusOf(log, t)
  {
    assert (log + [e])[..|log|] == log;
  }

  lemma EmitEffect(log: seq<Event>, e: Event)
    requires Legal(log)
    requires e.Point? ==> e.result == Answer(SetAfter(log), e.c)
    ensures Legal(log + [e])
    ensures SetAfter(log + [e]) == if e.Point? then Effect(SetAfter(log), e.c) else SetAfter(log)
  {
    var log' := log + [e];
    assert log'[..|log|] == log;
    forall k | 0 <= k < |log'| && log'[k].Point?
      ensures log'[k].result == Answer(SetAfter(log'[..k]), log'[k].c)
    {
      if k < |log| {
        assert log'[..k] == log[..k];
      }
    }
  }

  /** A step of `t` that logs nothing, or one event that fits its move. */
  ghost predicate Logs(s: State, t: int, s': State, pc': Pc) {
    t in s.threads && s'.threads == s.threads[t := pc'] &&
    if s'.log == s.log then PcStatus(pc') == PcStatus(s.threads[t])
    else |s'.log| == |s.log| + 1 &&
         var e := s'.log[|s.log|];
         s'.log == s.log + [e] && e.t == t && PcStatus(pc') == NextStatus(PcStatus(s.threads[t]), e)
  }

  lemma ConsistentStep(s: State, t: int, s': State, pc': Pc)
    requires Consistent(s) && Logs(s, t, s', pc')
    ensures Consistent(s')
  {
    if s'.log != s.log {
      var e := s'.log[|s.log|];
      forall u | u in s'.threads
        ensures StatusOf(s'.log, u) == PcStatus(s'.threads[u])
      {
        EmitStatus(s.log, e, u);
      }
    }
  }

  // ---------- Steps of the system ----------

  /** `z->value == e` decides membership, because `x` is locked and `z` is next to it. */
  lemma TestDecides(h: Heap, head: Addr, ch: seq<Addr>, x: Addr, e: int)
    requires ChainOk(h, head, ch) && Located(h, ch, e, x) && e < INT_MAX
    ensures e in Elements(h, ch) <==> h[h[x].next].value == e
  {
    var i :| 0 <= i < |ch| - 1 && ch[i] == x;
    assert h[x].next == ch[i + 1];
    if h[ch[i + 1]].value == e {
      assert i + 1 < |ch| - 1;
    } else {
      NotAnElement(h, head, ch, i, e);
    }
  }

  /** What the log entry of a step, if any, says about the elements before and after. */
  ghost predicate EffectMatches(s: State, s': State, before: set<int>, after: set<int>) {
    if s'.log == s.log || (|s'.log| > |s.log| && !s'.log[|s.log|].Point?) then after == before
    else |s'.log| > |s.log| &&
         var e := s'.log[|s.log|];
         e.Point? && e.result == Answer(before, e.c) && after == Effect(before, e.c)
  }

  /** One step: the structure is kept, and the event it logs is legal. */
  ghost predicate GoodStep(s: State, t: int, s': State, ch: seq<Addr>, ch': seq<Addr>)
    requires Structure(s.heap, s.head, ch, s.threads)
  {
    && s'.head == s.head && Structure(s'.heap, s'.head, ch', s'.threads)
    && t in s'.threads && Logs(s, t, s', s'.threads[t])
    && EffectMatches(s, s', Elements(s.heap, ch), Elements(s'.heap, ch'))
  }

  lemma AcquireStep(s: State, t: int, s': State, ch: seq<Addr>)
    requires InvWith(s, ch) && StepBy(s, t, s')
    requires s.threads[t].LockHead? || s.threads[t].LockNext? || s.threads[t].LockVictim?
    ensures GoodStep(s, t, s', ch, ch)
  {
    var h, pc, pc' := s.heap, s.threads[t], s'.threads[t];
    assert ThreadOk(h, ch, pc);
    HeadInside(h, s.head, ch);
    var a := match pc case LockHead(_) => s.head case LockNext(_, _, n) => n case LockVictim(_, _, y) => y;
    if pc.LockNext? {
      SuccInside(h, s.head, ch, pc.p);
    } else if pc.LockVictim? {
      SuccInside(h, s.head, ch, pc.x);
    }
    UnlockedUntouched(h, s.head, ch, s.threads, t, a);
    LockStep(h, s.head, ch, s.threads, t, a, true, pc');
  }

  lemma ReleaseStep(s: State, t: int, s': State, ch: seq<Addr>)
    requires InvWith(s, ch) && StepBy(s, t, s')
    requires s.threads[t].UnlockPrev? || s.threads[t].Unlock?
    ensures GoodStep(s, t, s', ch, ch)
  {
    var h, pc, pc' := s.heap, s.threads[t], s'.threads[t];
    assert ThreadOk(h, ch, pc);
    var a := if pc.UnlockPrev? then pc.p else pc.x;
    OwnUntouched(s.threads, t, {a});
    SuccInside(h, s.head, ch, a);
    LockStep(h, s.head, ch, s.threads, t, a, false, pc');
  }

  lemma PlainStep(s: State, t: int, s': State, ch: seq<Addr>)
    requires InvWith(s, ch) && StepBy(s, t, s')
    requires s.threads[t].Idle? || s.threads[t].ReadNext? || s.threads[t].Compare? || s.threads[t].ReadFound?
             || s.threads[t].ReadVictim? || s.threads[t].Return?
    ensures GoodStep(s, t, s', ch, ch)
  {
    assert ThreadOk(s.heap, ch, s.threads[t]);
    QuietStep(s.heap, s.head, ch, s.threads, t, s'.threads[t]);
  }

  /** The thread that has tested the key goes on according to the answer. */
  lemma TestLogs(s: State, t: int, s': State, before: set<int>)
    requires StepBy(s, t, s') && s.threads[t].Test? && CallOk(s.threads[t].c)
    requires var pc := s.threads[t]; pc.z in s.heap && (pc.c.e in before <==> s.heap[pc.z].value == pc.c.e)
    ensures t in s'.threads && Logs(s, t, s', s'.threads[t]) && EffectMatches(s, s', before, before)
  {
  }

  lemma TestGoesOn(s: State, t: int, s': State, ch: seq<Addr>)
    requires StepBy(s, t, s') && s.threads[t].Test? && ThreadOk(s.heap, ch, s.threads[t])
    ensures s'.heap == s.heap && s'.head == s.head && t in s'.threads
    ensures s'.threads == s.threads[t := s'.threads[t]] && ThreadOk(s.heap, ch, s'.threads[t])
    ensures Held(s'.threads[t]) == Held(s.threads[t]) && Private(s'.threads[t]) == Private(s.threads[t])
  {
  }

  lemma TestStep(s: State, t: int, s': State, ch: seq<Addr>)
    requires InvWith(s, ch) && StepBy(s, t, s') && s.threads[t].Test?
    ensures GoodStep(s, t, s', ch, ch)
  {
    var pc := s.threads[t];
    assert ThreadOk(s.heap, ch, pc);
    TestDecides(s.heap, s.head, ch, pc.x, pc.c.e);
    TestLogs(s, t, s', Elements(s.heap, ch));
    TestGoesOn(s, t, s', ch);
    QuietStep(s.heap, s.head, ch, s.threads, t, s'.threads[t]);
  }

  lemma AllocatingStep(s: State, t: int, s': State, ch: seq<Addr>)
    requires InvWith(s, ch) && StepBy(s, t, s') && s.threads[t].Allocate?
    ensures GoodStep(s, t, s', ch, ch)
  {
    var h, pc := s.heap, s.threads[t];
    var y :| y !in h && s' == Go(s.(heap := h[y := Cell(false, pc.z, pc.c.e)]), t, Link(pc.c, pc.x, pc.z, y));
    AllocateStep(h, s.head, ch, s.threads, t, pc.c, pc.x, pc.z, y);
  }

  lemma FreeingStep(s: State, t: int, s': State, ch: seq<Addr>)
    requires InvWith(s, ch) && StepBy(s, t, s') && s.threads[t].Free?
    ensures GoodStep(s, t, s', ch, ch)
  {
    var pc := s.threads[t];
    FreeStep(s.heap, s.head, ch, s.threads, t, pc.c, pc.x, pc.y);
  }

  lemma LinkingStep(s: State, t: int, s': State, ch: seq<Addr>) returns (ch': seq<Addr>)
    requires InvWith(s, ch) && StepBy(s, t, s') && s.threads[t].Link?
    ensures GoodStep(s, t, s', ch, ch')
  {
    var pc := s.threads[t];
    assert ThreadOk(s.heap, ch, pc);
    ch' := LinkStep(s.heap, s.head, ch, s.threads, t, pc.c, pc.x, pc.z, pc.y);
  }

  lemma UnlinkingStep(s: State, t: int, s': State, ch: seq<Addr>) returns (ch': seq<Addr>)
    requires InvWith(s, ch) && StepBy(s, t, s') && s.threads[t].Unlink?
    ensures GoodStep(s, t, s', ch, ch')
  {
    var pc := s.threads[t];
    assert ThreadOk(s.heap, ch, pc);
    ch' := UnlinkStep(s.heap, s.head, ch, s.threads, t, pc.c, pc.x, pc.y, pc.z);
  }

  lemma AnyStep(s: State, t: int, s': State, ch: seq<Addr>) returns (ch': seq<Addr>)
    requires InvWith(s, ch) && StepBy(s, t, s')
    ensures GoodStep(s, t, s', ch, ch')
  {
    ch' := ch;
    match s.threads[t]
    case LockHead(_) => AcquireStep(s, t, s', ch);
    case LockNext(_, _, _) => AcquireStep(s, t, s', ch);
    case LockVictim(_, _, _) => AcquireStep(s, t, s', ch);
    case UnlockPrev(_, _, _) => ReleaseStep(s, t, s', ch);
    case Unlock(_, _, _) => ReleaseStep(s, t, s', ch);
    case Test(_, _, _) => TestStep(s, t, s', ch);
    case Allocate(_, _, _) => AllocatingStep(s, t, s', ch);
    case Link(_, _, _, _) => ch' := LinkingStep(s, t, s', ch);
    case Unlink(_, _, _, _) => ch' := UnlinkingStep(s, t, s', ch);
    case Free(_, _, _) => FreeingStep(s, t, s', ch);
    case _ => PlainStep(s, t, s', ch);
  }

  /** Every step of every thread keeps the invariant. */
  lemma StepKeepsInv(s: State, t: int, s': State)
    requires Inv(s) && StepBy(s, t, s')
    ensures Inv(s')
  {
    var ch :| InvWith(s, ch);
    var ch' := AnyStep(s, t, s', ch);
    ConsistentStep(s, t, s', s'.threads[t]);
    if s'.log != s.log {
      EmitEffect(s.log, s'.log[|s.log|]);
    }
    assert InvWith(s', ch');
  }

  // ---------- Every run ----------

  ghost predicate Next(s: State, s': State) {
    exists t :: StepBy(s, t, s')
  }

  ghost predicate NextAt(run: seq<State>, k: nat)
    requires k + 1 < |run|
  {
    Next(run[k], run[k + 1])
  }

  ghost predicate IsRun(run: seq<State>) {
    |run| > 0 && Init(run[0]) && forall k: nat :: k + 1 < |run| ==> NextAt(run, k)
  }

  lemma InitInv(s: State)
    requires Init(s)
    ensures Inv(s)
  {
    var last, junk, junk' :| last != s.head &&
      s.heap == map[s.head := Cell(false, last, INT_MIN), last := Cell(junk, junk', INT_MAX)];
    var ch := [s.head, last];
    assert forall a :: Inside(ch, a) ==> a == s.head;
    assert Elements(s.heap, ch) == {};
    assert InvWith(s, ch);
  }

  lemma {:induction false} RunInv(run: seq<State>, k: nat)
    requires IsRun(run) && k < |run|
    ensures Inv(run[k])
  {
    if k == 0 {
      InitInv(run[0]);
    } else {
      RunInv(run, k - 1);
      assert NextAt(run, k - 1);
      var t :| StepBy(run[k - 1], t, run[k]);
      StepKeepsInv(run[k - 1], t, run[k]);
    }
  }

  /** The calls that took effect, in the order of their effects, are a legal history of a set; each
      takes effect exactly once between its call and its return, with the answer it returns; and the
      strictly increasing chain from the head holds exactly the abstract set. */
  ghost predicate Linearized(s: State) {
    && Legal(s.log)
    && (forall t :: t in s.threads ==> !StatusOf(s.log, t).Broken?)
    && (exists ch :: ChainOk(s.heap, s.head, ch) && Elements(s.heap, ch) == SetAfter(s.log))
  }

  /** The set is linearizable and memory safe, and it loses no memory. */
  lemma LinearizableAndSafe(run: seq<State>, k: nat)
    requires IsRun(run) && k < |run|
    ensures Linearized(run[k])
    ensures forall t :: t in run[k].threads ==> Safe(run[k], t)
    ensures exists ch :: ChainOk(run[k].heap, run[k].head, ch) && NoLeak(run[k].heap, ch, run[k].threads)
  {
    var s := run[k];
    RunInv(run, k);
    var ch :| InvWith(s, ch);
    assert ChainOk(s.heap, s.head, ch) && Elements(s.heap, ch) == SetAfter(s.log);
    assert ChainOk(s.heap, s.head, ch) && NoLeak(s.heap, ch, s.threads);
    HeadInside(s.heap, s.head, ch);
    forall t | t in s.threads
      ensures Safe(s, t)
    {
      assert ThreadOk(s.heap, ch, s.threads[t]);
    }
  }

  // ---------- Deadlock freedom ----------

  ghost predicate Enabled(s: State, t: int) {
    exists s' :: StepBy(s, t, s')
  }

  lemma FreshAddr(h: Heap)
    ensures exists y :: y !in h
  {
    if h.Keys == {} {
      assert 0 !in h;
    } else {
      MaxExists(h.Keys);
      var m :| m in h.Keys && forall y :: y in h.Keys ==> y <= m;
      assert m + 1 !in h;
    }
  }

  /** A busy thread that waits for no locked node can move. */
  lemma NotWaitingMoves(s: State, ch: seq<Addr>, t: int)
    requires InvWith(s, ch) && t in s.threads && !s.threads[t].Idle?
    requires forall a :: a in WaitsFor(s, s.threads[t]) && a in s.heap ==> !s.heap[a].locked
    ensures Enabled(s, t)
  {
    var h, pc := s.heap, s.threads[t];
    assert ThreadOk(h, ch, pc);
    HeadInside(h, s.head, ch);
    assert Safe(s, t);
    match pc
    case LockHead(c) => assert StepBy(s, t, Go(s.(heap := SetLock(h, s.head, true)), t, ReadNext(c, s.head)));
    case ReadNext(c, p) => assert StepBy(s, t, Go(s, t, Compare(c, p, h[p].next)));
    case Compare(c, p, n) =>
      assert StepBy(s, t, Go(s, t, if h[n].value < c.e then LockNext(c, p, n) else ReadFound(c, p)));
    case LockNext(c, p, n) => assert StepBy(s, t, Go(s.(heap := SetLock(h, n, true)), t, UnlockPrev(c, p, n)));
    case UnlockPrev(c, p, n) => assert StepBy(s, t, Go(s.(heap := SetLock(h, p, false)), t, ReadNext(c, n)));
    case ReadFound(c, x) => assert StepBy(s, t, Go(s, t, Test(c, x, h[x].next)));
    case Test(c, x, z) => assert StepBy(s, t, AfterTest(s, t, c, x, z, h[z].value == c.e));
    case Allocate(c, x, z) =>
      FreshAddr(h);
      var y :| y !in h;
      assert StepBy(s, t, Go(s.(heap := h[y := Cell(false, z, c.e)]), t, Link(c, x, z, y)));
    case Link(c, x, z, y) =>
      assert StepBy(s, t, Emit(Go(s.(heap := SetNext(h, x, y)), t, Unlock(c, x, true)), Point(t, c, true)));
    case LockVictim(c, x, y) => assert StepBy(s, t, Go(s.(heap := SetLock(h, y, true)), t, ReadVictim(c, x, y)));
    case ReadVictim(c, x, y) => assert StepBy(s, t, Go(s, t, Unlink(c, x, y, h[y].next)));
    case Unlink(c, x, y, z) =>
      assert StepBy(s, t, Emit(Go(s.(heap := SetNext(h, x, z)), t, Free(c, x, y)), Point(t, c, true)));
    case Free(c, x, y) => assert StepBy(s, t, Go(s.(heap := h - {y}), t, Unlock(c, x, true)));
    case Unlock(c, x, r) => assert StepBy(s, t, Go(s.(heap := SetLock(h, x, false)), t, Return(c, r)));
    case Return(c, r) => assert StepBy(s, t, Emit(Go(s, t, Idle), Respond(t, c, r)));
  }

  /** A thread waits only for a node of the chain, larger than every node it holds. */
  lemma WaitsUpwards(s: State, ch: seq<Addr>, t: int, a: Addr)
    requires InvWith(s, ch) && t in s.threads && a in WaitsFor(s, s.threads[t])
    ensures a in s.heap && Inside(ch, a)
    ensures forall b :: b in Held(s.threads[t]) ==> b in s.heap && s.heap[b].value < s.heap[a].value
    ensures s.heap[a].value < INT_MAX
  {
    var pc := s.threads[t];
    assert ThreadOk(s.heap, ch, pc);
    HeadInside(s.heap, s.head, ch);
    if pc.LockNext? {
      SuccInside(s.heap, s.head, ch, pc.p);
    } else if pc.LockVictim? {
      SuccInside(s.heap, s.head, ch, pc.x);
    }
  }

  /** Following the holders of awaited locks upwards ends at a thread that can move. */
  lemma {:induction false} SomeHolderMoves(s: State, ch: seq<Addr>, t: int, a: Addr)
    requires InvWith(s, ch) && t in s.threads
    requires a in WaitsFor(s, s.threads[t]) && a in s.heap && s.heap[a].locked && s.heap[a].value < INT_MAX
    ensures exists u :: u in s.threads && !s.threads[u].Idle? && Enabled(s, u)
    decreases INT_MAX - s.heap[a].value
  {
    WaitsUpwards(s, ch, t, a);
    assert HeldBySome(s.threads, a);
    var u :| u in s.threads && a in Held(s.threads[u]);
    if b :| b in WaitsFor(s, s.threads[u]) && b in s.heap && s.heap[b].locked {
      WaitsUpwards(s, ch, u, b);
      SomeHolderMoves(s, ch, u, b);
    } else {
      NotWaitingMoves(s, ch, u);
    }
  }

  /** In every reachable state with an unfinished call, some unfinished call can take a step. */
  lemma DeadlockFree(run: seq<State>, k: nat, t: int)
    requires IsRun(run) && k < |run|
    requires t in run[k].threads && !run[k].threads[t].Idle?
    ensures exists u :: u in run[k].threads && !run[k].threads[u].Idle? && Enabled(run[k], u)
  {
    var s := run[k];
    RunInv(run, k);
    var ch :| InvWith(s, ch);
    if a :| a in WaitsFor(s, s.threads[t]) && a in s.heap && s.heap[a].locked {
      WaitsUpwards(s, ch, t, a);
      SomeHolderMoves(s, ch, t, a);
    } else {
      NotWaitingMoves(s, ch, t);
    }
  }

  // ---------- Every call ends ----------

  /** How far the key of node `p` is below the key of the call. */
  function Distance(h: Heap, c: Call, p: Addr): nat {
    if p in h && h[p].value < c.e then c.e - h[p].value else 0
  }

  /** A bound on the steps that a thread still takes until its call returns. */
  function Remaining(s: State, pc: Pc): nat {
    match pc
    case Idle => 0
    case LockHead(c) => if INT_MIN < c.e then 4 * (c.e - INT_MIN) + 7 else 0
    case ReadNext(c, p) => 4 * Distance(s.heap, c, p) + 6
    case Compare(c, p, _) => 4 * Distance(s.heap, c, p) + 5
    case LockNext(c, p, _) => 4 * Distance(s.heap, c, p) + 4
    case UnlockPrev(c, p, _) => 4 * Distance(s.heap, c, p) + 3
    case ReadFound(_, _) => 8
    case Test(_, _, _) => 7
    case LockVictim(_, _, _) => 6
    case ReadVictim(_, _, _) => 5
    case Unlink(_, _, _, _) => 4
    case Allocate(_, _, _) => 4
    case Link(_, _, _, _) => 3
    case Free(_, _, _) => 3
    case Unlock(_, _, _) => 2
    case Return(_, _) => 1
  }

  function RemainingOf(s: State, t: int): nat {
    if t in s.threads then Remaining(s, s.threads[t]) else 0
  }

  predicate Walking(pc: Pc) {
    pc.LockHead? || pc.ReadNext? || pc.Compare? || pc.LockNext? || pc.UnlockPrev?
  }

  lemma LockHeadAdvances(s: State, t: int, s': State, ch: seq<Addr>)
    requires ChainOk(s.heap, s.head, ch) && StepBy(s, t, s') && s.threads[t].LockHead? && CallOk(s.threads[t].c)
    ensures t in s'.threads && Remaining(s', s'.threads[t]) < Remaining(s, s.threads[t])
  {
    assert s.heap[s.head].value == INT_MIN;
  }

  lemma ReadNextAdvances(s: State, t: int, s': State)
    requires StepBy(s, t, s') && s.threads[t].ReadNext?
    ensures t in s'.threads && Remaining(s', s'.threads[t]) < Remaining(s, s.threads[t])
  {
  }

  lemma CompareAdvances(s: State, t: int, s': State)
    requires StepBy(s, t, s') && s.threads[t].Compare?
    requires var pc := s.threads[t]; pc.p in s.heap && s.heap[pc.p].value < pc.c.e
    ensures t in s'.threads && Remaining(s', s'.threads[t]) < Remaining(s, s.threads[t])
  {
  }

  lemma LockNextAdvances(s: State, t: int, s': State)
    requires StepBy(s, t, s') && s.threads[t].LockNext? && s.threads[t].p in s.heap
    ensures t in s'.threads && Remaining(s', s'.threads[t]) < Remaining(s, s.threads[t])
  {
    var pc := s.threads[t];
    assert s'.heap[pc.p].value == s.heap[pc.p].value;
  }

  /** In `locate`, every fourth step goes on to a larger key. */
  lemma UnlockPrevAdvances(s: State, t: int, s': State)
    requires StepBy(s, t, s') && s.threads[t].UnlockPrev?
    requires var pc := s.threads[t];
      && pc.p in s.heap && pc.n in s.heap && pc.n != pc.p
      && s.heap[pc.p].value < s.heap[pc.n].value < pc.c.e
    ensures t in s'.threads && Remaining(s', s'.threads[t]) < Remaining(s, s.threads[t])
  {
    var pc := s.threads[t];
    assert s'.heap[pc.n].value == s.heap[pc.n].value;
  }

  lemma WalkAdvances(s: State, t: int, s': State, ch: seq<Addr>)
    requires ChainOk(s.heap, s.head, ch) && StepBy(s, t, s') && ThreadOk(s.heap, ch, s.threads[t])
    requires Walking(s.threads[t]) && !s.threads[t].LockHead?
    ensures t in s'.threads && Remaining(s', s'.threads[t]) < Remaining(s, s.threads[t])
  {
    match s.threads[t]
    case ReadNext(_, _) => ReadNextAdvances(s, t, s');
    case Compare(_, _, _) => CompareAdvances(s, t, s');
    case LockNext(_, _, _) => LockNextAdvances(s, t, s');
    case UnlockPrev(_, p, _) =>
      SuccInside(s.heap, s.head, ch, p);
      UnlockPrevAdvances(s, t, s');
  }

  lemma FinishAdvances(s: State, t: int, s': State)
    requires StepBy(s, t, s') && !Walking(s.threads[t]) && !s.threads[t].Idle?
    ensures t in s'.threads && Remaining(s', s'.threads[t]) < Remaining(s, s.threads[t])
  {
  }

  /** A step of a busy thread brings it closer to its return. */
  lemma OwnStepAdvances(s: State, t: int, s': State, ch: seq<Addr>)
    requires InvWith(s, ch) && StepBy(s, t, s') && !s.threads[t].Idle?
    ensures t in s'.threads && Remaining(s', s'.threads[t]) < Remaining(s, s.threads[t])
  {
    assert ThreadOk(s.heap, ch, s.threads[t]);
    if s.threads[t].LockHead? {
      LockHeadAdvances(s, t, s', ch);
    } else if Walking(s.threads[t]) {
      WalkAdvances(s, t, s', ch);
    } else {
      FinishAdvances(s, t, s');
    }
  }

  /** Nodes keep their keys, and other threads do not move this one. */
  lemma OtherStepKeeps(s: State, u: int, s': State, t: int)
    requires StepBy(s, u, s') && t in s.threads && u != t
    ensures t in s'.threads && s'.threads[t] == s.threads[t]
    ensures forall a :: a in s.heap && a in s'.heap ==> s'.heap[a].value == s.heap[a].value
  {
  }

  lemma OtherStepLeaves(s: State, u: int, s': State, t: int)
    requires Inv(s) && StepBy(s, u, s') && t in s.threads && u != t
    ensures t in s'.threads && Remaining(s', s'.threads[t]) == Remaining(s, s.threads[t])
  {
    StepKeepsInv(s, u, s');
    OtherStepKeeps(s, u, s', t);
    var ch, ch' :| InvWith(s, ch) && InvWith(s', ch');
    assert ThreadOk(s.heap, ch, s.threads[t]) && ThreadOk(s'.heap, ch', s'.threads[t]);
  }

  /** The thread `sched[k]` takes the step from `run[k]` to `run[k + 1]`. */
  ghost predicate ScheduledBy(run: seq<State>, sched: seq<int>) {
    |run| == |sched| + 1 && forall k :: 0 <= k < |sched| ==> StepBy(run[k], sched[k], run[k + 1])
  }

  lemma {:induction false} RunsAreScheduled(run: seq<State>, n: nat) returns (sched: seq<int>)
    requires IsRun(run) && n < |run|
    ensures ScheduledBy(run[..n + 1], sched)
  {
    if n == 0 {
      sched := [];
    } else {
      var earlier := RunsAreScheduled(run, n - 1);
      assert NextAt(run, n - 1);
      var t :| StepBy(run[n - 1], t, run[n]);
      sched := earlier + [t];
      forall k | 0 <= k < n
        ensures StepBy(run[..n + 1][k], sched[k], run[..n + 1][k + 1])
      {
        if k < n - 1 {
          assert run[..n][k] == run[k] && run[..n][k + 1] == run[k + 1] && sched[k] == earlier[k];
        }
      }
    }
  }

  /** How many of the steps from `i` to `j` the thread takes. */
  function OwnSteps(sched: seq<int>, t: int, i: nat, j: nat): nat
    requires i <= j <= |sched|
    decreases j - i
  {
    if i == j then 0 else (if sched[i] == t then 1 else 0) + OwnSteps(sched, t, i + 1, j)
  }

  /** The thread is in the same call from `i` to `j`. */
  ghost predicate InCall(run: seq<State>, t: int, i: nat, j: nat) {
    i <= j < |run| && forall k :: i <= k <= j ==> t in run[k].threads && !run[k].threads[t].Idle?
  }

  /** A number that falls at every step of the thread, and never rises, bounds the steps. */
  lemma {:induction false} Countdown(sched: seq<int>, t: int, left: seq<nat>, i: nat, j: nat)
    requires |left| == |sched| + 1 && i <= j <= |sched|
    requires forall k :: i <= k < j ==> left[k + 1] + (if sched[k] == t then 1 else 0) <= left[k]
    ensures OwnSteps(sched, t, i, j) + left[j] <= left[i]
    decreases j - i
  {
    if i < j {
      Countdown(sched, t, left, i + 1, j);
    }
  }

  lemma StepCounts(s: State, u: int, s': State, t: int)
    requires Inv(s) && StepBy(s, u, s') && t in s.threads && !s.threads[t].Idle?
    ensures t in s'.threads
    ensures Remaining(s', s'.threads[t]) + (if u == t then 1 else 0) <= Remaining(s, s.threads[t])
  {
    if u == t {
      var ch :| InvWith(s, ch);
      OwnStepAdvances(s, t, s', ch);
    } else {
      OtherStepLeaves(s, u, s', t);
    }
  }

  lemma StepCountsAt(run: seq<State>, sched: seq<int>, t: int, k: nat)
    requires IsRun(run) && ScheduledBy(run, sched) && k < |sched| && InCall(run, t, k, k + 1)
    ensures RemainingOf(run[k + 1], t) + (if sched[k] == t then 1 else 0) <= RemainingOf(run[k], t)
  {
    RunInv(run, k);
    assert StepBy(run[k], sched[k], run[k + 1]);
    StepCounts(run[k], sched[k], run[k + 1], t);
  }

  lemma StepsAreBounded(run: seq<State>, sched: seq<int>, t: int, i: nat, j: nat)
    requires IsRun(run) && ScheduledBy(run, sched) && InCall(run, t, i, j)
    ensures OwnSteps(sched, t, i, j) + RemainingOf(run[j], t) <= RemainingOf(run[i], t)
  {
    var left := seq(|run|, k requires 0 <= k < |run| => RemainingOf(run[k], t));
    forall k | i <= k < j
      ensures left[k + 1] + (if sched[k] == t then 1 else 0) <= left[k]
    {
      StepCountsAt(run, sched, t, k);
    }
    Countdown(sched, t, left, i, j);
  }

  /** Whatever the other threads do, a call takes fewer steps of its own than the key gives. With `DeadlockFree`, it
      follows that calls do return as long as no new ones are made. */
  lemma CallsAreBounded(run: seq<State>, sched: seq<int>, t: int, i: nat, j: nat, c: Call)
    requires IsRun(run) && ScheduledBy(run, sched) && InCall(run, t, i, j)
    requires run[i].threads[t] == LockHead(c)
    ensures OwnSteps(sched, t, i, j) < 4 * (c.e - INT_MIN) + 7
  {
    RunInv(run, i);
    StepsAreBounded(run, sched, t, i, j);
    RunInv(run, j);
    BusyRemains(run[i], t);
    BusyRemains(run[j], t);
  }

  lemma BusyRemains(s: State, t: int)
    requires Inv(s) && t in s.threads && !s.threads[t].Idle?
    ensures Remaining(s, s.threads[t]) > 0
    ensures s.threads[t].LockHead? ==> Remaining(s, s.threads[t]) == 4 * (s.threads[t].c.e - INT_MIN) + 7
  {
    var ch :| InvWith(s, ch);
    assert ThreadOk(s.heap, ch, s.threads[t]);
  }

  // ---------- All calls return ----------

  ghost function Total(s: State, ts: set<int>): nat
    decreases |ts|
  {
    if ts == {} then 0
    else
      var t := Pick(ts);
      RemainingOf(s, t) + Total(s, ts - {t})
  }

  lemma {:induction false} TotalSplits(s: State, ts: set<int>, t: int)
    requires t in ts
    ensures Total(s, ts) == RemainingOf(s, t) + Total(s, ts - {t})
    decreases |ts|
  {
    var u := Pick(ts);
    if u != t {
      TotalSplits(s, ts - {u}, t);
      TotalSplits(s, ts - {t}, u);
      assert ts - {u} - {t} == ts - {t} - {u};
    }
  }

  lemma {:induction false} TotalSame(s: State, s': State, ts: set<int>)
    requires forall t :: t in ts ==> RemainingOf(s', t) == RemainingOf(s, t)
    ensures Total(s', ts) == Total(s, ts)
    decreases |ts|
  {
    if ts != {} {
      TotalSame(s, s', ts - {Pick(ts)});
    }
  }

  lemma StepKeepsThreads(s: State, t: int, s': State)
    requires StepBy(s, t, s')
    ensures s'.threads.Keys == s.threads.Keys
  {
    assert s'.threads == s.threads[t := s'.threads[t]];
  }

  lemma {:induction false} ThreadsStay(run: seq<State>, k: nat)
    requires IsRun(run) && k < |run|
    ensures run[k].threads.Keys == run[0].threads.Keys
  {
    if k > 0 {
      ThreadsStay(run, k - 1);
      assert NextAt(run, k - 1);
      var t :| StepBy(run[k - 1], t, run[k]);
      StepKeepsThreads(run[k - 1], t, run[k]);
    }
  }

  lemma StepLowersTotal(s: State, t: int, s': State)
    requires Inv(s) && StepBy(s, t, s') && !s.threads[t].Idle?
    ensures Total(s', s.threads.Keys) < Total(s, s.threads.Keys)
  {
    var ts := s.threads.Keys;
    var ch :| InvWith(s, ch);
    OwnStepAdvances(s, t, s', ch);
    forall u | u in ts - {t}
      ensures RemainingOf(s', u) == RemainingOf(s, u)
    {
      OtherStepLeaves(s, t, s', u);
    }
    TotalSame(s, s', ts - {t});
    TotalSplits(s, ts, t);
    TotalSplits(s', ts, t);
  }

  lemma {:induction false} Falls(left: seq<nat>, i: nat, j: nat)
    requires i <= j < |left| && forall k :: i <= k < j ==> left[k + 1] < left[k]
    ensures j - i + left[j] <= left[i]
    decreases j - i
  {
    if i < j {
      Falls(left, i + 1, j);
    }
  }

  /** No new call is made from `i` to `j`. */
  ghost predicate NoNewCalls(run: seq<State>, sched: seq<int>, i: nat, j: nat)
    requires ScheduledBy(run, sched) && i <= j < |run|
  {
    forall k :: i <= k < j ==> sched[k] in run[k].threads && !run[k].threads[sched[k]].Idle?
  }

  lemma TotalFallsAt(run: seq<State>, sched: seq<int>, k: nat)
    requires IsRun(run) && ScheduledBy(run, sched) && k < |sched|
    requires sched[k] in run[k].threads && !run[k].threads[sched[k]].Idle?
    ensures Total(run[k + 1], run[0].threads.Keys) < Total(run[k], run[0].threads.Keys)
  {
    RunInv(run, k);
    ThreadsStay(run, k);
    assert StepBy(run[k], sched[k], run[k + 1]);
    StepLowersTotal(run[k], sched[k], run[k + 1]);
  }

  /** Without new calls there is a bound on all steps together. Since some unfinished call can always take one
      (`DeadlockFree`), all of them return. */
  lemma CallsRunOut(run: seq<State>, sched: seq<int>, i: nat, j: nat)
    requires IsRun(run) && ScheduledBy(run, sched) && i <= j < |run| && NoNewCalls(run, sched, i, j)
    ensures j - i + Total(run[j], run[0].threads.Keys) <= Total(run[i], run[0].threads.Keys)
  {
    var left := seq(|run|, k requires 0 <= k < |run| => Total(run[k], run[0].threads.Keys));
    forall k | i <= k < j
      ensures left[k + 1] < left[k]
    {
      TotalFallsAt(run, sched, k);
    }
    Falls(left, i, j);
  }
}
