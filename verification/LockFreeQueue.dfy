/**
  The multi-producer multi-consumer queue of lock_free_queue.h as a transition system.

  Every shared read and every compare-and-swap is one atomic step of one thread.  A schedule is any
  sequence of (thread, action) pairs over any number of threads, and `Apply` is total: an action that
  its thread cannot take leaves the state alone.  A theorem about `After(s, schedule)` for all
  schedules is therefore a theorem about every interleaving.
 */
module LockFreeQueue {
  import opened Wrappers

  type Tid = nat

  /** Nodes are numbered in allocation order; a number is never reused (threads hold a shared_ptr). */
  type NodeId = nat

  datatype Node<+T> = Node(data: T, next: Option<NodeId>)

  /** Program counter of one thread, carrying the local snapshots it has taken so far. */
  datatype Pc<+T> =
    | Idle
    | EnqReadTail(node: NodeId)                                                     // line 38
    | EnqReadNext(node: NodeId, oldTail: NodeId)                                    // line 39
    | EnqCheck(node: NodeId, oldTail: NodeId, tailNext: Option<NodeId>)             // lines 40-41
    | EnqLink(node: NodeId, oldTail: NodeId)                                        // line 42
    | EnqHelp(node: NodeId, oldTail: NodeId, next: NodeId)                          // line 46
    | EnqSwing(node: NodeId, oldTail: NodeId)                                       // line 50
    | DeqReadHead                                                                   // line 57
    | DeqReadTail(oldHead: NodeId)                                                  // line 58
    | DeqReadNext(oldHead: NodeId, tailSeen: NodeId)                                // line 59
    | DeqCheck(oldHead: NodeId, tailSeen: NodeId, headNext: Option<NodeId>)         // lines 61-64
    | DeqHelp(oldHead: NodeId, first: NodeId)                                       // line 66
    | DeqReadData(oldHead: NodeId, headNext: Option<NodeId>)                        // line 68
    | DeqCas(oldHead: NodeId, first: NodeId, result: T)                             // line 69
    | Fault                                                                         // a bad dereference

  /**
    The shared memory, and two history variables: `chain` lists the nodes in the order in which they
    were linked (the dummy first), and `pos` is its inverse.  No step reads them.
   */
  datatype Heap<T> = Heap(
    nodes: seq<Node<T>>,
    head: NodeId,
    tail: NodeId,
    chain: seq<NodeId>,
    pos: map<NodeId, nat>)

  /** What one enqueue call has seen: links plus tail position at its start and at its last tail read. */
  datatype Meter = Meter(start: int, read: int, retries: nat)

  /**
    `helps` says whether the compare-and-swap of line 66 reaches the shared tail; it is fixed for a run.
    `links`, `takes` and `meters` are history variables: successful links and successful dequeues with
    their thread and value, and the retry meter of each thread's current enqueue.
   */
  datatype State<T> = State(
    helps: bool,
    heap: Heap<T>,
    pcs: map<Tid, Pc<T>>,
    links: seq<(Tid, T)>,
    takes: seq<(Tid, T)>,
    meters: map<Tid, Meter>)

  /** `Step(false)` makes a weak compare-and-swap fail spuriously; other steps ignore the flag. */
  datatype Action<T> = CallEnqueue(value: T) | CallDequeue | Step(strong: bool)

  datatype Label<T> = Label(tid: Tid, action: Action<T>)

  // ---------------------------------------------------------------- shared memory operations

  function Init<T>(helps: bool, blank: T): State<T> {
    State(helps, Heap([Node(blank, None)], 0, 0, [0], map[0 := 0]), map[], [], [], map[])
  }

  function Allocate<T>(h: Heap<T>, value: T): Heap<T> {
    h.(nodes := h.nodes + [Node(value, None)])
  }

  function LinkAfter<T>(h: Heap<T>, at: NodeId, node: NodeId): Heap<T>
    requires at < |h.nodes|
  {
    h.(nodes := h.nodes[at := h.nodes[at].(next := Some(node))],
       chain := h.chain + [node],
       pos := h.pos[node := |h.chain|])
  }

  // ---------------------------------------------------------------- steps

  function PcOf<T>(s: State<T>, t: Tid): Pc<T> {
    if t in s.pcs then s.pcs[t] else Idle
  }

  function MeterOf<T>(s: State<T>, t: Tid): Meter {
    if t in s.meters then s.meters[t] else Meter(0, 0, 0)
  }

  function Goto<T>(s: State<T>, t: Tid, pc: Pc<T>): State<T> {
    s.(pcs := s.pcs[t := pc])
  }

  /** Links made so far plus the position of the tail: it grows with every link and every tail advance. */
  function Version<T>(h: Heap<T>): int {
    |h.chain| + if h.tail in h.pos then h.pos[h.tail] else 0
  }

  /** Back to the top of the enqueue loop; `counted` marks a retry that no spurious failure caused. */
  function Retry<T>(s: State<T>, t: Tid, node: NodeId, counted: bool): State<T> {
    var m := MeterOf(s, t);
    Goto(s.(meters := s.meters[t := m.(retries := m.retries + if counted then 1 else 0)]), t, EnqReadTail(node))
  }

  function ApplyEnqueue<T>(s: State<T>, t: Tid, pc: Pc<T>, strong: bool): State<T> {
    var h := s.heap;
    match pc
    case EnqReadTail(node) =>
      Goto(s.(meters := s.meters[t := MeterOf(s, t).(read := Version(h))]), t, EnqReadNext(node, h.tail))
    case EnqReadNext(node, oldTail) =>
      if oldTail < |h.nodes| then Goto(s, t, EnqCheck(node, oldTail, h.nodes[oldTail].next)) else Goto(s, t, Fault)
    case EnqCheck(node, oldTail, tailNext) =>
      if oldTail != h.tail then Retry(s, t, node, true)
      else if tailNext.None? then Goto(s, t, EnqLink(node, oldTail))
      else Goto(s, t, EnqHelp(node, oldTail, tailNext.value))
    case EnqLink(node, oldTail) =>
      if oldTail >= |h.nodes| || node >= |h.nodes| then Goto(s, t, Fault)
      else if h.nodes[oldTail].next != None then Retry(s, t, node, true)
      else if !strong then Retry(s, t, node, false)
      else Goto(s.(heap := LinkAfter(h, oldTail, node), links := s.links + [(t, h.nodes[node].data)]), t, EnqSwing(node, oldTail))
    case EnqHelp(node, oldTail, next) =>
      if h.tail != oldTail then Retry(s, t, node, true)
      else if !strong then Retry(s, t, node, false)
      else Retry(s.(heap := h.(tail := next)), t, node, true)
    case EnqSwing(node, oldTail) =>
      Goto(if strong && h.tail == oldTail then s.(heap := h.(tail := node)) else s, t, Idle)
    case _ => s
  }

  function ApplyDequeue<T>(s: State<T>, t: Tid, pc: Pc<T>, strong: bool): State<T> {
    var h := s.heap;
    match pc
    case DeqReadHead => Goto(s, t, DeqReadTail(h.head))
    case DeqReadTail(oldHead) => Goto(s, t, DeqReadNext(oldHead, h.tail))
    case DeqReadNext(oldHead, tailSeen) =>
      if oldHead < |h.nodes| then Goto(s, t, DeqCheck(oldHead, tailSeen, h.nodes[oldHead].next)) else Goto(s, t, Fault)
    case DeqCheck(oldHead, tailSeen, headNext) =>
      if oldHead != h.head then Goto(s, t, DeqReadHead)
      else if oldHead != tailSeen then Goto(s, t, DeqReadData(oldHead, headNext))
      else if headNext.None? then Goto(s, t, Idle)   // return false
      else Goto(s, t, DeqHelp(oldHead, headNext.value))
    case DeqHelp(oldHead, first) =>
      Goto(if s.helps && strong && h.tail == oldHead then s.(heap := h.(tail := first)) else s, t, DeqReadHead)
    case DeqReadData(oldHead, headNext) =>
      if headNext.Some? && headNext.value < |h.nodes|
      then Goto(s, t, DeqCas(oldHead, headNext.value, h.nodes[headNext.value].data))
      else Goto(s, t, Fault)
    case DeqCas(oldHead, first, result) =>
      if strong && h.head == oldHead
      then Goto(s.(heap := h.(head := first), takes := s.takes + [(t, result)]), t, Idle)   // return true
      else Goto(s, t, DeqReadHead)
    case _ => s
  }

  function Apply<T>(s: State<T>, l: Label<T>): State<T> {
    var t := l.tid;
    var pc := PcOf(s, t);
    match l.action
    case CallEnqueue(value) =>
      if pc.Idle?
      then Goto(s.(heap := Allocate(s.heap, value), meters := s.meters[t := Meter(Version(s.heap), Version(s.heap), 0)]),
                t, EnqReadTail(|s.heap.nodes|))
      else s
    case CallDequeue => if pc.Idle? then Goto(s, t, DeqReadHead) else s
    case Step(strong) => if IsEnqueue(pc) then ApplyEnqueue(s, t, pc, strong) else ApplyDequeue(s, t, pc, strong)
  }

  predicate IsEnqueue<T>(pc: Pc<T>) {
    pc.EnqReadTail? || pc.EnqReadNext? || pc.EnqCheck? || pc.EnqLink? || pc.EnqHelp? || pc.EnqSwing?
  }

  function After<T>(s: State<T>, schedule: seq<Label<T>>): State<T> {
    if schedule == [] then s
    else Apply(After(s, schedule[..|schedule| - 1]), schedule[|schedule| - 1])
  }

  // ---------------------------------------------------------------- the invariant

  /** The linked nodes are one acyclic null-terminated chain, head at or before tail, tail last or next to last. */
  ghost predicate HeapInv<T>(h: Heap<T>) {
    && |h.chain| >= 1
    && (forall i :: 0 <= i < |h.chain| ==> h.chain[i] < |h.nodes| && h.chain[i] in h.pos && h.pos[h.chain[i]] == i)
    && (forall n :: n in h.pos ==> h.pos[n] < |h.chain| && h.chain[h.pos[n]] == n)
    && (forall n {:trigger h.nodes[n]} :: n in h.pos ==>
          n < |h.nodes| && h.nodes[n].next == if h.pos[n] + 1 < |h.chain| then Some(h.chain[h.pos[n] + 1]) else None)
    && (forall n {:trigger h.nodes[n]} :: 0 <= n < |h.nodes| && n !in h.pos ==> h.nodes[n].next == None)
    && h.head in h.pos && h.tail in h.pos
    && h.pos[h.head] <= h.pos[h.tail]
    && |h.chain| - 2 <= h.pos[h.tail]
  }

  /** `a` is the linked node right before `b`. */
  ghost predicate Precedes<T>(h: Heap<T>, a: NodeId, b: NodeId) {
    a in h.pos && b in h.pos && h.pos[b] == h.pos[a] + 1
  }

  /** `n` is linked, at or before the tail. */
  ghost predicate BehindTail<T>(h: Heap<T>, n: NodeId) {
    n in h.pos && h.tail in h.pos && h.pos[n] <= h.pos[h.tail]
  }

  ghost predicate BehindHead<T>(h: Heap<T>, n: NodeId) {
    n in h.pos && h.head in h.pos && h.pos[n] <= h.pos[h.head]
  }

  /** The node a thread has allocated and not linked yet. */
  function Pending<T>(pc: Pc<T>): Option<NodeId> {
    if pc.EnqReadTail? || pc.EnqReadNext? || pc.EnqCheck? || pc.EnqLink? || pc.EnqHelp? then Some(pc.node) else None
  }

  /** What a thread knows from its snapshots; every conjunct survives the steps of the other threads. */
  ghost predicate PcInv<T>(h: Heap<T>, pc: Pc<T>) {
    match pc
    case Idle => true
    case EnqReadTail(_) => true
    case EnqReadNext(_, oldTail) => BehindTail(h, oldTail)
    case EnqCheck(_, oldTail, tailNext) => BehindTail(h, oldTail) && (tailNext.Some? ==> Precedes(h, oldTail, tailNext.value))
    case EnqLink(_, oldTail) => BehindTail(h, oldTail)
    case EnqHelp(_, oldTail, next) => BehindTail(h, oldTail) && Precedes(h, oldTail, next)
    case EnqSwing(node, oldTail) => Precedes(h, oldTail, node)
    case DeqReadHead => true
    case DeqReadTail(oldHead) => BehindHead(h, oldHead)
    case DeqReadNext(oldHead, tailSeen) => BehindHead(h, oldHead) && BehindTail(h, tailSeen) && h.pos[oldHead] <= h.pos[tailSeen]
    case DeqCheck(oldHead, tailSeen, headNext) =>
      && BehindHead(h, oldHead) && BehindTail(h, tailSeen) && h.pos[oldHead] <= h.pos[tailSeen]
      && (if headNext.Some? then Precedes(h, oldHead, headNext.value) else oldHead == tailSeen)
    case DeqHelp(oldHead, first) => BehindHead(h, oldHead) && Precedes(h, oldHead, first)
    case DeqReadData(oldHead, headNext) =>
      BehindHead(h, oldHead) && headNext.Some? && Precedes(h, oldHead, headNext.value) && BehindTail(h, headNext.value)
    case DeqCas(oldHead, first, result) =>
      BehindHead(h, oldHead) && Precedes(h, oldHead, first) && BehindTail(h, first) && first < |h.nodes| && h.nodes[first].data == result
    case Fault => false
  }

  /** No two threads hold the same unlinked node, and an unlinked node really is unlinked. */
  ghost predicate PendingInv<T>(s: State<T>) {
    && (forall t :: t in s.pcs && Pending(s.pcs[t]).Some? ==>
          Pending(s.pcs[t]).value < |s.heap.nodes| && Pending(s.pcs[t]).value !in s.heap.pos)
    && (forall t, u :: t in s.pcs && u in s.pcs && t != u && Pending(s.pcs[t]).Some? ==> Pending(s.pcs[t]) != Pending(s.pcs[u]))
  }

  /** The logs list, in order, exactly the linked and the removed values. */
  ghost predicate LogInv<T>(s: State<T>)
    requires HeapInv(s.heap)
  {
    && |s.links| == |s.heap.chain| - 1
    && (forall i :: 0 <= i < |s.links| ==> s.links[i].1 == s.heap.nodes[s.heap.chain[i + 1]].data)
    && |s.takes| == s.heap.pos[s.heap.head] <= |s.links|
    && (forall i :: 0 <= i < |s.takes| ==> s.takes[i].1 == s.links[i].1)
  }

  ghost predicate Inv<T>(s: State<T>) {
    && HeapInv(s.heap)
    && (forall t :: t in s.pcs ==> PcInv(s.heap, s.pcs[t]))
    && PendingInv(s)
    && LogInv(s)
  }

  /** What no step ever takes back: links, node data, and how far head and tail have come. */
  ghost predicate Grows<T>(h: Heap<T>, k: Heap<T>) {
    && |h.nodes| <= |k.nodes|
    && (forall n :: 0 <= n < |h.nodes| ==> k.nodes[n].data == h.nodes[n].data)
    && h.chain <= k.chain
    && (forall n :: n in h.pos ==> n in k.pos && k.pos[n] == h.pos[n])
    && h.head in h.pos && k.head in k.pos && h.pos[h.head] <= k.pos[k.head]
    && h.tail in h.pos && k.tail in k.pos && h.pos[h.tail] <= k.pos[k.tail]
  }

  // ---------------------------------------------------------------- preservation

  lemma AllocateKeeps<T>(h: Heap<T>, value: T)
    requires HeapInv(h)
    ensures HeapInv(Allocate(h, value)) && Grows(h, Allocate(h, value))
  {
  }

  lemma LinkKeeps<T>(h: Heap<T>, at: NodeId, node: NodeId)
    requires HeapInv(h) && at < |h.nodes| && node < |h.nodes|
    requires BehindTail(h, at) && h.nodes[at].next == None && node !in h.pos
    ensures h.tail == at && h.pos[at] == |h.chain| - 1
    ensures HeapInv(LinkAfter(h, at, node)) && Grows(h, LinkAfter(h, at, node))
    ensures Precedes(LinkAfter(h, at, node), at, node)
  {
    assert h.chain[h.pos[h.tail]] == h.tail && h.chain[h.pos[at]] == at;
  }

  lemma TailKeeps<T>(h: Heap<T>, next: NodeId)
    requires HeapInv(h) && Precedes(h, h.tail, next)
    ensures HeapInv(h.(tail := next)) && Grows(h, h.(tail := next))
  {
  }

  lemma HeadKeeps<T>(h: Heap<T>, first: NodeId)
    requires HeapInv(h) && Precedes(h, h.head, first) && BehindTail(h, first)
    ensures HeapInv(h.(head := first)) && Grows(h, h.(head := first))
  {
  }

  lemma OthersKeep<T>(h: Heap<T>, k: Heap<T>, pc: Pc<T>)
    requires Grows(h, k) && PcInv(h, pc)
    ensures PcInv(k, pc)
  {
  }

  lemma PendingKeeps<T>(s: State<T>, r: State<T>, t: Tid, pc: Pc<T>)
    requires PendingInv(s) && |s.heap.nodes| <= |r.heap.nodes| && r.pcs == s.pcs[t := pc]
    requires Pending(pc).Some? ==>
      && (Pending(pc) == Pending(PcOf(s, t)) || Pending(pc).value == |s.heap.nodes|)
      && Pending(pc).value < |r.heap.nodes| && Pending(pc).value !in r.heap.pos
    requires forall n :: n in r.heap.pos ==> n in s.heap.pos || Pending(PcOf(s, t)) == Some(n)
    ensures PendingInv(r)
  {
  }

  /** Puts the invariant back together after thread `t` moved the heap to `r.heap` and itself to `pc`. */
  lemma Reassemble<T>(s: State<T>, r: State<T>, t: Tid, pc: Pc<T>)
    requires Inv(s) && HeapInv(r.heap) && LogInv(r) && Grows(s.heap, r.heap)
    requires r.pcs == s.pcs[t := pc] && PcInv(r.heap, pc)
    requires Pending(pc).Some? ==>
      && (Pending(pc) == Pending(PcOf(s, t)) || Pending(pc).value == |s.heap.nodes|)
      && Pending(pc).value < |r.heap.nodes| && Pending(pc).value !in r.heap.pos
    requires forall n :: n in r.heap.pos ==> n in s.heap.pos || Pending(PcOf(s, t)) == Some(n)
    ensures Inv(r)
  {
    hide HeapInv, LogInv, PcInv, PendingInv, Pending;
    PendingKeeps(s, r, t, pc);
    forall u | u in r.pcs ensures PcInv(r.heap, r.pcs[u]) {
      if u != t { OthersKeep(s.heap, r.heap, s.pcs[u]); }
    }
  }

  lemma InvParts<T>(s: State<T>)
    requires Inv(s)
    ensures HeapInv(s.heap) && LogInv(s) && PendingInv(s)
  {
  }

  lemma CallKeeps<T>(s: State<T>, t: Tid, value: T)
    requires Inv(s) && PcOf(s, t).Idle?
    ensures Inv(Apply(s, Label(t, CallEnqueue(value)))) && Grows(s.heap, Apply(s, Label(t, CallEnqueue(value))).heap)
  {
    AllocateKeeps(s.heap, value);
    Reassemble(s, Apply(s, Label(t, CallEnqueue(value))), t, EnqReadTail(|s.heap.nodes|));
  }

  /** The link itself; the thread has still to swing the tail. */
  lemma LinkedKeeps<T>(s: State<T>, r: State<T>, t: Tid, node: NodeId, at: NodeId)
    requires Inv(s) && PcOf(s, t) == EnqLink(node, at) && at < |s.heap.nodes| && node < |s.heap.nodes|
    requires s.heap.nodes[at].next == None && BehindTail(s.heap, at) && node !in s.heap.pos
    requires r.heap == LinkAfter(s.heap, at, node) && r.links == s.links + [(t, s.heap.nodes[node].data)] && r.takes == s.takes
    requires r.pcs == s.pcs[t := EnqSwing(node, at)]
    ensures Inv(r) && Grows(s.heap, r.heap)
  {
    hide HeapInv, LogInv, PendingInv, Inv, Grows, Precedes, BehindTail;
    InvParts(s);
    LinkKeeps(s.heap, at, node);
    LinkedLogs(s, r, t, node, at);
    Reassemble(s, r, t, EnqSwing(node, at));
  }

  lemma LinkedLogs<T>(s: State<T>, r: State<T>, t: Tid, node: NodeId, at: NodeId)
    requires HeapInv(s.heap) && LogInv(s) && at < |s.heap.nodes| && node < |s.heap.nodes|
    requires HeapInv(r.heap) && Grows(s.heap, r.heap)
    requires r.heap == LinkAfter(s.heap, at, node) && r.links == s.links + [(t, s.heap.nodes[node].data)] && r.takes == s.takes
    ensures LogInv(r)
  {
    assert forall j :: 0 <= j < |s.heap.chain| ==> s.heap.chain[j] < |s.heap.nodes| && r.heap.chain[j] == s.heap.chain[j];
    assert r.heap.chain[|s.links| + 1] == node;
    hide HeapInv;
  }

  /** What a thread about to link knows: its snapshot is linked, at or before the tail, and its node is not. */
  lemma LinkFacts<T>(s: State<T>, t: Tid)
    requires Inv(s) && PcOf(s, t).EnqLink?
    ensures t in s.pcs && PcOf(s, t).oldTail < |s.heap.nodes| && BehindTail(s.heap, PcOf(s, t).oldTail)
    ensures PcOf(s, t).node < |s.heap.nodes| && PcOf(s, t).node !in s.heap.pos
  {
    assert PcInv(s.heap, PcOf(s, t)) && Pending(PcOf(s, t)).Some?;
    NextRead(s.heap, PcOf(s, t).oldTail);
  }

  lemma LinkStepKeeps<T>(s: State<T>, t: Tid, pc: Pc<T>, strong: bool)
    requires Inv(s) && PcOf(s, t) == pc && pc.EnqLink?
    ensures Inv(ApplyEnqueue(s, t, pc, strong)) && Grows(s.heap, ApplyEnqueue(s, t, pc, strong).heap)
  {
    hide Inv, HeapInv, LogInv, PendingInv, Grows, BehindTail;
    LinkFacts(s, t);
    var r := ApplyEnqueue(s, t, pc, strong);
    if s.heap.nodes[pc.oldTail].next == None && strong {
      LinkedKeeps(s, r, t, pc.node, pc.oldTail);
    } else {
      LocalStepKeeps(s, r, t, EnqReadTail(pc.node));
    }
  }

  /** A step that leaves heap and logs alone. */
  lemma LocalStepKeeps<T>(s: State<T>, r: State<T>, t: Tid, pc: Pc<T>)
    requires Inv(s) && r.heap == s.heap && r.links == s.links && r.takes == s.takes
    requires r.pcs == s.pcs[t := pc] && PcInv(s.heap, pc)
    requires Pending(pc) == Pending(PcOf(s, t)) || Pending(pc) == None
    ensures Inv(r) && Grows(s.heap, r.heap)
  {
    assert Pending(pc).Some? ==> t in s.pcs;
    Reassemble(s, r, t, pc);
  }

  /** A step that moves the tail one node on. */
  lemma TailStepKeeps<T>(s: State<T>, r: State<T>, t: Tid, pc: Pc<T>, next: NodeId)
    requires Inv(s) && Precedes(s.heap, s.heap.tail, next) && r.heap == s.heap.(tail := next)
    requires r.links == s.links && r.takes == s.takes
    requires r.pcs == s.pcs[t := pc] && PcInv(r.heap, pc)
    requires Pending(pc) == Pending(PcOf(s, t)) || Pending(pc) == None
    ensures Inv(r) && Grows(s.heap, r.heap)
  {
    assert Pending(pc).Some? ==> t in s.pcs;
    TailKeeps(s.heap, next);
    Reassemble(s, r, t, pc);
  }

  /** The node read from a linked node's next pointer is the one right after it; none means it is the last. */
  lemma NextRead<T>(h: Heap<T>, n: NodeId)
    requires HeapInv(h) && n in h.pos
    ensures n < |h.nodes|
    ensures h.nodes[n].next.Some? ==> Precedes(h, n, h.nodes[n].next.value)
    ensures h.nodes[n].next.None? ==> h.pos[n] == |h.chain| - 1
    ensures h.pos[n] < |h.chain| && h.chain[h.pos[n]] == n
  {
  }

  /** A dequeuer that read no successor holds the last node, so its tail snapshot is the same node. */
  lemma NoSuccessorMeansTail<T>(h: Heap<T>, oldHead: NodeId, tailSeen: NodeId)
    requires HeapInv(h) && oldHead in h.pos && tailSeen in h.pos && h.pos[oldHead] <= h.pos[tailSeen]
    requires h.nodes[oldHead].next.None?
    ensures oldHead == tailSeen
  {
    NextRead(h, oldHead);
    NextRead(h, tailSeen);
  }

  lemma DistinctPositions<T>(h: Heap<T>, a: NodeId, b: NodeId)
    requires HeapInv(h) && a in h.pos && b in h.pos && a != b
    ensures h.pos[a] != h.pos[b]
  {
    NextRead(h, a);
    NextRead(h, b);
  }

  lemma TakenLogs<T>(s: State<T>, r: State<T>, t: Tid, first: NodeId)
    requires HeapInv(s.heap) && LogInv(s) && Precedes(s.heap, s.heap.head, first) && first < |s.heap.nodes|
    requires r.heap == s.heap.(head := first) && HeapInv(r.heap)
    requires r.links == s.links && r.takes == s.takes + [(t, s.heap.nodes[first].data)]
    ensures LogInv(r)
  {
    assert s.heap.chain[s.heap.pos[first]] == first;
  }

  lemma TailSnapshotFacts<T>(s: State<T>, t: Tid, pc: Pc<T>)
    requires Inv(s) && PcOf(s, t) == pc && IsEnqueue(pc)
    ensures PcInv(s.heap, pc) && BehindTail(s.heap, s.heap.tail)
    ensures pc.EnqReadNext? ==> pc.oldTail < |s.heap.nodes|
    ensures pc.EnqReadNext? ==>
      (var next := s.heap.nodes[pc.oldTail].next;
       next.Some? ==> Precedes(s.heap, pc.oldTail, next.value))
  {
    assert PcInv(s.heap, pc) && BehindTail(s.heap, s.heap.tail);
    hide HeapInv;
    if pc.EnqReadNext? { NextRead(s.heap, pc.oldTail); }
  }

  lemma EnqueueReadKeeps<T>(s: State<T>, t: Tid, pc: Pc<T>, strong: bool)
    requires Inv(s) && PcOf(s, t) == pc && (pc.EnqReadTail? || pc.EnqReadNext? || pc.EnqCheck?)
    ensures Inv(ApplyEnqueue(s, t, pc, strong)) && Grows(s.heap, ApplyEnqueue(s, t, pc, strong).heap)
  {
    hide Inv, HeapInv, LogInv, PendingInv, Grows;
    TailSnapshotFacts(s, t, pc);
    var r := ApplyEnqueue(s, t, pc, strong);
    LocalStepKeeps(s, r, t, r.pcs[t]);
  }

  /** The help of line 46 and the swing of line 50: the tail stays, or moves on to its successor. */
  lemma SwingStepKeeps<T>(s: State<T>, t: Tid, pc: Pc<T>, strong: bool)
    requires Inv(s) && PcOf(s, t) == pc && (pc.EnqHelp? || pc.EnqSwing?)
    ensures Inv(ApplyEnqueue(s, t, pc, strong)) && Grows(s.heap, ApplyEnqueue(s, t, pc, strong).heap)
  {
    hide Inv, HeapInv, LogInv, PendingInv, Grows;
    TailSnapshotFacts(s, t, pc);
    var r := ApplyEnqueue(s, t, pc, strong);
    if strong && s.heap.tail == pc.oldTail {
      TailStepKeeps(s, r, t, r.pcs[t], if pc.EnqHelp? then pc.next else pc.node);
    } else {
      LocalStepKeeps(s, r, t, r.pcs[t]);
    }
  }

  lemma EnqueueStepKeeps<T>(s: State<T>, t: Tid, pc: Pc<T>, strong: bool)
    requires Inv(s) && PcOf(s, t) == pc && IsEnqueue(pc)
    ensures Inv(ApplyEnqueue(s, t, pc, strong)) && Grows(s.heap, ApplyEnqueue(s, t, pc, strong).heap)
  {
    hide Inv, Grows, ApplyEnqueue;
    if pc.EnqLink? {
      LinkStepKeeps(s, t, pc, strong);
    } else if pc.EnqHelp? || pc.EnqSwing? {
      SwingStepKeeps(s, t, pc, strong);
    } else {
      EnqueueReadKeeps(s, t, pc, strong);
    }
  }

  lemma SnapshotFacts<T>(s: State<T>, t: Tid, pc: Pc<T>)
    requires Inv(s) && PcOf(s, t) == pc
    ensures PcInv(s.heap, pc)
    ensures BehindTail(s.heap, s.heap.head) && BehindTail(s.heap, s.heap.tail)
    ensures pc.DeqReadNext? ==> pc.oldHead < |s.heap.nodes|
    ensures pc.DeqReadNext? ==>
      (var next := s.heap.nodes[pc.oldHead].next;
       if next.Some? then Precedes(s.heap, pc.oldHead, next.value) else pc.oldHead == pc.tailSeen)
    ensures pc.DeqCheck? && pc.oldHead != pc.tailSeen ==> s.heap.pos[pc.oldHead] < s.heap.pos[pc.tailSeen]
    ensures pc.DeqReadData? ==> pc.headNext.value < |s.heap.nodes|
  {
    if pc.DeqReadNext? {
      NextRead(s.heap, pc.oldHead);
      if s.heap.nodes[pc.oldHead].next.None? { NoSuccessorMeansTail(s.heap, pc.oldHead, pc.tailSeen); }
    } else if pc.DeqReadData? {
      NextRead(s.heap, pc.headNext.value);
    } else if pc.DeqCheck? && pc.oldHead != pc.tailSeen {
      DistinctPositions(s.heap, pc.oldHead, pc.tailSeen);
    }
  }

  /** What a thread about to take knows: its successor is next to its head, not past the tail, with its result. */
  lemma CasFacts<T>(s: State<T>, t: Tid)
    requires Inv(s) && PcOf(s, t).DeqCas?
    ensures Precedes(s.heap, PcOf(s, t).oldHead, PcOf(s, t).first) && BehindTail(s.heap, PcOf(s, t).first)
    ensures PcOf(s, t).first < |s.heap.nodes| && s.heap.nodes[PcOf(s, t).first].data == PcOf(s, t).result
  {
    assert PcInv(s.heap, PcOf(s, t));
  }

  lemma HeadStepKeeps<T>(s: State<T>, t: Tid, pc: Pc<T>)
    requires Inv(s) && PcOf(s, t) == pc && pc.DeqCas? && s.heap.head == pc.oldHead
    ensures
      var r := Goto(s.(heap := s.heap.(head := pc.first), takes := s.takes + [(t, pc.result)]), t, Idle);
      Inv(r) && Grows(s.heap, r.heap)
  {
    var r := Goto(s.(heap := s.heap.(head := pc.first), takes := s.takes + [(t, pc.result)]), t, Idle);
    hide HeapInv, LogInv, PendingInv, Inv, Grows, Precedes, BehindTail;
    InvParts(s);
    CasFacts(s, t);
    HeadKeeps(s.heap, pc.first);
    TakenLogs(s, r, t, pc.first);
    Reassemble(s, r, t, Idle);
  }

  lemma ReadStepKeeps<T>(s: State<T>, t: Tid, pc: Pc<T>, strong: bool)
    requires Inv(s) && PcOf(s, t) == pc && !IsEnqueue(pc) && !pc.Idle? && !pc.DeqHelp? && !pc.DeqCas?
    ensures Inv(ApplyDequeue(s, t, pc, strong)) && Grows(s.heap, ApplyDequeue(s, t, pc, strong).heap)
  {
    hide Inv, HeapInv, LogInv, PendingInv, Grows;
    SnapshotFacts(s, t, pc);
    var r := ApplyDequeue(s, t, pc, strong);
    LocalStepKeeps(s, r, t, r.pcs[t]);
  }

  /** The help of line 66. */
  lemma DequeueHelpKeeps<T>(s: State<T>, t: Tid, pc: Pc<T>, strong: bool)
    requires Inv(s) && PcOf(s, t) == pc && pc.DeqHelp?
    ensures Inv(ApplyDequeue(s, t, pc, strong)) && Grows(s.heap, ApplyDequeue(s, t, pc, strong).heap)
  {
    hide Inv, HeapInv, LogInv, PendingInv, Grows;
    SnapshotFacts(s, t, pc);
    var r := ApplyDequeue(s, t, pc, strong);
    if s.helps && strong && s.heap.tail == pc.oldHead {
      TailStepKeeps(s, r, t, DeqReadHead, pc.first);
    } else {
      LocalStepKeeps(s, r, t, DeqReadHead);
    }
  }

  lemma DequeueCasKeeps<T>(s: State<T>, t: Tid, pc: Pc<T>, strong: bool)
    requires Inv(s) && PcOf(s, t) == pc && pc.DeqCas?
    ensures Inv(ApplyDequeue(s, t, pc, strong)) && Grows(s.heap, ApplyDequeue(s, t, pc, strong).heap)
  {
    hide Inv, HeapInv, LogInv, PendingInv, Grows;
    var r := ApplyDequeue(s, t, pc, strong);
    if strong && s.heap.head == pc.oldHead {
      HeadStepKeeps(s, t, pc);
    } else {
      LocalStepKeeps(s, r, t, DeqReadHead);
    }
  }

  lemma DequeueStepKeeps<T>(s: State<T>, t: Tid, pc: Pc<T>, strong: bool)
    requires Inv(s) && PcOf(s, t) == pc && !IsEnqueue(pc) && !pc.Idle?
    ensures Inv(ApplyDequeue(s, t, pc, strong)) && Grows(s.heap, ApplyDequeue(s, t, pc, strong).heap)
  {
    hide Inv, Grows, ApplyDequeue;
    SnapshotFacts(s, t, pc);
    if pc.DeqHelp? {
      DequeueHelpKeeps(s, t, pc, strong);
    } else if pc.DeqCas? {
      DequeueCasKeeps(s, t, pc, strong);
    } else {
      ReadStepKeeps(s, t, pc, strong);
    }
  }

  /** Every action of every thread keeps the invariant, and takes nothing back. */
  lemma StepKeepsInv<T>(s: State<T>, l: Label<T>)
    requires Inv(s)
    ensures Inv(Apply(s, l)) && Grows(s.heap, Apply(s, l).heap)
  {
    hide Inv, HeapInv, Grows, ApplyEnqueue, ApplyDequeue;
    NothingTakenBack(s);
    var t, pc := l.tid, PcOf(s, l.tid);
    match l.action
    case CallEnqueue(value) => if pc.Idle? { CallKeeps(s, t, value); }
    case CallDequeue => if pc.Idle? { LocalStepKeeps(s, Apply(s, l), t, DeqReadHead); }
    case Step(strong) =>
      if IsEnqueue(pc) { EnqueueStepKeeps(s, t, pc, strong); }
      else if !pc.Idle? { DequeueStepKeeps(s, t, pc, strong); }
      else { IdleStays(s, t, strong); }
  }

  lemma IdleStays<T>(s: State<T>, t: Tid, strong: bool)
    ensures ApplyDequeue(s, t, Idle, strong) == s
  {
  }

  lemma NothingTakenBack<T>(s: State<T>)
    requires Inv(s)
    ensures Grows(s.heap, s.heap)
  {
  }
}
