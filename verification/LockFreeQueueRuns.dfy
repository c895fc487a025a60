/**
  Every run of the queue keeps the invariant; in every reachable memory the next pointers form one chain, and
  every step leaves the contents alone or is one operation of a sequential FIFO queue.
 */
module LockFreeQueueRuns {
  import opened Wrappers
  import opened Sequences
  import opened LockFreeQueue

  /** A run: the first `k` labels of the schedule lead from the empty queue to `At(k)`. */
  datatype Run<T> = Run(helps: bool, blank: T, schedule: seq<Label<T>>) {
    function At(k: nat): State<T>
      requires k <= |schedule|
    {
      After(Init(helps, blank), schedule[..k])
    }

    function Pc(k: nat, t: Tid): Pc<T>
      requires k <= |schedule|
    {
      PcOf(At(k), t)
    }
  }

  /** The abstract queue: the data of the nodes after the head, in chain order. */
  ghost function Contents<T>(h: Heap<T>): seq<T>
    requires HeapInv(h)
  {
    seq(|h.chain| - 1 - h.pos[h.head], i requires 0 <= i < |h.chain| - 1 - h.pos[h.head] => h.nodes[h.chain[h.pos[h.head] + 1 + i]].data)
  }

  function Values<T>(log: seq<(Tid, T)>): seq<T> {
    seq(|log|, i requires 0 <= i < |log| => log[i].1)
  }

  // ---------------------------------------------------------------- runs keep the invariant

  lemma Unfold<T>(r: Run<T>, k: nat)
    requires k < |r.schedule|
    ensures r.At(k + 1) == Apply(r.At(k), r.schedule[k])
  {
    assert r.schedule[..k + 1][..k] == r.schedule[..k];
  }

  lemma {:induction false} RunKeepsInv<T>(r: Run<T>, k: nat)
    requires k <= |r.schedule|
    ensures Inv(r.At(k)) && HeapInv(r.At(k).heap)
  {
    hide Inv, HeapInv, Apply, Grows, After;
    if k == 0 {
      InitKeepsInv(r);
    } else {
      RunKeepsInv(r, k - 1);
      Unfold(r, k - 1);
      StepKeepsInv(r.At(k - 1), r.schedule[k - 1]);
      InvParts(r.At(k));
    }
  }

  lemma InitKeepsInv<T>(r: Run<T>)
    ensures Inv(r.At(0)) && HeapInv(r.At(0).heap)
  {
  }

  lemma GrowsTransitively<T>(a: Heap<T>, b: Heap<T>, c: Heap<T>)
    requires Grows(a, b) && Grows(b, c)
    ensures Grows(a, c)
  {
  }

  lemma {:induction false} RunGrows<T>(r: Run<T>, i: nat, k: nat)
    requires i <= k <= |r.schedule|
    ensures Grows(r.At(i).heap, r.At(k).heap)
    decreases k
  {
    hide Inv, HeapInv, Grows, Apply, After;
    RunKeepsInv(r, i);
    NothingTakenBack(r.At(i));
    if i < k {
      RunGrows(r, i, k - 1);
      RunKeepsInv(r, k - 1);
      Unfold(r, k - 1);
      StepKeepsInv(r.At(k - 1), r.schedule[k - 1]);
      GrowsTransitively(r.At(i).heap, r.At(k - 1).heap, r.At(k).heap);
    }
  }

  /** No thread of any run ever dereferences a null or dangling node. */
  lemma NoBadDereference<T>(r: Run<T>, k: nat, t: Tid)
    requires k <= |r.schedule|
    ensures !r.Pc(k, t).Fault?
  {
    RunKeepsInv(r, k);
  }

  // ---------------------------------------------------------------- the chain, read off the memory alone

  /** `path` follows next pointers from `from` to a null. */
  ghost predicate IsPath<T>(nodes: seq<Node<T>>, from: NodeId, path: seq<NodeId>) {
    && |path| >= 1 && path[0] == from
    && (forall i :: 0 <= i < |path| ==> path[i] < |nodes|)
    && (forall i :: 0 <= i < |path| - 1 ==> nodes[path[i]].next == Some(path[i + 1]))
    && nodes[path[|path| - 1]].next == None
  }

  lemma PathTail<T>(nodes: seq<Node<T>>, from: NodeId, path: seq<NodeId>)
    requires IsPath(nodes, from, path)
    ensures |path| >= 1 && path[0] == from < |nodes|
    ensures if |path| == 1 then nodes[from].next == None else nodes[from].next == Some(path[1]) && IsPath(nodes, path[1], path[1..])
  {
    if |path| > 1 {
      var rest := path[1..];
      forall i | 0 <= i < |rest| - 1 ensures nodes[rest[i]].next == Some(rest[i + 1]) { assert rest[i] == path[i + 1]; }
    }
  }

  lemma {:induction false} PathIsUnique<T>(nodes: seq<Node<T>>, from: NodeId, p: seq<NodeId>, q: seq<NodeId>)
    requires IsPath(nodes, from, p) && IsPath(nodes, from, q)
    ensures p == q
    decreases |p|
  {
    hide IsPath;
    PathTail(nodes, from, p);
    PathTail(nodes, from, q);
    if |p| > 1 {
      PathIsUnique(nodes, p[1], p[1..], q[1..]);
      assert p == [p[0]] + p[1..] && q == [q[0]] + q[1..];
    }
  }

  /** The path from the head that the history variables describe. */
  ghost function LivePath<T>(h: Heap<T>): seq<NodeId>
    requires HeapInv(h)
  {
    h.chain[h.pos[h.head]..]
  }

  lemma LivePathIsPath<T>(h: Heap<T>)
    requires HeapInv(h)
    ensures IsPath(h.nodes, h.head, LivePath(h))
  {
    assert h.chain[h.pos[h.head]] == h.head;
  }

  lemma LivePathShape<T>(h: Heap<T>)
    requires HeapInv(h)
    ensures
      var path := LivePath(h);
      && |path| >= 1 && |Contents(h)| == |path| - 1
      && (h.tail == path[|path| - 1] || (|path| >= 2 && h.tail == path[|path| - 2]))
    ensures Distinct(LivePath(h))
  {
    assert h.chain[h.pos[h.tail]] == h.tail;
    LivePathDistinct(h);
    hide Distinct;
  }

  lemma LivePathDistinct<T>(h: Heap<T>)
    requires HeapInv(h)
    ensures Distinct(LivePath(h))
  {
    forall i, j | 0 <= i < j < |LivePath(h)| ensures LivePath(h)[i] != LivePath(h)[j] {
      assert h.pos[h.chain[h.pos[h.head] + i]] == h.pos[h.head] + i;
      assert h.pos[h.chain[h.pos[h.head] + j]] == h.pos[h.head] + j;
    }
  }

  lemma LivePathData<T>(h: Heap<T>, i: nat)
    requires HeapInv(h) && i + 1 < |LivePath(h)|
    ensures i < |Contents(h)| && LivePath(h)[i + 1] < |h.nodes|
    ensures Contents(h)[i] == h.nodes[LivePath(h)[i + 1]].data
  {
    assert LivePath(h)[i + 1] == h.chain[h.pos[h.head] + 1 + i];
  }

  /**
    In every reachable state the next pointers from the head form exactly one path; it is acyclic and ends
    in a null, the tail is its last or next to last node, and the queue's contents are the data after the head.
   */
  lemma OneChain<T>(r: Run<T>, k: nat)
    requires k <= |r.schedule|
    ensures HeapInv(r.At(k).heap)
    ensures
      var h := r.At(k).heap;
      exists path ::
        && IsPath(h.nodes, h.head, path)
        && (forall p :: IsPath(h.nodes, h.head, p) <==> p == path)
        && Distinct(path)
        && (h.tail == path[|path| - 1] || (|path| >= 2 && h.tail == path[|path| - 2]))
        && |Contents(h)| == |path| - 1
        && (forall i :: 0 <= i < |path| - 1 ==> Contents(h)[i] == h.nodes[path[i + 1]].data)
  {
    hide HeapInv, Inv, Contents, LivePath, IsPath, Distinct, After;
    RunKeepsInv(r, k);
    var h := r.At(k).heap;
    var path := LivePath(h);
    LivePathIsPath(h);
    LivePathShape(h);
    forall p | IsPath(h.nodes, h.head, p) ensures p == path { PathIsUnique(h.nodes, h.head, p, path); }
    forall i | 0 <= i < |path| - 1 ensures Contents(h)[i] == h.nodes[path[i + 1]].data { LivePathData(h, i); }
  }

  // ---------------------------------------------------------------- refinement of a FIFO queue

  /** Operations of the sequential queue the concurrent one must look like. */
  datatype Op<T> = Enq(t: Tid, value: T) | Deq(t: Tid, value: T) | Empty(t: Tid)

  /** The sequential queue: a Deq must return the front, an Empty must find nothing. */
  ghost function SpecApply<T>(q: Option<seq<T>>, op: Op<T>): Option<seq<T>> {
    if q.None? then None
    else match op
      case Enq(_, v) => Some(q.value + [v])
      case Deq(_, v) => if q.value != [] && q.value[0] == v then Some(q.value[1..]) else None
      case Empty(_) => if q.value == [] then q else None
  }

  /** The operation a step performs, read off the code: link CAS, head CAS, or a null read of head->next. */
  ghost function StepOp<T>(s: State<T>, l: Label<T>): Option<Op<T>> {
    var pc := PcOf(s, l.tid);
    var n := s.heap.nodes;
    if !l.action.Step? then None
    else match pc
      case EnqLink(node, oldTail) =>
        if oldTail < |n| && node < |n| && n[oldTail].next.None? && l.action.strong then Some(Enq(l.tid, n[node].data)) else None
      case DeqCas(oldHead, _, result) =>
        if s.heap.head == oldHead && l.action.strong then Some(Deq(l.tid, result)) else None
      case DeqReadNext(oldHead, _) =>
        if oldHead < |n| && n[oldHead].next.None? then Some(Empty(l.tid)) else None
      case _ => None
  }

  lemma ContentsAreLogged<T>(s: State<T>)
    requires Inv(s)
    ensures |s.takes| <= |s.links|
    ensures Contents(s.heap) == Values(s.links)[|s.takes|..]
    ensures Values(s.takes) == Values(s.links)[..|s.takes|]
  {
  }

  /** Where a dequeuer reads no successor, the head has not moved on and the queue is empty. */
  lemma NullReadMeansEmpty<T>(s: State<T>, t: Tid)
    requires Inv(s) && PcOf(s, t).DeqReadNext?
    requires PcOf(s, t).oldHead < |s.heap.nodes| && s.heap.nodes[PcOf(s, t).oldHead].next.None?
    ensures Contents(s.heap) == [] && s.heap.head == PcOf(s, t).oldHead
  {
    assert PcInv(s.heap, PcOf(s, t));
    NextRead(s.heap, PcOf(s, t).oldHead);
    NextRead(s.heap, s.heap.head);
  }

  lemma EnqueueLogs<T>(s: State<T>, t: Tid, strong: bool)
    requires IsEnqueue(PcOf(s, t))
    ensures
      var r, op := ApplyEnqueue(s, t, PcOf(s, t), strong), StepOp(s, Label(t, Step(strong)));
      && (op.Some? ==> op.value.Enq?) && r.takes == s.takes
      && r.links == if op.Some? then s.links + [(t, op.value.value)] else s.links
  {
  }

  lemma DequeueLogs<T>(s: State<T>, t: Tid, strong: bool)
    requires !IsEnqueue(PcOf(s, t))
    ensures
      var r, op := ApplyDequeue(s, t, PcOf(s, t), strong), StepOp(s, Label(t, Step(strong)));
      && (op.Some? ==> !op.value.Enq?) && r.links == s.links
      && r.takes == if op.Some? && op.value.Deq? then s.takes + [(t, op.value.value)] else s.takes
  {
  }

  /** What a step writes into the logs. */
  lemma StepLogs<T>(s: State<T>, l: Label<T>)
    ensures Apply(s, l).links == if StepOp(s, l).Some? && StepOp(s, l).value.Enq? then s.links + [(l.tid, StepOp(s, l).value.value)] else s.links
    ensures Apply(s, l).takes == if StepOp(s, l).Some? && StepOp(s, l).value.Deq? then s.takes + [(l.tid, StepOp(s, l).value.value)] else s.takes
  {
    if l.action.Step? {
      hide StepOp, ApplyEnqueue, ApplyDequeue;
      if IsEnqueue(PcOf(s, l.tid)) { EnqueueLogs(s, l.tid, l.action.strong); } else { DequeueLogs(s, l.tid, l.action.strong); }
    }
  }

  /** A queue kept as a log of inserts and a count of removals, moved on by one operation. */
  lemma LogShift<T>(a: seq<T>, n: nat, b: seq<T>, m: nat, op: Op<T>)
    requires n <= |a| && m <= |b|
    requires match op
      case Enq(_, v) => b == a + [v] && m == n
      case Deq(_, v) => b == a && m == n + 1 && b[n] == v
      case Empty(_) => b == a && m == n && n == |a|
    ensures SpecApply(Some(a[n..]), op) == Some(b[m..])
  {
    match op
    case Enq(_, v) => assert (a + [v])[n..] == a[n..] + [v];
    case Deq(_, v) => assert a[n..][1..] == a[n + 1..];
    case Empty(_) =>
  }

  lemma LoggedStepRefines<T>(s: State<T>, r: State<T>, op: Op<T>)
    requires Inv(s) && Inv(r) && (op.Empty? ==> Contents(s.heap) == [])
    requires r.links == if op.Enq? then s.links + [(op.t, op.value)] else s.links
    requires r.takes == if op.Deq? then s.takes + [(op.t, op.value)] else s.takes
    ensures SpecApply(Some(Contents(s.heap)), op) == Some(Contents(r.heap))
  {
    hide Inv, Contents, HeapInv;
    ContentsAreLogged(s);
    ContentsAreLogged(r);
    assert Values(r.links) == if op.Enq? then Values(s.links) + [op.value] else Values(s.links);
    assert op.Deq? ==> Values(r.takes)[|s.takes|] == op.value;
    LogShift(Values(s.links), |s.takes|, Values(r.links), |r.takes|, op);
  }

  /** An operation is its thread's own, and an observation of emptiness is true. */
  lemma StepOpFacts<T>(s: State<T>, l: Label<T>)
    requires Inv(s) && StepOp(s, l).Some?
    ensures StepOp(s, l).value.t == l.tid
    ensures StepOp(s, l).value.Empty? ==> Contents(s.heap) == []
  {
    hide HeapInv, Contents;
    if StepOp(s, l).value.Empty? { NullReadMeansEmpty(s, l.tid); }
  }

  /** Each step leaves the abstract queue unchanged, or is exactly one legal operation of the sequential queue. */
  lemma StepRefinesFifo<T>(s: State<T>, l: Label<T>)
    requires Inv(s)
    ensures Inv(Apply(s, l))
    ensures StepOp(s, l).None? ==> Contents(Apply(s, l).heap) == Contents(s.heap)
    ensures StepOp(s, l).Some? ==> SpecApply(Some(Contents(s.heap)), StepOp(s, l).value) == Some(Contents(Apply(s, l).heap))
  {
    hide Inv, HeapInv, Contents, StepOp, Apply, Grows, SpecApply;
    StepKeepsInv(s, l);
    StepLogs(s, l);
    if StepOp(s, l).Some? {
      StepOpFacts(s, l);
      LoggedStepRefines(s, Apply(s, l), StepOp(s, l).value);
    } else {
      ContentsAreLogged(s);
      ContentsAreLogged(Apply(s, l));
    }
  }
}
