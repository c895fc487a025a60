/**
  Linearizability: the operations of a run form a legal history of a sequential queue, and every call that
  returns has exactly one of them inside its own interval, with its own argument or result.
 */
module LockFreeQueueCalls {
  import opened Wrappers
  import opened LockFreeQueue
  import opened LockFreeQueueRuns

  datatype Response<T> = EnqueueDone | Found(value: T) | Nothing

  /** The response of a step that ends its thread's call (lines 50, 64, 69-75). */
  ghost function Returns<T>(s: State<T>, l: Label<T>): Option<Response<T>> {
    if !l.action.Step? then None
    else match PcOf(s, l.tid)
      case EnqSwing(_, _) => Some(EnqueueDone)
      case DeqCas(oldHead, _, result) => if l.action.strong && s.heap.head == oldHead then Some(Found(result)) else None
      case DeqCheck(oldHead, tailSeen, headNext) =>
        if oldHead == s.heap.head && oldHead == tailSeen && headNext.None? then Some(Nothing) else None
      case _ => None
  }

  // ---------------------------------------------------------------- the linearization

  /** The null read at `j` is the one on which its thread's next step returns false. */
  ghost predicate Confirmed<T>(r: Run<T>, j: nat)
    requires j < |r.schedule|
  {
    exists k :: j < k < |r.schedule| && ConfirmedBy(r, j, k)
  }

  /** The label at `m` is a step of thread `t` (a call label inside a call is none). */
  ghost predicate Moves<T>(r: Run<T>, m: nat, t: Tid)
    requires m < |r.schedule|
  {
    r.schedule[m].tid == t && r.schedule[m].action.Step?
  }

  ghost predicate ConfirmedBy<T>(r: Run<T>, j: nat, k: nat)
    requires j < k < |r.schedule|
  {
    && r.schedule[k].tid == r.schedule[j].tid
    && Returns(r.At(k), r.schedule[k]) == Some(Nothing)
    && (forall m :: j < m < k ==> !Moves(r, m, r.schedule[j].tid))
  }

  /** The operation that takes effect at step `j`; a null read counts only when its call returns false on it. */
  ghost function PointAt<T>(r: Run<T>, j: nat): Option<Op<T>>
    requires j < |r.schedule|
  {
    var op := StepOp(r.At(j), r.schedule[j]);
    if op.Some? && op.value.Empty? && !Confirmed(r, j) then None else op
  }

  ghost function Linearization<T>(r: Run<T>, k: nat): seq<Op<T>>
    requires k <= |r.schedule|
  {
    if k == 0 then []
    else Linearization(r, k - 1) + if PointAt(r, k - 1).Some? then [PointAt(r, k - 1).value] else []
  }

  ghost function SpecRun<T>(ops: seq<Op<T>>): Option<seq<T>> {
    if ops == [] then Some([]) else SpecApply(SpecRun(ops[..|ops| - 1]), ops[|ops| - 1])
  }

  lemma SpecRunExtends<T>(ops: seq<Op<T>>, op: Op<T>)
    ensures SpecRun(ops + [op]) == SpecApply(SpecRun(ops), op)
  {
    assert (ops + [op])[..|ops|] == ops;
  }

  lemma StartsEmpty<T>(r: Run<T>)
    ensures HeapInv(r.At(0).heap) && Contents(r.At(0).heap) == []
  {
  }

  lemma PointRefines<T>(r: Run<T>, k: nat)
    requires k < |r.schedule|
    ensures HeapInv(r.At(k).heap) && HeapInv(r.At(k + 1).heap)
    ensures PointAt(r, k).None? ==> Contents(r.At(k + 1).heap) == Contents(r.At(k).heap)
    ensures PointAt(r, k).Some? ==> SpecApply(Some(Contents(r.At(k).heap)), PointAt(r, k).value) == Some(Contents(r.At(k + 1).heap))
  {
    hide Inv, HeapInv, Apply, Contents, StepOp, Confirmed, After;
    RunKeepsInv(r, k);
    RunKeepsInv(r, k + 1);
    Unfold(r, k);
    StepRefinesFifo(r.At(k), r.schedule[k]);
  }

  /** The points of any run, in order, are a legal history of the sequential queue ending in the actual contents. */
  lemma {:induction false} LinearizationIsLegal<T>(r: Run<T>, k: nat)
    requires k <= |r.schedule|
    ensures HeapInv(r.At(k).heap)
    ensures SpecRun(Linearization(r, k)) == Some(Contents(r.At(k).heap))
  {
    hide Inv, HeapInv, Apply, Contents, PointAt, After, SpecApply;
    if k == 0 {
      StartsEmpty(r);
    } else {
      LinearizationIsLegal(r, k - 1);
      PointRefines(r, k - 1);
      if PointAt(r, k - 1).Some? {
        SpecRunExtends(Linearization(r, k - 1), PointAt(r, k - 1).value);
      } else {
        assert Linearization(r, k) == Linearization(r, k - 1);
      }
    }
  }

  // ---------------------------------------------------------------- calls

  ghost predicate Starts<T>(r: Run<T>, i: nat, t: Tid)
    requires i < |r.schedule|
  {
    r.schedule[i].tid == t && r.Pc(i, t).Idle? && !r.schedule[i].action.Step?
  }

  /** Thread `t` is inside one and the same call after each of the steps i..k-1. */
  ghost predicate InCall<T>(r: Run<T>, i: nat, k: nat, t: Tid)
    requires i < |r.schedule| && k <= |r.schedule|
  {
    forall m :: i < m <= k ==>
      && !r.Pc(m, t).Idle?
      && IsEnqueue(r.Pc(m, t)) == r.schedule[i].action.CallEnqueue?
      && (IsEnqueue(r.Pc(m, t)) ==> r.Pc(m, t).node == |r.At(i).heap.nodes|)
  }

  lemma EnqueueMoves<T>(s: State<T>, t: Tid, strong: bool)
    requires Inv(s) && IsEnqueue(PcOf(s, t))
    ensures
      var pc, next := PcOf(s, t), PcOf(ApplyEnqueue(s, t, PcOf(s, t), strong), t);
      if pc.EnqSwing? then next.Idle? else IsEnqueue(next) && next.node == pc.node
  {
    assert PcInv(s.heap, PcOf(s, t));
    SnapshotFacts(s, t, PcOf(s, t));
    assert PcOf(s, t).EnqReadNext? ==> PcOf(s, t).oldTail in s.heap.pos;
    assert PcOf(s, t).EnqLink? ==> PcOf(s, t).node < |s.heap.nodes|;
  }

  lemma NotFaulty<T>(s: State<T>, t: Tid)
    requires Inv(s)
    ensures !PcOf(s, t).Fault?
  {
    SnapshotFacts(s, t, PcOf(s, t));
  }

  lemma DequeueMoves<T>(s: State<T>, t: Tid, strong: bool)
    requires Inv(s) && !IsEnqueue(PcOf(s, t)) && !PcOf(s, t).Idle?
    ensures
      var next := PcOf(ApplyDequeue(s, t, PcOf(s, t), strong), t);
      next.Idle? == Returns(s, Label(t, Step(strong))).Some? && !IsEnqueue(next)
  {
    hide HeapInv, Inv, PcInv, LinkAfter;
    NotFaulty(s, t);
  }

  lemma EnqueueFrame<T>(s: State<T>, t: Tid, pc: Pc<T>, strong: bool, u: Tid)
    requires u != t
    ensures PcOf(ApplyEnqueue(s, t, pc, strong), u) == PcOf(s, u)
  {
  }

  lemma DequeueFrame<T>(s: State<T>, t: Tid, pc: Pc<T>, strong: bool, u: Tid)
    requires u != t
    ensures PcOf(ApplyDequeue(s, t, pc, strong), u) == PcOf(s, u)
  {
  }

  lemma OthersStay<T>(s: State<T>, l: Label<T>)
    ensures forall u :: u != l.tid ==> PcOf(Apply(s, l), u) == PcOf(s, u)
  {
    hide ApplyEnqueue, ApplyDequeue;
    forall u | u != l.tid ensures PcOf(Apply(s, l), u) == PcOf(s, u) {
      if l.action.Step? {
        EnqueueFrame(s, l.tid, PcOf(s, l.tid), l.action.strong, u);
        DequeueFrame(s, l.tid, PcOf(s, l.tid), l.action.strong, u);
      }
    }
  }

  /** How one label moves the program counters: a call is one unbroken stretch that ends where it returns. */
  lemma StepMoves<T>(s: State<T>, l: Label<T>)
    requires Inv(s)
    ensures forall u :: u != l.tid ==> PcOf(Apply(s, l), u) == PcOf(s, u)
    ensures PcOf(s, l.tid).Idle? && l.action.CallEnqueue? ==> PcOf(Apply(s, l), l.tid) == EnqReadTail(|s.heap.nodes|)
    ensures PcOf(s, l.tid).Idle? && l.action.CallDequeue? ==> PcOf(Apply(s, l), l.tid) == DeqReadHead
    ensures PcOf(s, l.tid).Idle? && l.action.Step? ==> PcOf(Apply(s, l), l.tid) == Idle
    ensures !PcOf(s, l.tid).Idle? && !l.action.Step? ==> PcOf(Apply(s, l), l.tid) == PcOf(s, l.tid)
    ensures !PcOf(s, l.tid).Idle? && l.action.Step? ==>
      && PcOf(Apply(s, l), l.tid).Idle? == Returns(s, l).Some?
      && (IsEnqueue(PcOf(s, l.tid)) && Returns(s, l).None? ==>
            IsEnqueue(PcOf(Apply(s, l), l.tid)) && PcOf(Apply(s, l), l.tid).node == PcOf(s, l.tid).node)
      && (!IsEnqueue(PcOf(s, l.tid)) ==> !IsEnqueue(PcOf(Apply(s, l), l.tid)))
  {
    hide Inv, HeapInv;
    OthersStay(s, l);
    if l.action.Step? {
      hide ApplyEnqueue, ApplyDequeue;
      if IsEnqueue(PcOf(s, l.tid)) {
        EnqueueMoves(s, l.tid, l.action.strong);
      } else if !PcOf(s, l.tid).Idle? {
        DequeueMoves(s, l.tid, l.action.strong);
      }
    }
  }

  /** A busy thread that stays busy stays in the same kind of call, with the same node. */
  lemma SameCall<T>(s: State<T>, l: Label<T>, t: Tid)
    requires Inv(s) && !PcOf(s, t).Idle? && !PcOf(Apply(s, l), t).Idle?
    ensures
      var pc, next := PcOf(s, t), PcOf(Apply(s, l), t);
      IsEnqueue(next) == IsEnqueue(pc) && (IsEnqueue(next) ==> next.node == pc.node)
  {
    hide Apply, Inv, Returns, PcOf;
    StepMoves(s, l);
  }

  /** A thread that is inside a call stays inside the same one until it returns. */
  lemma CallContinues<T>(r: Run<T>, i: nat, k: nat, t: Tid)
    requires i < k < |r.schedule| && InCall(r, i, k, t) && !r.Pc(k + 1, t).Idle?
    ensures InCall(r, i, k + 1, t)
  {
    hide Apply, Inv, HeapInv, After, PcOf, IsEnqueue;
    RunKeepsInv(r, k);
    Unfold(r, k);
    assert !r.Pc(k, t).Idle?;
    SameCall(r.At(k), r.schedule[k], t);
    assert r.Pc(k + 1, t) == PcOf(r.At(k + 1), t);
  }

  lemma CallBegins<T>(r: Run<T>, i: nat, t: Tid)
    requires i < |r.schedule| && r.Pc(i, t).Idle? && !r.Pc(i + 1, t).Idle?
    ensures Starts(r, i, t) && InCall(r, i, i + 1, t)
  {
    hide Apply, PcInv, HeapInv, Inv, After, Returns, PcOf;
    RunKeepsInv(r, i);
    Unfold(r, i);
    StepMoves(r.At(i), r.schedule[i]);
  }

  lemma {:induction false} CallOf<T>(r: Run<T>, k: nat, t: Tid) returns (i: nat)
    requires k <= |r.schedule| && !r.Pc(k, t).Idle?
    ensures i < k && Starts(r, i, t) && InCall(r, i, k, t)
  {
    StartsIdle(r, t);
    hide InCall, Starts, After, PcOf;
    if r.Pc(k - 1, t).Idle? {
      i := k - 1;
      CallBegins(r, i, t);
    } else {
      i := CallOf(r, k - 1, t);
      CallContinues(r, i, k - 1, t);
    }
  }

  lemma StartsIdle<T>(r: Run<T>, t: Tid)
    ensures r.Pc(0, t) == Idle
  {
  }

  // ---------------------------------------------------------------- the point of each call

  lemma SwingStep<T>(s: State<T>, l: Label<T>)
    ensures
      var pc, next := PcOf(s, l.tid), PcOf(Apply(s, l), l.tid);
      next.EnqSwing? && next != pc ==>
        && pc.EnqLink? && pc.node == next.node
        && StepOp(s, l).Some? && StepOp(s, l).value.Enq?
  {
  }

  /** A thread about to swing the tail has linked its node exactly then, and has done nothing since. */
  lemma {:induction false} LinkOf<T>(r: Run<T>, k: nat, t: Tid) returns (j: nat)
    requires k <= |r.schedule| && r.Pc(k, t).EnqSwing?
    ensures j < k && r.schedule[j].tid == t && r.Pc(j, t).EnqLink? && r.Pc(j, t).node == r.Pc(k, t).node
    ensures StepOp(r.At(j), r.schedule[j]).Some? && StepOp(r.At(j), r.schedule[j]).value.Enq?
    ensures forall m :: j < m <= k ==> r.Pc(m, t) == r.Pc(k, t)
  {
    hide After, StepOp, Apply;
    StartsIdle(r, t);
    Unfold(r, k - 1);
    OthersStay(r.At(k - 1), r.schedule[k - 1]);
    SwingStep(r.At(k - 1), r.schedule[k - 1]);
    if r.Pc(k - 1, t) == r.Pc(k, t) {
      j := LinkOf(r, k - 1, t);
    } else {
      j := k - 1;
    }
  }

  lemma EnqueueReadsNoHead<T>(s: State<T>, t: Tid, strong: bool)
    requires IsEnqueue(PcOf(s, t))
    ensures !PcOf(ApplyEnqueue(s, t, PcOf(s, t), strong), t).DeqCheck?
  {
    hide LinkAfter, Version;
  }

  lemma DequeueReadsNull<T>(s: State<T>, t: Tid, strong: bool)
    requires !IsEnqueue(PcOf(s, t))
    ensures
      var next := PcOf(ApplyDequeue(s, t, PcOf(s, t), strong), t);
      next.DeqCheck? && next.headNext.None? ==>
        PcOf(s, t).DeqReadNext? && StepOp(s, Label(t, Step(strong))) == Some(Empty(t))
  {
    hide LinkAfter;
  }

  lemma NullReadStep<T>(s: State<T>, l: Label<T>)
    ensures
      var next := PcOf(Apply(s, l), l.tid);
      next.DeqCheck? && next.headNext.None? ==>
        if l.action.Step? then PcOf(s, l.tid).DeqReadNext? && StepOp(s, l) == Some(Empty(l.tid)) else PcOf(s, l.tid) == next
  {
    if l.action.Step? {
      hide ApplyEnqueue, ApplyDequeue, StepOp;
      if IsEnqueue(PcOf(s, l.tid)) { EnqueueReadsNoHead(s, l.tid, l.action.strong); } else { DequeueReadsNull(s, l.tid, l.action.strong); }
    }
  }

  lemma NullReadLinked<T>(s: State<T>, l: Label<T>)
    requires StepOp(s, l) == Some(Empty(l.tid)) && PcOf(s, l.tid).DeqReadNext?
    ensures PcOf(s, l.tid).oldHead < |s.heap.nodes| && s.heap.nodes[PcOf(s, l.tid).oldHead].next.None?
  {
  }

  /** A thread that holds a null read took it from an empty queue, and has done nothing since. */
  lemma {:induction false} NullReadOf<T>(r: Run<T>, k: nat, t: Tid) returns (j: nat)
    requires k <= |r.schedule| && r.Pc(k, t).DeqCheck? && r.Pc(k, t).headNext.None?
    ensures j < k && r.schedule[j].tid == t && r.Pc(j, t).DeqReadNext?
    ensures StepOp(r.At(j), r.schedule[j]) == Some(Empty(t))
    ensures HeapInv(r.At(j).heap) && Contents(r.At(j).heap) == []
    ensures forall m :: j < m <= k ==> r.Pc(m, t) == r.Pc(k, t)
    ensures forall m :: j < m < k ==> !Moves(r, m, t)
  {
    hide After, Inv, HeapInv, Contents, StepOp, Apply;
    StartsIdle(r, t);
    Unfold(r, k - 1);
    OthersStay(r.At(k - 1), r.schedule[k - 1]);
    NullReadStep(r.At(k - 1), r.schedule[k - 1]);
    if Moves(r, k - 1, t) {
      j := k - 1;
      RunKeepsInv(r, j);
      NullReadLinked(r.At(j), r.schedule[j]);
      NullReadMeansEmpty(r.At(j), t);
    } else {
      j := NullReadOf(r, k - 1, t);
    }
  }

  /** What an operation at step `m` says about the counters around it. */
  lemma OpKinds<T>(s: State<T>, l: Label<T>)
    ensures StepOp(s, l).Some? ==> StepOp(s, l).value.t == l.tid && l.action.Step?
    ensures StepOp(s, l).Some? && StepOp(s, l).value.Deq? ==> Returns(s, l) == Some(Found(StepOp(s, l).value.value)) && PcOf(s, l.tid).DeqCas?
    ensures StepOp(s, l).Some? && StepOp(s, l).value.Enq? ==> PcOf(s, l.tid).EnqLink?
    ensures StepOp(s, l).Some? && StepOp(s, l).value.Empty? ==> PcOf(s, l.tid).DeqReadNext?
    ensures Returns(s, l).Some? ==>
      && l.action.Step? && !PcOf(s, l.tid).Idle?
      && (Returns(s, l).value.EnqueueDone? <==> PcOf(s, l.tid).EnqSwing?)
      && (Returns(s, l).value.EnqueueDone? <==> IsEnqueue(PcOf(s, l.tid)))
      && (Returns(s, l).value.Found? ==> StepOp(s, l) == Some(Deq(l.tid, Returns(s, l).value.value)))
      && (Returns(s, l).value.Nothing? ==> PcOf(s, l.tid).DeqCheck? && PcOf(s, l.tid).headNext.None?)
  {
  }

  /** A node is linked by its own enqueue only, and only once. */
  lemma LinkedOnce<T>(r: Run<T>, m: nat, j: nat)
    requires m < j < |r.schedule| && IsLink(r, m) && IsLink(r, j)
    ensures r.Pc(m, r.schedule[m].tid).node != r.Pc(j, r.schedule[j].tid).node
  {
    hide After, Inv, HeapInv, Apply, StepOp, PcOf;
    RunKeepsInv(r, m);
    RunKeepsInv(r, j);
    Unfold(r, m);
    RunGrows(r, m + 1, j);
    LinkPuts(r.At(m), r.schedule[m]);
    LinkPuts(r.At(j), r.schedule[j]);
  }

  /** A link puts its thread's node into the chain, where it was not before. */
  lemma LinkPuts<T>(s: State<T>, l: Label<T>)
    requires Inv(s) && StepOp(s, l).Some? && StepOp(s, l).value.Enq?
    ensures PcOf(s, l.tid).EnqLink? && PcOf(s, l.tid).node !in s.heap.pos && PcOf(s, l.tid).node in Apply(s, l).heap.pos
  {
    hide Inv, HeapInv;
    assert PcOf(s, l.tid).EnqLink?;
    LinkFacts(s, l.tid);
  }

  ghost predicate IsLink<T>(r: Run<T>, m: nat)
    requires m < |r.schedule|
  {
    StepOp(r.At(m), r.schedule[m]).Some? && StepOp(r.At(m), r.schedule[m]).value.Enq?
  }

  /** Inside a call no step removes a value, and a null read is confirmed at most by the call's own return. */
  lemma NoEarlyDequeuePoint<T>(r: Run<T>, i: nat, m: nat, k: nat, t: Tid)
    requires i < m < k < |r.schedule| && r.schedule[m].tid == t && Moves(r, k, t) && InCall(r, i, k, t)
    ensures StepOp(r.At(m), r.schedule[m]).Some? ==> !StepOp(r.At(m), r.schedule[m]).value.Deq?
    ensures Confirmed(r, m) ==> ConfirmedBy(r, m, k)
  {
    hide After, Apply, StepOp, Inv, Returns;
    RunKeepsInv(r, m);
    Unfold(r, m);
    OpKinds(r.At(m), r.schedule[m]);
    StepMoves(r.At(m), r.schedule[m]);
    assert !r.Pc(m, t).Idle? && !r.Pc(m + 1, t).Idle?;
    if Confirmed(r, m) {
      var q :| m < q < |r.schedule| && ConfirmedBy(r, m, q);
      if q < k {
        assert !r.Pc(q + 1, t).Idle?;
        RunKeepsInv(r, q);
        Unfold(r, q);
        OpKinds(r.At(q), r.schedule[q]);
        StepMoves(r.At(q), r.schedule[q]);
      }
    }
  }

  /**
    Linearizability, call by call: whenever a call returns at step `k`, its interval i..k contains exactly one
    point of the linearization by that thread, and that point carries the call's own argument or result.
    A dequeue that returned false has its point at a moment when the queue was empty.
   */
  lemma EveryCallHasItsPoint<T>(r: Run<T>, k: nat) returns (i: nat, j: nat)
    requires k < |r.schedule| && Returns(r.At(k), r.schedule[k]).Some?
    ensures i < j <= k && Starts(r, i, r.schedule[k].tid) && InCall(r, i, k, r.schedule[k].tid)
    ensures r.schedule[j].tid == r.schedule[k].tid
    ensures match Returns(r.At(k), r.schedule[k]).value
      case EnqueueDone => r.schedule[i].action.CallEnqueue? && PointAt(r, j) == Some(Enq(r.schedule[k].tid, r.schedule[i].action.value))
      case Found(v) => r.schedule[i].action.CallDequeue? && PointAt(r, j) == Some(Deq(r.schedule[k].tid, v))
      case Nothing => r.schedule[i].action.CallDequeue? && PointAt(r, j) == Some(Empty(r.schedule[k].tid))
    ensures Returns(r.At(k), r.schedule[k]).value.Nothing? ==> HeapInv(r.At(j).heap) && Contents(r.At(j).heap) == []
    ensures forall m :: i <= m <= k && m != j && r.schedule[m].tid == r.schedule[k].tid ==> PointAt(r, m).None?
  {
    var t := r.schedule[k].tid;
    OpKinds(r.At(k), r.schedule[k]);
    i := CallOf(r, k, t);
    match Returns(r.At(k), r.schedule[k]).value
    case EnqueueDone => j := EnqueuePoint(r, i, k, t);
    case Found(v) => j := k; FoundPoint(r, i, k, t);
    case Nothing => j := NothingPoint(r, i, k, t);
  }

  lemma EnqueuePoint<T>(r: Run<T>, i: nat, k: nat, t: Tid) returns (j: nat)
    requires i < k < |r.schedule| && Moves(r, k, t) && r.Pc(k, t).EnqSwing? && Starts(r, i, t) && InCall(r, i, k, t)
    ensures i < j < k && r.schedule[j].tid == t
    ensures r.schedule[i].action.CallEnqueue? && PointAt(r, j) == Some(Enq(t, r.schedule[i].action.value))
    ensures forall m :: i <= m <= k && m != j && r.schedule[m].tid == t ==> PointAt(r, m).None?
  {
    hide After, Apply, Inv, Returns;
    assert r.schedule[i].action.CallEnqueue?;
    j := LinkOf(r, k, t);
    LinkInsideCall(r, i, j, k, t);
    forall m | i <= m <= k && m != j && r.schedule[m].tid == t ensures PointAt(r, m).None? {
      OpKinds(r.At(m), r.schedule[m]);
      assert r.Pc(m, t) == PcOf(r.At(m), t);
      if i < m < k {
        NoEarlyDequeuePoint(r, i, m, k, t);
        if IsLink(r, m) {
          assert r.Pc(m, t).node == r.Pc(j, t).node;
          if m < j { LinkedOnce(r, m, j); }
        }
      }
    }
  }

  /** The link found behind an enqueue belongs to the call that started at `i`, and carries its argument. */
  lemma LinkInsideCall<T>(r: Run<T>, i: nat, j: nat, k: nat, t: Tid)
    requires i < k < |r.schedule| && j < k && Starts(r, i, t) && InCall(r, i, k, t)
    requires r.schedule[i].action.CallEnqueue?
    requires r.schedule[j].tid == t && r.Pc(j, t).EnqLink? && IsLink(r, j)
    requires forall m :: j < m <= k ==> r.Pc(m, t).EnqSwing?
    ensures i < j && StepOp(r.At(j), r.schedule[j]) == Some(Enq(t, r.schedule[i].action.value))
  {
    hide After, Inv;
    Unfold(r, i);
    RunGrows(r, i + 1, j);
    assert r.Pc(j, t).node == |r.At(i).heap.nodes|;
  }

  lemma FoundPoint<T>(r: Run<T>, i: nat, k: nat, t: Tid)
    requires i < k < |r.schedule| && Starts(r, i, t) && InCall(r, i, k, t)
    requires r.schedule[k].tid == t && Returns(r.At(k), r.schedule[k]).Some? && Returns(r.At(k), r.schedule[k]).value.Found?
    ensures r.schedule[i].action.CallDequeue?
    ensures PointAt(r, k) == Some(Deq(t, Returns(r.At(k), r.schedule[k]).value.value))
    ensures forall m :: i <= m < k && r.schedule[m].tid == t ==> PointAt(r, m).None?
  {
    hide After, Apply, Inv, Returns, StepOp;
    OpKinds(r.At(k), r.schedule[k]);
    assert !IsEnqueue(r.Pc(k, t));
    forall m | i <= m < k && r.schedule[m].tid == t ensures PointAt(r, m).None? {
      OpKinds(r.At(m), r.schedule[m]);
      assert r.Pc(m, t) == PcOf(r.At(m), t);
      if i < m { NoEarlyDequeuePoint(r, i, m, k, t); }
    }
  }

  lemma NothingPoint<T>(r: Run<T>, i: nat, k: nat, t: Tid) returns (j: nat)
    requires i < k < |r.schedule| && Starts(r, i, t) && InCall(r, i, k, t)
    requires r.schedule[k].tid == t && Returns(r.At(k), r.schedule[k]) == Some(Nothing)
    ensures i < j < k && r.schedule[j].tid == t && r.schedule[i].action.CallDequeue?
    ensures PointAt(r, j) == Some(Empty(t)) && HeapInv(r.At(j).heap) && Contents(r.At(j).heap) == []
    ensures forall m :: i <= m <= k && m != j && r.schedule[m].tid == t ==> PointAt(r, m).None?
  {
    hide After, Apply, Inv, Returns, StepOp, HeapInv, Contents;
    OpKinds(r.At(k), r.schedule[k]);
    j := NullReadOf(r, k, t);
    OpKinds(r.At(j), r.schedule[j]);
    assert ConfirmedBy(r, j, k);
    forall m | i <= m <= k && m != j && r.schedule[m].tid == t ensures PointAt(r, m).None? {
      OpKinds(r.At(m), r.schedule[m]);
      assert r.Pc(m, t) == PcOf(r.At(m), t);
      if i < m < k {
        NoEarlyDequeuePoint(r, i, m, k, t);
        if m < j { assert Moves(r, j, t); }
      }
    }
  }
}
