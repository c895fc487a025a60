/**
  Conservation of values, and what pays for the retries of an enqueue and of a dequeue.
 */
module LockFreeQueueProgress {
  import opened LockFreeQueue
  import opened LockFreeQueueRuns
  import opened LockFreeQueueCalls

  // ---------------------------------------------------------------- conservation

  /** The argument with which a label starts an enqueue of thread `t`, if it does. */
  ghost function Argument<T>(s: State<T>, l: Label<T>, t: Tid): seq<T> {
    if l.tid == t && PcOf(s, t).Idle? && l.action.CallEnqueue? then [l.action.value] else []
  }

  /** The value with which a label ends a successful dequeue of thread `t`, if it does. */
  ghost function Result<T>(s: State<T>, l: Label<T>, t: Tid): seq<T> {
    var res := Returns(s, l);
    if l.tid == t && res.Some? && res.value.Found? then [res.value.value] else []
  }

  /** The arguments of the enqueue calls thread `t` has made in the first `k` steps. */
  ghost function Submitted<T>(r: Run<T>, k: nat, t: Tid): seq<T>
    requires k <= |r.schedule|
  {
    if k == 0 then [] else Submitted(r, k - 1, t) + Argument(r.At(k - 1), r.schedule[k - 1], t)
  }

  /** The values thread `t` has got from its successful dequeues in the first `k` steps. */
  ghost function Received<T>(r: Run<T>, k: nat, t: Tid): seq<T>
    requires k <= |r.schedule|
  {
    if k == 0 then [] else Received(r, k - 1, t) + Result(r.At(k - 1), r.schedule[k - 1], t)
  }

  /** Thread `t`'s entries of a log, in log order. */
  ghost function By<T>(log: seq<(Tid, T)>, t: Tid): seq<T> {
    if log == [] then []
    else By(log[..|log| - 1], t) + if log[|log| - 1].0 == t then [log[|log| - 1].1] else []
  }

  /** The argument of thread `t`'s enqueue if it is still to be linked. */
  ghost function Unlinked<T>(s: State<T>, t: Tid): seq<T> {
    if Pending(PcOf(s, t)).Some? && Pending(PcOf(s, t)).value < |s.heap.nodes| then [s.heap.nodes[Pending(PcOf(s, t)).value].data] else []
  }

  lemma ByExtends<T>(log: seq<(Tid, T)>, e: (Tid, T), t: Tid)
    ensures By(log + [e], t) == By(log, t) + if e.0 == t then [e.1] else []
  {
    assert (log + [e])[..|log|] == log;
  }

  /** One label moves at most one value: from submitted to pending, from pending to linked. */
  lemma UnlinkedMoves<T>(s: State<T>, l: Label<T>, t: Tid)
    requires Inv(s)
    ensures
      var op := StepOp(s, l);
      var before, after := Unlinked(s, t), Unlinked(Apply(s, l), t);
      if l.tid != t then after == before
      else if PcOf(s, t).Idle? && l.action.CallEnqueue? then before == [] && after == [l.action.value] && op.None?
      else if op.Some? && op.value.Enq? then before == [op.value.value] && after == []
      else after == before
  {
    hide Inv, HeapInv, LogInv, PcInv, Apply, StepOp, Pending;
    if l.tid == t {
      UnlinkedMovesOwn(s, l);
    } else {
      StepKeepsInv(s, l);
      OthersStay(s, l);
      PendingNode(s, t);
    }
  }

  lemma UnlinkedMovesOwn<T>(s: State<T>, l: Label<T>)
    requires Inv(s)
    ensures
      var op, t := StepOp(s, l), l.tid;
      var before, after := Unlinked(s, t), Unlinked(Apply(s, l), t);
      if PcOf(s, t).Idle? && l.action.CallEnqueue? then before == [] && after == [l.action.value] && op.None?
      else if op.Some? && op.value.Enq? then before == [op.value.value] && after == []
      else after == before
  {
    hide Inv, HeapInv, PcInv, ApplyEnqueue, ApplyDequeue;
    PendingNode(s, l.tid);
    if l.action.Step? && IsEnqueue(PcOf(s, l.tid)) {
      UnlinkedMovesEnqueue(s, l.tid, l.action.strong);
    } else if l.action.Step? {
      DequeueLogs(s, l.tid, l.action.strong);
      StepMoves(s, l);
    }
  }

  ghost predicate MovesUnlinked<T>(s: State<T>, t: Tid, strong: bool) {
    var op, before, after := StepOp(s, Label(t, Step(strong))), Unlinked(s, t), Unlinked(ApplyEnqueue(s, t, PcOf(s, t), strong), t);
    if op.Some? && op.value.Enq? then before == [op.value.value] && after == [] else after == before
  }

  lemma UnlinkedMovesLink<T>(s: State<T>, t: Tid, strong: bool)
    requires Inv(s) && PcOf(s, t).EnqLink?
    ensures MovesUnlinked(s, t, strong)
  {
    hide Inv, ApplyEnqueue, BehindTail;
    LinkFacts(s, t);
    LinkOutcome(s, t, PcOf(s, t), strong);
  }

  lemma UnlinkedMovesEnqueue<T>(s: State<T>, t: Tid, strong: bool)
    requires Inv(s) && IsEnqueue(PcOf(s, t))
    ensures MovesUnlinked(s, t, strong)
  {
    if PcOf(s, t).EnqLink? {
      hide Inv, MovesUnlinked;
      UnlinkedMovesLink(s, t, strong);
    } else {
      hide Inv, HeapInv, PcInv, BehindTail, Precedes, LinkAfter, Version;
      PendingNode(s, t);
      TailSnapshotFacts(s, t, PcOf(s, t));
    }
  }

  lemma PendingNode<T>(s: State<T>, t: Tid)
    requires Inv(s)
    ensures Pending(PcOf(s, t)).Some? ==> Pending(PcOf(s, t)).value < |s.heap.nodes|
  {
    assert PendingInv(s);
    assert t in s.pcs ==> PcOf(s, t) == s.pcs[t];
    hide HeapInv, LogInv;
  }

  /** A label adds to one thread's links and pending value exactly the argument it submits. */
  lemma ArgumentIsKept<T>(s: State<T>, l: Label<T>, t: Tid)
    requires Inv(s)
    ensures By(Apply(s, l).links, t) + Unlinked(Apply(s, l), t) == By(s.links, t) + Unlinked(s, t) + Argument(s, l, t)
  {
    hide Inv, Apply, StepOp, Unlinked, By;
    UnlinkedMoves(s, l, t);
    StepLogs(s, l);
    OpKinds(s, l);
    if StepOp(s, l).Some? && StepOp(s, l).value.Enq? {
      ByExtends(s.links, (l.tid, StepOp(s, l).value.value), t);
    }
  }

  lemma ResultIsTaken<T>(s: State<T>, l: Label<T>, t: Tid)
    requires Inv(s)
    ensures By(Apply(s, l).takes, t) == By(s.takes, t) + Result(s, l, t)
  {
    hide Inv, Apply, StepOp, Returns, By;
    StepLogs(s, l);
    OpKinds(s, l);
    FoundIsTaken(s, l);
    if StepOp(s, l).Some? && StepOp(s, l).value.Deq? {
      ByExtends(s.takes, (l.tid, StepOp(s, l).value.value), t);
    }
  }

  lemma NothingYet<T>(r: Run<T>, t: Tid)
    ensures By(r.At(0).links, t) == [] && Unlinked(r.At(0), t) == [] && By(r.At(0).takes, t) == []
  {
  }

  /** What thread `t` has submitted is what it has linked, in its own order, then what it has still to link. */
  lemma {:induction false} ProducerOrder<T>(r: Run<T>, k: nat, t: Tid)
    requires k <= |r.schedule|
    ensures Submitted(r, k, t) == By(r.At(k).links, t) + Unlinked(r.At(k), t)
  {
    hide Inv, Apply, Unlinked, After, Argument, By;
    if k == 0 {
      NothingYet(r, t);
    } else {
      ProducerOrder(r, k - 1, t);
      RunKeepsInv(r, k - 1);
      Unfold(r, k - 1);
      ArgumentIsKept(r.At(k - 1), r.schedule[k - 1], t);
    }
  }

  lemma {:induction false} ConsumerOrder<T>(r: Run<T>, k: nat, t: Tid)
    requires k <= |r.schedule|
    ensures Received(r, k, t) == By(r.At(k).takes, t)
  {
    hide Inv, Apply, After, Result, By;
    if k == 0 {
      NothingYet(r, t);
    } else {
      ConsumerOrder(r, k - 1, t);
      RunKeepsInv(r, k - 1);
      Unfold(r, k - 1);
      ResultIsTaken(r.At(k - 1), r.schedule[k - 1], t);
    }
  }

  lemma FoundIsTaken<T>(s: State<T>, l: Label<T>)
    ensures Returns(s, l).Some? && Returns(s, l).value.Found? <==> StepOp(s, l).Some? && StepOp(s, l).value.Deq?
  {
  }

  /**
    Conservation over any run: the values in link order are the values in dequeue order followed by the
    contents; the link log, thread by thread, is what each producer submitted (less at most the value it is
    still linking); and the dequeue log, thread by thread, is what each consumer received.
   */
  lemma NothingLostOrDuplicated<T>(r: Run<T>, k: nat)
    requires k <= |r.schedule|
    ensures HeapInv(r.At(k).heap)
    ensures Values(r.At(k).links) == Values(r.At(k).takes) + Contents(r.At(k).heap)
    ensures forall t :: Submitted(r, k, t) == By(r.At(k).links, t) + Unlinked(r.At(k), t)
    ensures forall t :: Received(r, k, t) == By(r.At(k).takes, t)
  {
    RunKeepsInv(r, k);
    ContentsAreLogged(r.At(k));
    forall t ensures Submitted(r, k, t) == By(r.At(k).links, t) + Unlinked(r.At(k), t) { ProducerOrder(r, k, t); }
    forall t ensures Received(r, k, t) == By(r.At(k).takes, t) { ConsumerOrder(r, k, t); }
    hide Contents, HeapInv, Inv;
  }

  // ---------------------------------------------------------------- enqueue retries

  /** The retries counted so far are paid for by links and tail advances since the call began. */
  ghost predicate MeterInv<T>(h: Heap<T>, pc: Pc<T>, m: Meter)
    requires HeapInv(h) && PcInv(h, pc)
  {
    && m.start <= m.read <= Version(h)
    && m.retries <= (if pc.EnqReadTail? then Version(h) else m.read) - m.start
    && (pc.EnqReadNext? || pc.EnqCheck? || pc.EnqLink? || pc.EnqHelp? ==> m.read <= |h.chain| + h.pos[pc.oldTail])
    && (pc.EnqLink? || (pc.EnqCheck? && pc.tailNext.None?) ==> m.read <= 2 * h.pos[pc.oldTail] + 1)
  }

  ghost predicate Metered<T>(s: State<T>, t: Tid)
    requires Inv(s)
  {
    IsEnqueue(PcOf(s, t)) ==> MeterInv(s.heap, PcOf(s, t), MeterOf(s, t))
  }

  lemma MeterKeepsForOthers<T>(h: Heap<T>, k: Heap<T>, pc: Pc<T>, m: Meter)
    requires HeapInv(h) && HeapInv(k) && Grows(h, k) && PcInv(h, pc) && PcInv(k, pc) && MeterInv(h, pc, m)
    ensures MeterInv(k, pc, m)
  {
  }

  lemma MeterKeepsReading<T>(s: State<T>, t: Tid, pc: Pc<T>, strong: bool)
    requires Inv(s) && PcOf(s, t) == pc && (pc.EnqReadTail? || pc.EnqReadNext?) && PcInv(s.heap, pc) && MeterInv(s.heap, pc, MeterOf(s, t))
    ensures
      var r := ApplyEnqueue(s, t, pc, strong);
      r.heap == s.heap && PcInv(r.heap, PcOf(r, t)) && MeterInv(r.heap, PcOf(r, t), MeterOf(r, t))
  {
    hide Inv, HeapInv;
    InvParts(s);
    TailSnapshotFacts(s, t, pc);
    if pc.EnqReadNext? { NextRead(s.heap, pc.oldTail); }
  }

  /** A re-check fails because the tail has advanced past the snapshot. */
  lemma MeterKeepsChecking<T>(s: State<T>, t: Tid, pc: Pc<T>, strong: bool)
    requires Inv(s) && PcOf(s, t) == pc && pc.EnqCheck? && PcInv(s.heap, pc) && MeterInv(s.heap, pc, MeterOf(s, t))
    ensures
      var r := ApplyEnqueue(s, t, pc, strong);
      HeapInv(r.heap) && PcInv(r.heap, PcOf(r, t)) && MeterInv(r.heap, PcOf(r, t), MeterOf(r, t))
  {
    hide Inv, HeapInv;
    InvParts(s);
    if pc.oldTail != s.heap.tail { DistinctPositions(s.heap, pc.oldTail, s.heap.tail); }
  }

  /** A help fails because the tail has advanced, or advances it itself. */
  lemma MeterKeepsHelping<T>(s: State<T>, t: Tid, pc: Pc<T>, strong: bool)
    requires Inv(s) && PcOf(s, t) == pc && pc.EnqHelp? && PcInv(s.heap, pc) && MeterInv(s.heap, pc, MeterOf(s, t))
    ensures
      var r := ApplyEnqueue(s, t, pc, strong);
      HeapInv(r.heap) && PcInv(r.heap, PcOf(r, t)) && MeterInv(r.heap, PcOf(r, t), MeterOf(r, t))
  {
    hide Inv, HeapInv, Grows;
    InvParts(s);
    if pc.oldTail != s.heap.tail {
      DistinctPositions(s.heap, pc.oldTail, s.heap.tail);
    } else {
      TailKeeps(s.heap, pc.next);
    }
  }

  /** A link that fails without spuriousness failed because somebody else linked since the tail was read. */
  lemma FailedLinkIsPaid<T>(h: Heap<T>, pc: Pc<T>, m: Meter)
    requires HeapInv(h) && pc.EnqLink? && PcInv(h, pc) && MeterInv(h, pc, m)
    ensures pc.oldTail < |h.nodes|
    ensures h.nodes[pc.oldTail].next.Some? ==> m.retries + 1 <= Version(h) - m.start
  {
    NextRead(h, pc.oldTail);
    hide HeapInv;
  }

  /** The three ways the link step can go. */
  lemma LinkOutcome<T>(s: State<T>, t: Tid, pc: Pc<T>, strong: bool)
    requires pc.EnqLink? && pc.oldTail < |s.heap.nodes| && pc.node < |s.heap.nodes|
    ensures
      var r, m, failed := ApplyEnqueue(s, t, pc, strong), MeterOf(s, t), s.heap.nodes[pc.oldTail].next.Some?;
      if !failed && strong then
        r.heap == LinkAfter(s.heap, pc.oldTail, pc.node) && PcOf(r, t) == EnqSwing(pc.node, pc.oldTail) && MeterOf(r, t) == m
      else
        r.heap == s.heap && PcOf(r, t) == EnqReadTail(pc.node) && MeterOf(r, t) == m.(retries := m.retries + if failed then 1 else 0)
  {
  }

  lemma VersionGrows<T>(h: Heap<T>, k: Heap<T>)
    requires Grows(h, k)
    ensures Version(h) <= Version(k)
  {
  }

  lemma MeterKeepsLinking<T>(s: State<T>, t: Tid, pc: Pc<T>, strong: bool)
    requires Inv(s) && PcOf(s, t) == pc && pc.EnqLink? && PcInv(s.heap, pc) && MeterInv(s.heap, pc, MeterOf(s, t))
    requires Inv(ApplyEnqueue(s, t, pc, strong)) && Grows(s.heap, ApplyEnqueue(s, t, pc, strong).heap)
    ensures
      var r := ApplyEnqueue(s, t, pc, strong);
      IsEnqueue(PcOf(r, t)) && PcInv(r.heap, PcOf(r, t)) && MeterInv(r.heap, PcOf(r, t), MeterOf(r, t))
  {
    hide ApplyEnqueue, Inv, HeapInv, PcInv, Grows, Version, PcOf, MeterOf, LinkAfter, BehindTail;
    var r := ApplyEnqueue(s, t, pc, strong);
    InvParts(s);
    FailedLinkIsPaid(s.heap, pc, MeterOf(s, t));
    LinkFacts(s, t);
    LinkOutcome(s, t, pc, strong);
    InvParts(r);
    SnapshotFacts(r, t, PcOf(r, t));
    VersionGrows(s.heap, r.heap);
  }

  lemma MeterKeepsOwn<T>(s: State<T>, l: Label<T>, pc: Pc<T>)
    requires Inv(s) && PcOf(s, l.tid) == pc && Inv(Apply(s, l)) && Grows(s.heap, Apply(s, l).heap)
    requires IsEnqueue(pc) && PcInv(s.heap, pc) && MeterInv(s.heap, pc, MeterOf(s, l.tid))
    ensures Metered(Apply(s, l), l.tid)
  {
    hide Inv, HeapInv, PcInv, Grows, MeterInv, ApplyEnqueue, ApplyDequeue, Version, MeterOf, PcOf;
    if l.action.Step? {
      assert Apply(s, l) == ApplyEnqueue(s, l.tid, pc, l.action.strong);
      hide Apply;
      if pc.EnqLink? { MeterKeepsLinking(s, l.tid, pc, l.action.strong); }
      else if pc.EnqCheck? { MeterKeepsChecking(s, l.tid, pc, l.action.strong); }
      else if pc.EnqHelp? { MeterKeepsHelping(s, l.tid, pc, l.action.strong); }
      else if pc.EnqSwing? { EnqueueMoves(s, l.tid, l.action.strong); }
      else { MeterKeepsReading(s, l.tid, pc, l.action.strong); }
    }
  }

  lemma MeterKeeps<T>(s: State<T>, l: Label<T>, t: Tid)
    requires Inv(s) && Metered(s, t)
    ensures Inv(Apply(s, l)) && Metered(Apply(s, l), t)
  {
    hide Inv, HeapInv, PendingInv, LogInv, Grows, PcInv, MeterInv, MeterOf, Apply, ApplyEnqueue, ApplyDequeue;
    var r, pc := Apply(s, l), PcOf(s, t);
    StepKeepsInv(s, l);
    InvParts(s);
    InvParts(r);
    SnapshotFacts(s, t, pc);
    SnapshotFacts(r, t, PcOf(r, t));
    OthersStay(s, l);
    if l.tid != t {
      MeterOfOthers(s, l, t);
      if IsEnqueue(pc) { MeterKeepsForOthers(s.heap, r.heap, pc, MeterOf(s, t)); }
    } else if IsEnqueue(pc) {
      MeterKeepsOwn(s, l, pc);
    } else if pc.Idle? && l.action.CallEnqueue? {
      CallMeter(s, l);
    } else {
      StepMoves(s, l);
    }
  }

  lemma EnqueueMeterFrame<T>(s: State<T>, t: Tid, pc: Pc<T>, strong: bool, u: Tid)
    requires u != t
    ensures MeterOf(ApplyEnqueue(s, t, pc, strong), u) == MeterOf(s, u)
  {
  }

  lemma DequeueMeterFrame<T>(s: State<T>, t: Tid, pc: Pc<T>, strong: bool)
    ensures ApplyDequeue(s, t, pc, strong).meters == s.meters
  {
  }

  lemma MeterOfOthers<T>(s: State<T>, l: Label<T>, t: Tid)
    requires l.tid != t
    ensures MeterOf(Apply(s, l), t) == MeterOf(s, t)
  {
    hide ApplyEnqueue, ApplyDequeue;
    if l.action.Step? {
      EnqueueMeterFrame(s, l.tid, PcOf(s, l.tid), l.action.strong, t);
      DequeueMeterFrame(s, l.tid, PcOf(s, l.tid), l.action.strong);
    }
  }

  /** A weak compare-and-swap of the enqueue loop that fails although it could have succeeded. */
  ghost predicate SpuriousFailure<T>(s: State<T>, l: Label<T>) {
    var pc := PcOf(s, l.tid);
    && l.action == Step(false)
    && ((pc.EnqLink? && pc.oldTail < |s.heap.nodes| && s.heap.nodes[pc.oldTail].next.None?) || (pc.EnqHelp? && s.heap.tail == pc.oldTail))
  }

  /** The enqueue of `l.tid` goes back to the top of its loop, and not because of a spurious failure. */
  ghost predicate GenuineRetry<T>(s: State<T>, l: Label<T>) {
    IsEnqueue(PcOf(s, l.tid)) && l.action.Step? && PcOf(Apply(s, l), l.tid).EnqReadTail? && !SpuriousFailure(s, l)
  }

  /** Whoever retries without a spurious failure does so because of a link or a tail advance since its tail read. */
  lemma RetryIsPaid<T>(s: State<T>, l: Label<T>)
    requires Inv(s) && Metered(s, l.tid) && GenuineRetry(s, l)
    ensures Version(Apply(s, l).heap) > MeterOf(s, l.tid).read
  {
    hide Inv, HeapInv, ApplyEnqueue, ApplyDequeue, MeterInv, Version, SpuriousFailure;
    SnapshotFacts(s, l.tid, PcOf(s, l.tid));
    StepIsPaid(s, l.tid, l.action.strong);
  }

  lemma StepIsPaid<T>(s: State<T>, t: Tid, strong: bool)
    requires Inv(s) && IsEnqueue(PcOf(s, t)) && PcInv(s.heap, PcOf(s, t)) && MeterInv(s.heap, PcOf(s, t), MeterOf(s, t))
    requires PcOf(ApplyEnqueue(s, t, PcOf(s, t), strong), t).EnqReadTail? && !SpuriousFailure(s, Label(t, Step(strong)))
    ensures Version(ApplyEnqueue(s, t, PcOf(s, t), strong).heap) > MeterOf(s, t).read
  {
    hide Inv, HeapInv;
    InvParts(s);
    TailSnapshotFacts(s, t, PcOf(s, t));
    if PcOf(s, t).EnqLink? {
      LinkFacts(s, t);
      NextRead(s.heap, PcOf(s, t).oldTail);
    } else if PcOf(s, t).oldTail != s.heap.tail {
      DistinctPositions(s.heap, PcOf(s, t).oldTail, s.heap.tail);
    }
  }

  ghost function Retries<T>(r: Run<T>, i: nat, k: nat, t: Tid): nat
    requires i <= k <= |r.schedule|
    decreases k
  {
    if k == i then 0
    else Retries(r, i, k - 1, t) + if r.schedule[k - 1].tid == t && GenuineRetry(r.At(k - 1), r.schedule[k - 1]) then 1 else 0
  }

  /** The step of an enqueue counts in its meter exactly when it is a genuine retry. */
  ghost predicate CountsRight<T>(s: State<T>, t: Tid, strong: bool) {
    var r := ApplyEnqueue(s, t, PcOf(s, t), strong);
    && MeterOf(r, t).start == MeterOf(s, t).start
    && MeterOf(r, t).retries == MeterOf(s, t).retries + if PcOf(r, t).EnqReadTail? && !SpuriousFailure(s, Label(t, Step(strong))) then 1 else 0
  }

  lemma LinkStepCounts<T>(s: State<T>, t: Tid, strong: bool)
    requires Inv(s) && PcOf(s, t).EnqLink?
    ensures CountsRight(s, t, strong)
  {
    hide Inv, ApplyEnqueue, MeterOf, LinkAfter, BehindTail;
    LinkFacts(s, t);
    LinkOutcome(s, t, PcOf(s, t), strong);
  }

  lemma TailStepCounts<T>(s: State<T>, t: Tid, strong: bool)
    requires PcOf(s, t).EnqCheck? || PcOf(s, t).EnqHelp?
    ensures CountsRight(s, t, strong)
  {
    hide Version, LinkAfter;
  }

  lemma OtherStepCounts<T>(s: State<T>, t: Tid, strong: bool)
    requires PcOf(s, t).EnqReadTail? || PcOf(s, t).EnqReadNext? || PcOf(s, t).EnqSwing?
    ensures CountsRight(s, t, strong)
  {
    hide SpuriousFailure, LinkAfter;
  }

  lemma MeterCounts<T>(s: State<T>, l: Label<T>)
    requires Inv(s) && IsEnqueue(PcOf(s, l.tid))
    ensures
      var m, n := MeterOf(s, l.tid), MeterOf(Apply(s, l), l.tid);
      n.start == m.start && n.retries == m.retries + if GenuineRetry(s, l) then 1 else 0
  {
    hide Inv, ApplyEnqueue, ApplyDequeue, SpuriousFailure, MeterOf;
    if l.action.Step? {
      if PcOf(s, l.tid).EnqLink? { LinkStepCounts(s, l.tid, l.action.strong); }
      else if PcOf(s, l.tid).EnqCheck? || PcOf(s, l.tid).EnqHelp? { TailStepCounts(s, l.tid, l.action.strong); }
      else { OtherStepCounts(s, l.tid, l.action.strong); }
    }
  }

  /** One label, seen from an enqueue of thread `t`. */
  lemma MeterStep<T>(s: State<T>, l: Label<T>, t: Tid)
    requires Inv(s) && Metered(s, t) && IsEnqueue(PcOf(s, t))
    ensures Inv(Apply(s, l)) && Metered(Apply(s, l), t)
    ensures MeterOf(Apply(s, l), t).start == MeterOf(s, t).start
    ensures MeterOf(Apply(s, l), t).retries == MeterOf(s, t).retries + if l.tid == t && GenuineRetry(s, l) then 1 else 0
  {
    hide Inv, Apply, Metered, GenuineRetry, MeterOf, PcOf;
    MeterKeeps(s, l, t);
    if l.tid == t { MeterCounts(s, l); } else { MeterOfOthers(s, l, t); }
  }

  lemma {:induction false} MeterOfCall<T>(r: Run<T>, i: nat, k: nat, t: Tid)
    requires i < k <= |r.schedule| && Starts(r, i, t) && InCall(r, i, k, t) && r.schedule[i].action.CallEnqueue?
    ensures Inv(r.At(k)) && Metered(r.At(k), t)
    ensures MeterOf(r.At(k), t).start == Version(r.At(i).heap)
    ensures MeterOf(r.At(k), t).retries == Retries(r, i, k, t)
    decreases k
  {
    hide Inv, Apply, After, Metered, GenuineRetry, MeterOf, PcOf, Version;
    RunKeepsInv(r, k - 1);
    Unfold(r, k - 1);
    if k - 1 == i {
      CallMeter(r.At(i), r.schedule[i]);
      assert Retries(r, i, i, t) == 0;
    } else {
      MeterOfCall(r, i, k - 1, t);
      assert IsEnqueue(r.Pc(k - 1, t));
      MeterStep(r.At(k - 1), r.schedule[k - 1], t);
    }
  }

  lemma CallMeter<T>(s: State<T>, l: Label<T>)
    requires Inv(s) && PcOf(s, l.tid).Idle? && l.action.CallEnqueue?
    ensures Inv(Apply(s, l)) && Metered(Apply(s, l), l.tid) && MeterOf(Apply(s, l), l.tid) == Meter(Version(s.heap), Version(s.heap), 0)
    ensures !GenuineRetry(s, l)
  {
    StepKeepsInv(s, l);
    hide Inv, HeapInv, Grows, ApplyEnqueue, ApplyDequeue;
    InvParts(Apply(s, l));
  }

  /**
    Enqueue progress: of the retries one call has made by step `k`, those no spurious failure caused number at
    most 2n + 1, where n counts the links of the whole queue since the call began; starting from the empty,
    untouched queue the bound is 2n for the n links of the run.
   */
  lemma EnqueueRetryBound<T>(r: Run<T>, i: nat, k: nat, t: Tid)
    requires i < k <= |r.schedule| && Starts(r, i, t) && InCall(r, i, k, t) && r.schedule[i].action.CallEnqueue?
    ensures |r.At(i).links| <= |r.At(k).links|
    ensures Retries(r, i, k, t) <= 2 * (|r.At(k).links| - |r.At(i).links|) + 1
    ensures Retries(r, i, k, t) <= 2 * |r.At(k).links|
  {
    MeterOfCall(r, i, k, t);
    RunKeepsInv(r, i);
    RunGrows(r, i, k);
    assert IsEnqueue(r.Pc(k, t));
    assert r.At(k).heap.pos[r.At(k).heap.tail] < |r.At(k).heap.chain|;
    hide After, Apply;
  }

  // ---------------------------------------------------------------- dequeue retries

  /** How far head and tail have come together. */
  ghost function Reach<T>(h: Heap<T>): nat
    requires HeapInv(h)
  {
    h.pos[h.head] + h.pos[h.tail]
  }

  /** The same for the snapshots a dequeuer still holds. */
  ghost function Seen<T>(h: Heap<T>, pc: Pc<T>): nat
    requires HeapInv(h) && PcInv(h, pc)
  {
    match pc
    case DeqReadTail(oldHead) => h.pos[oldHead] + h.pos[h.tail]
    case DeqReadNext(oldHead, tailSeen) => h.pos[oldHead] + h.pos[tailSeen]
    case DeqCheck(oldHead, tailSeen, _) => h.pos[oldHead] + h.pos[tailSeen]
    case DeqHelp(oldHead, _) => 2 * h.pos[oldHead]
    case DeqReadData(oldHead, _) => h.pos[oldHead] + h.pos[h.tail]
    case DeqCas(oldHead, _, _) => h.pos[oldHead] + h.pos[h.tail]
    case _ => Reach(h)
  }

  predicate IsDequeue<T>(pc: Pc<T>) {
    !pc.Idle? && !IsEnqueue(pc)
  }

  /** A dequeue goes back to the top of its loop (lines 61, 66, 69). */
  ghost predicate DequeueRetry<T>(s: State<T>, l: Label<T>) {
    l.action.Step? && IsDequeue(PcOf(s, l.tid)) && PcOf(Apply(s, l), l.tid).DeqReadHead?
  }

  /** A weak compare-and-swap of the dequeue loop that fails although it could have succeeded. */
  ghost predicate DequeueSpurious<T>(s: State<T>, l: Label<T>) {
    var pc := PcOf(s, l.tid);
    && l.action == Step(false)
    && ((pc.DeqCas? && s.heap.head == pc.oldHead) || (pc.DeqHelp? && s.helps && s.heap.tail == pc.oldHead))
  }

  /** Line 66 on the local variable, while the shared tail lags. */
  ghost predicate LocalHelp<T>(s: State<T>, l: Label<T>) {
    var pc := PcOf(s, l.tid);
    l.action.Step? && pc.DeqHelp? && !s.helps && s.heap.tail == pc.oldHead
  }

  ghost predicate PaidRetry<T>(s: State<T>, l: Label<T>) {
    DequeueRetry(s, l) && !DequeueSpurious(s, l) && !LocalHelp(s, l)
  }

  /** A weak compare-and-swap that fails spuriously changes no memory, and sends its thread back to the top of its loop. */
  lemma MissesChangeNothing<T>(s: State<T>, l: Label<T>)
    requires Inv(s) && l.action == Step(false)
    ensures Apply(s, l).heap == s.heap && Apply(s, l).links == s.links && Apply(s, l).takes == s.takes
    ensures SpuriousFailure(s, l) ==> PcOf(Apply(s, l), l.tid) == EnqReadTail(PcOf(s, l.tid).node)
    ensures DequeueSpurious(s, l) ==> PcOf(Apply(s, l), l.tid) == DeqReadHead
  {
    hide Inv, HeapInv, PcInv, ApplyEnqueue, ApplyDequeue;
    if IsEnqueue(PcOf(s, l.tid)) { EnqueueMiss(s, l.tid); } else { DequeueMiss(s, l.tid); }
  }

  lemma EnqueueMiss<T>(s: State<T>, t: Tid)
    requires Inv(s) && IsEnqueue(PcOf(s, t))
    ensures
      var r := ApplyEnqueue(s, t, PcOf(s, t), false);
      && r.heap == s.heap && r.links == s.links && r.takes == s.takes
      && (SpuriousFailure(s, Label(t, Step(false))) ==> PcOf(r, t) == EnqReadTail(PcOf(s, t).node))
  {
    hide Inv, HeapInv, BehindTail, Version;
    if PcOf(s, t).EnqLink? {
      LinkFacts(s, t);
      LinkOutcome(s, t, PcOf(s, t), false);
    }
  }

  lemma DequeueMiss<T>(s: State<T>, t: Tid)
    requires !IsEnqueue(PcOf(s, t))
    ensures
      var r := ApplyDequeue(s, t, PcOf(s, t), false);
      && r.heap == s.heap && r.links == s.links && r.takes == s.takes
      && (DequeueSpurious(s, Label(t, Step(false))) ==> PcOf(r, t) == DeqReadHead)
  {
  }

  lemma SeenGrows<T>(h: Heap<T>, k: Heap<T>, pc: Pc<T>)
    requires HeapInv(h) && HeapInv(k) && Grows(h, k) && PcInv(h, pc) && PcInv(k, pc)
    ensures Seen(h, pc) <= Seen(k, pc)
  {
    hide HeapInv;
  }

  lemma SeenReading<T>(s: State<T>, t: Tid, pc: Pc<T>, strong: bool)
    requires Inv(s) && PcOf(s, t) == pc && (pc.DeqReadHead? || pc.DeqReadTail? || pc.DeqReadNext? || pc.DeqReadData?)
    requires HeapInv(s.heap) && PcInv(s.heap, pc)
    ensures
      var r := ApplyDequeue(s, t, pc, strong);
      && HeapInv(r.heap) && PcInv(r.heap, PcOf(r, t))
      && !PcOf(r, t).DeqReadHead? && Seen(r.heap, PcOf(r, t)) == Seen(s.heap, pc)
  {
    hide Inv, HeapInv, BehindTail, Precedes;
    SnapshotFacts(s, t, pc);
    ReadStepKeeps(s, t, pc, strong);
    var r := ApplyDequeue(s, t, pc, strong);
    SnapshotFacts(r, t, PcOf(r, t));
  }

  /** Lines 61-64: a re-check fails because the head has advanced past the snapshot. */
  lemma SeenChecking<T>(s: State<T>, t: Tid, pc: Pc<T>, strong: bool)
    requires Inv(s) && PcOf(s, t) == pc && pc.DeqCheck?
    requires HeapInv(s.heap) && PcInv(s.heap, pc)
    ensures
      var r := ApplyDequeue(s, t, pc, strong);
      && HeapInv(r.heap) && PcInv(r.heap, PcOf(r, t))
      && (PcOf(r, t).Idle? || Seen(r.heap, PcOf(r, t)) >= Seen(s.heap, pc))
      && (PcOf(r, t).DeqReadHead? ==> Seen(r.heap, PcOf(r, t)) > Seen(s.heap, pc))
  {
    hide Inv, HeapInv;
    if pc.oldHead != s.heap.head { DistinctPositions(s.heap, pc.oldHead, s.heap.head); }
    SnapshotFacts(s, t, pc);
  }

  /** Line 66: the tail has advanced, or advances now, or stays because of a miss or a local help. */
  lemma SeenHelping<T>(s: State<T>, t: Tid, pc: Pc<T>, strong: bool)
    requires Inv(s) && PcOf(s, t) == pc && pc.DeqHelp?
    requires HeapInv(s.heap) && PcInv(s.heap, pc)
    ensures
      var r := ApplyDequeue(s, t, pc, strong);
      && HeapInv(r.heap) && PcInv(r.heap, PcOf(r, t)) && PcOf(r, t).DeqReadHead?
      && Seen(r.heap, PcOf(r, t)) >= Seen(s.heap, pc)
      && (Seen(r.heap, PcOf(r, t)) > Seen(s.heap, pc) <==> s.heap.tail != pc.oldHead || (s.helps && strong))
  {
    hide Inv, HeapInv, Grows;
    LinkedIsCovered(s.heap, pc.oldHead, pc.first);
    if pc.oldHead != s.heap.tail {
      DistinctPositions(s.heap, pc.oldHead, s.heap.tail);
    } else {
      TailKeeps(s.heap, pc.first);
    }
  }

  /** A node with a successor is at or before the tail, and so is the head. */
  lemma LinkedIsCovered<T>(h: Heap<T>, n: NodeId, next: NodeId)
    requires HeapInv(h) && Precedes(h, n, next)
    ensures BehindTail(h, n) && BehindTail(h, h.head)
  {
  }

  /** Line 69: the head has advanced past the snapshot, or stays because of a miss. */
  lemma SeenTaking<T>(s: State<T>, t: Tid, pc: Pc<T>, strong: bool)
    requires Inv(s) && PcOf(s, t) == pc && pc.DeqCas?
    requires HeapInv(s.heap) && PcInv(s.heap, pc)
    ensures
      var r := ApplyDequeue(s, t, pc, strong);
      PcOf(r, t).Idle? ||
      (&& HeapInv(r.heap) && PcInv(r.heap, PcOf(r, t)) && PcOf(r, t).DeqReadHead?
       && Seen(r.heap, PcOf(r, t)) >= Seen(s.heap, pc)
       && (Seen(r.heap, PcOf(r, t)) > Seen(s.heap, pc) <==> s.heap.head != pc.oldHead)
       && (s.heap.head == pc.oldHead ==> !strong))
  {
    hide Inv, HeapInv;
    if pc.oldHead != s.heap.head { DistinctPositions(s.heap, pc.oldHead, s.heap.head); }
  }

  /** A dequeuer's own step: what it has seen never shrinks, and on a retry it grows exactly if the retry is paid. */
  lemma SeenOwnStep<T>(s: State<T>, t: Tid, strong: bool)
    requires Inv(s) && IsDequeue(PcOf(s, t)) && HeapInv(s.heap) && PcInv(s.heap, PcOf(s, t))
    ensures
      var l, r := Label(t, Step(strong)), ApplyDequeue(s, t, PcOf(s, t), strong);
      PcOf(r, t).Idle? ||
      (&& HeapInv(r.heap) && PcInv(r.heap, PcOf(r, t))
       && Seen(r.heap, PcOf(r, t)) >= Seen(s.heap, PcOf(s, t))
       && (PcOf(r, t).DeqReadHead? ==>
             (Seen(r.heap, PcOf(r, t)) > Seen(s.heap, PcOf(s, t)) <==> !DequeueSpurious(s, l) && !LocalHelp(s, l))))
  {
    hide Inv, HeapInv, PcInv, Seen, ApplyDequeue;
    var pc := PcOf(s, t);
    NotFaulty(s, t);
    if pc.DeqCheck? { SeenChecking(s, t, pc, strong); }
    else if pc.DeqHelp? { SeenHelping(s, t, pc, strong); }
    else if pc.DeqCas? { SeenTaking(s, t, pc, strong); }
    else { SeenReading(s, t, pc, strong); }
  }

  /** A dequeue retry is paid for by an advance of head or tail past the snapshots, if and only if it is no miss and no local help. */
  lemma DequeueRetryIsPaidIff<T>(s: State<T>, l: Label<T>)
    requires Inv(s) && DequeueRetry(s, l)
    ensures HeapInv(s.heap) && PcInv(s.heap, PcOf(s, l.tid)) && HeapInv(Apply(s, l).heap)
    ensures Reach(Apply(s, l).heap) > Seen(s.heap, PcOf(s, l.tid)) <==> !DequeueSpurious(s, l) && !LocalHelp(s, l)
  {
    hide Inv, HeapInv, PcInv, ApplyDequeue, ApplyEnqueue, DequeueSpurious, LocalHelp;
    InvParts(s);
    SnapshotFacts(s, l.tid, PcOf(s, l.tid));
    SeenOwnStep(s, l.tid, l.action.strong);
  }

  /** One label, seen from a dequeue of thread `t` that goes on. */
  lemma SeenStep<T>(s: State<T>, l: Label<T>, t: Tid)
    requires Inv(s) && IsDequeue(PcOf(s, t)) && IsDequeue(PcOf(Apply(s, l), t))
    ensures Inv(Apply(s, l)) && HeapInv(s.heap) && PcInv(s.heap, PcOf(s, t))
    ensures HeapInv(Apply(s, l).heap) && PcInv(Apply(s, l).heap, PcOf(Apply(s, l), t))
    ensures Seen(Apply(s, l).heap, PcOf(Apply(s, l), t)) >= Seen(s.heap, PcOf(s, t)) + if l.tid == t && PaidRetry(s, l) then 1 else 0
  {
    hide Inv, HeapInv, PcInv, Seen, Grows, ApplyDequeue, ApplyEnqueue, DequeueSpurious, LocalHelp;
    var r := Apply(s, l);
    StepKeepsInv(s, l);
    InvParts(s);
    InvParts(r);
    SnapshotFacts(s, t, PcOf(s, t));
    SnapshotFacts(r, t, PcOf(r, t));
    if l.tid == t && l.action.Step? {
      SeenOwnStep(s, t, l.action.strong);
    } else {
      OthersStay(s, l);
      SeenGrows(s.heap, r.heap, PcOf(s, t));
    }
  }

  /** The retries of thread `t` in the steps i..k-1 that neither a miss nor a local help caused. */
  ghost function PaidRetries<T>(r: Run<T>, i: nat, k: nat, t: Tid): nat
    requires i <= k <= |r.schedule|
    decreases k
  {
    if k == i then 0
    else PaidRetries(r, i, k - 1, t) + if r.schedule[k - 1].tid == t && PaidRetry(r.At(k - 1), r.schedule[k - 1]) then 1 else 0
  }

  lemma DequeueBegins<T>(s: State<T>, l: Label<T>)
    requires Inv(s) && PcOf(s, l.tid).Idle? && l.action.CallDequeue?
    ensures Inv(Apply(s, l)) && HeapInv(s.heap) && Apply(s, l).heap == s.heap && PcOf(Apply(s, l), l.tid) == DeqReadHead
    ensures !PaidRetry(s, l)
  {
    StepKeepsInv(s, l);
  }

  lemma {:induction false} SeenOfCall<T>(r: Run<T>, i: nat, k: nat, t: Tid)
    requires i < k <= |r.schedule| && Starts(r, i, t) && InCall(r, i, k, t) && r.schedule[i].action.CallDequeue?
    ensures Inv(r.At(k)) && HeapInv(r.At(i).heap) && HeapInv(r.At(k).heap) && PcInv(r.At(k).heap, r.Pc(k, t))
    ensures PaidRetries(r, i, k, t) <= Seen(r.At(k).heap, r.Pc(k, t)) - Reach(r.At(i).heap)
    decreases k
  {
    hide Inv, HeapInv, PcInv, Seen, Reach, Apply, After, PaidRetry, PcOf;
    RunKeepsInv(r, i);
    RunKeepsInv(r, k);
    RunKeepsInv(r, k - 1);
    Unfold(r, k - 1);
    if k - 1 == i {
      DequeueBegins(r.At(i), r.schedule[i]);
      SeenAtTop(r.At(k).heap);
      assert PaidRetries(r, i, i, t) == 0;
    } else {
      SeenOfCall(r, i, k - 1, t);
      assert IsDequeue(r.Pc(k - 1, t)) && IsDequeue(r.Pc(k, t));
      SeenStep(r.At(k - 1), r.schedule[k - 1], t);
    }
  }

  lemma SeenAtTop<T>(h: Heap<T>)
    requires HeapInv(h)
    ensures PcInv(h, DeqReadHead) && Seen(h, DeqReadHead) == Reach(h)
  {
  }

  lemma SeenIsReached<T>(h: Heap<T>, pc: Pc<T>)
    requires HeapInv(h) && PcInv(h, pc)
    ensures Seen(h, pc) <= Reach(h)
  {
  }

  /** The head has passed one node for each value taken; the tail is at the last link or one short of it. */
  lemma ReachIsLogged<T>(s: State<T>)
    requires Inv(s)
    ensures HeapInv(s.heap) && |s.takes| + |s.links| - 1 <= Reach(s.heap) <= |s.takes| + |s.links|
  {
    assert HeapInv(s.heap);
    NextRead(s.heap, s.heap.tail);
  }

  /**
    Dequeue progress: of the retries one call has made by step `k`, those that neither a spurious failure nor the
    local help of line 66 caused are at most as many as the advances of head and tail since the call began, so at
    most one more than the values taken and linked since then.
   */
  lemma DequeueRetryBound<T>(r: Run<T>, i: nat, k: nat, t: Tid)
    requires i < k <= |r.schedule| && Starts(r, i, t) && InCall(r, i, k, t) && r.schedule[i].action.CallDequeue?
    ensures HeapInv(r.At(i).heap) && HeapInv(r.At(k).heap)
    ensures PaidRetries(r, i, k, t) <= Reach(r.At(k).heap) - Reach(r.At(i).heap)
    ensures PaidRetries(r, i, k, t) <= (|r.At(k).takes| - |r.At(i).takes|) + (|r.At(k).links| - |r.At(i).links|) + 1
  {
    hide Inv, HeapInv, PcInv, Seen, Reach, After, PcOf;
    RunKeepsInv(r, i);
    SeenOfCall(r, i, k, t);
    SeenIsReached(r.At(k).heap, r.Pc(k, t));
    ReachIsLogged(r.At(i));
    ReachIsLogged(r.At(k));
  }
}
