/**
  The helping step of dequeue (line 66).  Written as it stands it acts on a local variable; then a tail that
  lags behind the only element keeps every dequeue in its loop.  And obstruction freedom: exactly when a thread
  that is left alone, wherever it stands in its call, gets out of it, in how many steps, and with what effect.
 */
module LockFreeQueueSolo {
  import opened Wrappers
  import opened LockFreeQueue
  import opened LockFreeQueueRuns
  import opened LockFreeQueueCalls
  import opened LockFreeQueueProgress

  /** The tail still points at the dummy although an element has been linked after it. */
  ghost predicate Lagging<T>(h: Heap<T>)
    requires HeapInv(h)
  {
    h.head == h.tail && Contents(h) != []
  }

  /** Where a dequeuer can be while the tail lags and the help is local: nowhere near a return. */
  ghost predicate Spinning<T>(h: Heap<T>, pc: Pc<T>)
    requires h.head < |h.nodes|
  {
    match pc
    case DeqReadHead => true
    case DeqReadTail(oldHead) => oldHead == h.head
    case DeqReadNext(oldHead, tailSeen) => oldHead == h.head == tailSeen
    case DeqCheck(oldHead, tailSeen, headNext) => oldHead == h.head == tailSeen && headNext == h.nodes[h.head].next
    case DeqHelp(oldHead, first) => oldHead == h.head && h.nodes[h.head].next == Some(first)
    case _ => false
  }

  /** The memory has a lagging tail, the help is local, and every busy thread is a spinning dequeuer. */
  ghost predicate Starved<T>(s: State<T>) {
    && !s.helps
    && s.heap.head == s.heap.tail < |s.heap.nodes| && s.heap.nodes[s.heap.head].next.Some?
    && (forall t :: t in s.pcs ==> s.pcs[t].Idle? || Spinning(s.heap, s.pcs[t]))
  }

  /** One step of a spinning dequeuer: memory as before, and it spins on. */
  lemma SpinningStep<T>(s: State<T>, t: Tid, strong: bool)
    requires Starved(s) && Spinning(s.heap, PcOf(s, t))
    ensures
      var r := ApplyDequeue(s, t, PcOf(s, t), strong);
      && r.heap == s.heap && r.takes == s.takes && r.helps == s.helps
      && r.pcs == s.pcs[t := r.pcs[t]] && Spinning(s.heap, r.pcs[t])
  {
    hide Starved;
    StarvedMemory(s);
  }

  lemma StarvedMemory<T>(s: State<T>)
    requires Starved(s)
    ensures !s.helps && s.heap.head == s.heap.tail < |s.heap.nodes| && s.heap.nodes[s.heap.head].next.Some?
  {
  }

  /** Only the counter of `t` moves, and it goes on spinning. */
  lemma SpinsOn<T>(s: State<T>, r: State<T>, t: Tid, pc: Pc<T>)
    requires Starved(s) && Spinning(s.heap, pc)
    requires r.heap == s.heap && r.helps == s.helps && r.pcs == s.pcs[t := pc]
    ensures Starved(r)
    ensures forall u :: PcOf(r, u).Idle? <==> PcOf(s, u).Idle? && u != t
  {
  }

  lemma StarvedStep<T>(s: State<T>, l: Label<T>)
    requires Starved(s) && !l.action.CallEnqueue?
    ensures Starved(Apply(s, l)) && Apply(s, l).heap == s.heap && Apply(s, l).takes == s.takes
    ensures forall t :: PcOf(Apply(s, l), t).Idle? <==> PcOf(s, t).Idle? && l != Label(t, CallDequeue)
  {
    hide ApplyEnqueue, ApplyDequeue, Starved, Spinning;
    StarvedMemory(s);
    StarvedThread(s, l.tid);
    if l.action.CallDequeue? {
      if PcOf(s, l.tid).Idle? { SpinsOn(s, Apply(s, l), l.tid, DeqReadHead); }
    } else if PcOf(s, l.tid).Idle? {
      IdleStays(s, l.tid, l.action.strong);
    } else {
      SpinningStep(s, l.tid, l.action.strong);
      SpinsOn(s, Apply(s, l), l.tid, Apply(s, l).pcs[l.tid]);
    }
  }

  lemma StarvedThread<T>(s: State<T>, t: Tid)
    requires Starved(s)
    ensures PcOf(s, t).Idle? || (Spinning(s.heap, PcOf(s, t)) && !IsEnqueue(PcOf(s, t)))
    ensures Spinning(s.heap, DeqReadHead)
  {
  }

  /**
    With the local help, once the tail lags behind a lone element no schedule of dequeues, however long, ever
    takes a value, and no dequeue that was called ever returns.
   */
  lemma {:induction false} LaggingTailStarvesDequeues<T>(s: State<T>, schedule: seq<Label<T>>)
    requires Starved(s) && forall i :: 0 <= i < |schedule| ==> !schedule[i].action.CallEnqueue?
    ensures Starved(After(s, schedule)) && After(s, schedule).heap == s.heap && After(s, schedule).takes == s.takes
    ensures forall t :: PcOf(After(s, schedule), t).Idle? <==> PcOf(s, t).Idle? && Label(t, CallDequeue) !in schedule
  {
    if schedule == [] {
    } else {
      var front, last := schedule[..|schedule| - 1], schedule[|schedule| - 1];
      LaggingTailStarvesDequeues(s, front);
      hide Apply, Starved;
      StarvedStep(After(s, front), last);
      assert schedule == front + [last];
    }
  }

  /** The memory after one enqueue whose final swing failed. */
  function LaggedHeap<T>(blank: T, value: T): Heap<T> {
    Heap([Node(blank, Some(1)), Node(value, None)], 0, 0, [0, 1], map[0 := 0, 1 := 1])
  }

  /** Call and lines 38-40: nothing but the fresh node and the counter. */
  lemma LagReads<T>(s: State<T>, blank: T, value: T, t: Tid)
    requires s == Init(false, blank)
    ensures
      var step := Label(t, Step(true));
      var r := Apply(Apply(Apply(Apply(s, Label(t, CallEnqueue(value))), step), step), step);
      !r.helps && r.pcs == map[t := EnqLink(1, 0)] && r.heap == s.heap.(nodes := [Node(blank, None), Node(value, None)])
  {
    hide Version;
    var step := Label(t, Step(true));
    var s1 := Apply(s, Label(t, CallEnqueue(value)));
    assert s1.pcs == map[t := EnqReadTail(1)] && s1.heap.nodes == [Node(blank, None), Node(value, None)];
    var s2 := Apply(s1, step);
    assert s2.pcs == map[t := EnqReadNext(1, 0)] && s2.heap == s1.heap;
    var s3 := Apply(s2, step);
    assert s3.pcs == map[t := EnqCheck(1, 0, None)] && s3.heap == s1.heap;
  }

  /** Lines 42 and 50, the swing failing. */
  lemma LagLinks<T>(s: State<T>, blank: T, value: T, t: Tid)
    requires !s.helps && s.pcs == map[t := EnqLink(1, 0)]
    requires s.heap == Heap([Node(blank, None), Node(value, None)], 0, 0, [0], map[0 := 0])
    ensures
      var r := Apply(Apply(s, Label(t, Step(true))), Label(t, Step(false)));
      !r.helps && r.heap == LaggedHeap(blank, value) && r.pcs == map[t := Idle]
  {
    hide Version;
    var s5 := Apply(s, Label(t, Step(true)));
    assert s5.pcs == map[t := EnqSwing(1, 0)] && s5.heap == LaggedHeap(blank, value);
  }

  lemma LagSteps<T>(s: State<T>, blank: T, value: T, t: Tid)
    requires s == Init(false, blank)
    ensures
      var step := Label(t, Step(true));
      var r := Apply(Apply(Apply(Apply(Apply(Apply(s, Label(t, CallEnqueue(value))), step), step), step), step), Label(t, Step(false)));
      !r.helps && r.heap == LaggedHeap(blank, value) && r.pcs == map[t := Idle]
  {
    hide Apply;
    LagReads(s, blank, value, t);
    var step := Label(t, Step(true));
    LagLinks(Apply(Apply(Apply(Apply(s, Label(t, CallEnqueue(value))), step), step), step), blank, value, t);
  }

  /** Every state with that memory and no call in flight is starved, with the one value in the queue. */
  lemma LaggedIsStarved<T>(s: State<T>, blank: T, value: T, t: Tid)
    requires !s.helps && s.heap == LaggedHeap(blank, value) && s.pcs == map[t := Idle]
    ensures Starved(s) && HeapInv(s.heap) && Lagging(s.heap) && Contents(s.heap) == [value]
  {
  }

  lemma SixSteps<T>(r: Run<T>)
    requires |r.schedule| == 6
    ensures r.At(6) == Apply(Apply(Apply(Apply(Apply(Apply(Init(r.helps, r.blank), r.schedule[0]), r.schedule[1]), r.schedule[2]), r.schedule[3]), r.schedule[4]), r.schedule[5])
  {
    hide Apply;
    Unfold(r, 0);
    Unfold(r, 1);
    Unfold(r, 2);
    Unfold(r, 3);
    Unfold(r, 4);
    Unfold(r, 5);
  }

  /** Such a state is reachable: one enqueue whose final swing fails spuriously. */
  lemma LaggingTailIsReachable<T>(blank: T, value: T, t: Tid)
    ensures
      var step := Label(t, Step(true));
      var r := Run(false, blank, [Label(t, CallEnqueue(value)), step, step, step, step, Label(t, Step(false))]);
      Starved(r.At(6)) && HeapInv(r.At(6).heap) && Lagging(r.At(6).heap) && Contents(r.At(6).heap) == [value]
  {
    var step := Label(t, Step(true));
    var schedule := [Label(t, CallEnqueue(value)), step, step, step, step, Label(t, Step(false))];
    var r := Run(false, blank, schedule);
    hide Apply, After, LaggedHeap, Starved, HeapInv, Lagging, Contents;
    SixSteps(r);
    LagSteps(Init(false, blank), blank, value, t);
    LaggedIsStarved(r.At(6), blank, value, t);
  }

  // ---------------------------------------------------------------- a thread running alone

  /** Thread `t` takes `n` steps, no other thread moving and no CAS failing spuriously. */
  function Resume<T>(s: State<T>, t: Tid, n: nat): State<T>
    decreases n
  {
    if n == 0 then s else Resume(Apply(s, Label(t, Step(true))), t, n - 1)
  }

  /** Thread `t` calls dequeue and runs alone. */
  function Alone<T>(s: State<T>, t: Tid, n: nat): State<T> {
    Resume(Apply(s, Label(t, CallDequeue)), t, n)
  }

  function AloneEnqueue<T>(s: State<T>, t: Tid, value: T, n: nat): State<T> {
    Resume(Apply(s, Label(t, CallEnqueue(value))), t, n)
  }

  /** Node `n` has no successor. */
  predicate IsLast<T>(h: Heap<T>, n: NodeId) {
    n < |h.nodes| && h.nodes[n].next.None?
  }

  /** The steps an enqueue has still to take from line 38: a tail that lags costs a pass that helps it. */
  function EnqueueLeft<T>(h: Heap<T>): nat {
    if IsLast(h, h.tail) then 5 else 9
  }

  function LinkLeft<T>(h: Heap<T>, oldTail: NodeId): nat {
    if IsLast(h, oldTail) then 2 else 1 + EnqueueLeft(h)
  }

  /** The steps a dequeue has still to take from line 57: to find nothing, to take, or to help and take. */
  function DequeueLeft<T>(h: Heap<T>): nat {
    if h.head != h.tail then 6 else if IsLast(h, h.head) then 4 else 11
  }

  function HelpLeft<T>(h: Heap<T>, oldHead: NodeId): nat {
    if h.tail == oldHead then 7 else 1 + DequeueLeft(h)
  }

  function CheckLeft<T>(h: Heap<T>, oldHead: NodeId, tailSeen: NodeId, noNext: bool): nat {
    1 + if oldHead != h.head then DequeueLeft(h) else if oldHead != tailSeen then 2 else if noNext then 0 else HelpLeft(h, oldHead)
  }

  function CasLeft<T>(h: Heap<T>, oldHead: NodeId): nat {
    if h.head == oldHead then 1 else 1 + DequeueLeft(h)
  }

  /** The steps a thread running alone has still to take before its call returns, if it does. */
  function Left<T>(h: Heap<T>, pc: Pc<T>): nat {
    match pc
    case Idle => 0
    case EnqReadTail(_) => EnqueueLeft(h)
    case EnqReadNext(_, oldTail) => if oldTail == h.tail then EnqueueLeft(h) - 1 else EnqueueLeft(h) + 2
    case EnqCheck(_, oldTail, tailNext) =>
      1 + if oldTail != h.tail then EnqueueLeft(h) else if tailNext.None? then LinkLeft(h, oldTail) else 6
    case EnqLink(_, oldTail) => LinkLeft(h, oldTail)
    case EnqHelp(_, oldTail, _) => if oldTail == h.tail then 6 else 1 + EnqueueLeft(h)
    case EnqSwing(_, _) => 1
    case DeqReadHead => DequeueLeft(h)
    case DeqReadTail(oldHead) => if oldHead == h.head then DequeueLeft(h) - 1 else DequeueLeft(h) + 3
    case DeqReadNext(oldHead, tailSeen) => 1 + CheckLeft(h, oldHead, tailSeen, IsLast(h, oldHead))
    case DeqCheck(oldHead, tailSeen, headNext) => CheckLeft(h, oldHead, tailSeen, headNext.None?)
    case DeqHelp(oldHead, _) => HelpLeft(h, oldHead)
    case DeqReadData(oldHead, _) => 1 + CasLeft(h, oldHead)
    case DeqCas(oldHead, _, _) => CasLeft(h, oldHead)
    case Fault => 0
  }

  /** The dequeuer is about to return false on a null it read before. */
  predicate AboutToFail<T>(h: Heap<T>, pc: Pc<T>) {
    pc.DeqCheck? && pc.headNext.None? && pc.oldHead == h.head
  }

  /** When a busy thread running alone returns. */
  predicate CanReturn<T>(s: State<T>, t: Tid) {
    IsEnqueue(PcOf(s, t)) || s.helps || s.heap.head != s.heap.tail || IsLast(s.heap, s.heap.head) || AboutToFail(s.heap, PcOf(s, t))
  }

  /** The next own step of `t`. */
  function Next<T>(s: State<T>, t: Tid): State<T> {
    Apply(s, Label(t, Step(true)))
  }

  /** A step of `t` brings it one step nearer to its return. */
  ghost predicate Nearer<T>(s: State<T>, r: State<T>, t: Tid) {
    && Left(r.heap, PcOf(r, t)) + 1 == Left(s.heap, PcOf(s, t))
    && (PcOf(r, t).Idle? || CanReturn(r, t))
  }

  /** A lagging tail is next to last; the node after it is last. */
  lemma TailPlaces<T>(h: Heap<T>)
    requires HeapInv(h)
    ensures h.tail < |h.nodes| && h.head < |h.nodes|
    ensures h.nodes[h.tail].next.Some? ==>
      && h.nodes[h.tail].next.value != h.tail && h.nodes[h.tail].next.value < |h.nodes|
      && IsLast(h, h.nodes[h.tail].next.value)
    ensures forall next: NodeId :: Precedes(h, h.tail, next) ==> h.nodes[h.tail].next == Some(next)
  {
    NextRead(h, h.tail);
    NextRead(h, h.head);
    if h.nodes[h.tail].next.Some? { NextRead(h, h.nodes[h.tail].next.value); }
    forall next: NodeId | Precedes(h, h.tail, next) ensures h.nodes[h.tail].next == Some(next) { NextRead(h, next); }
  }

  lemma EnqueueReadNears<T>(s: State<T>, t: Tid)
    requires Inv(s) && (PcOf(s, t).EnqReadTail? || PcOf(s, t).EnqReadNext? || PcOf(s, t).EnqCheck?)
    ensures Nearer(s, ApplyEnqueue(s, t, PcOf(s, t), true), t)
  {
    hide Inv, HeapInv, BehindTail, Precedes, Version, DequeueLeft, HelpLeft, CheckLeft, CasLeft;
    InvParts(s);
    TailSnapshotFacts(s, t, PcOf(s, t));
    TailPlaces(s.heap);
    CheckedNext(s, t);
  }

  /** Where a check finds the tail unmoved, a successor read before is still the tail's. */
  lemma CheckedNext<T>(s: State<T>, t: Tid)
    requires Inv(s)
    ensures
      var pc := PcOf(s, t);
      pc.EnqCheck? && pc.oldTail == s.heap.tail && pc.tailNext.Some? ==> !IsLast(s.heap, s.heap.tail)
  {
    SnapshotFacts(s, t, PcOf(s, t));
    InvParts(s);
    if PcOf(s, t).EnqCheck? && PcOf(s, t).oldTail == s.heap.tail && PcOf(s, t).tailNext.Some? { NextRead(s.heap, s.heap.tail); }
  }

  lemma EnqueueLinkNears<T>(s: State<T>, t: Tid)
    requires Inv(s) && PcOf(s, t).EnqLink?
    ensures Nearer(s, ApplyEnqueue(s, t, PcOf(s, t), true), t)
  {
    hide Inv, HeapInv, BehindTail, DequeueLeft, HelpLeft, CheckLeft, CasLeft, LinkAfter, ApplyEnqueue;
    LinkFacts(s, t);
    LinkOutcome(s, t, PcOf(s, t), true);
  }

  lemma EnqueueSwingNears<T>(s: State<T>, t: Tid)
    requires Inv(s) && (PcOf(s, t).EnqHelp? || PcOf(s, t).EnqSwing?)
    ensures Nearer(s, ApplyEnqueue(s, t, PcOf(s, t), true), t)
  {
    hide Inv, HeapInv, BehindTail, DequeueLeft, HelpLeft, CheckLeft, CasLeft;
    InvParts(s);
    SnapshotFacts(s, t, PcOf(s, t));
    TailPlaces(s.heap);
  }

  lemma DequeueLoadNears<T>(s: State<T>, t: Tid)
    requires Inv(s) && CanReturn(s, t) && (PcOf(s, t).DeqReadNext? || PcOf(s, t).DeqReadData?)
    ensures Nearer(s, ApplyDequeue(s, t, PcOf(s, t), true), t)
  {
    hide Inv, HeapInv, BehindTail, BehindHead, Precedes, EnqueueLeft, LinkLeft, DequeueLeft, HelpLeft;
    InvParts(s);
    SnapshotFacts(s, t, PcOf(s, t));
  }

  lemma DequeueReadNears<T>(s: State<T>, t: Tid)
    requires Inv(s) && CanReturn(s, t) && (PcOf(s, t).DeqReadHead? || PcOf(s, t).DeqReadTail?)
    ensures Nearer(s, ApplyDequeue(s, t, PcOf(s, t), true), t)
  {
    hide Inv, HeapInv, BehindTail, BehindHead, Precedes, EnqueueLeft, LinkLeft;
    InvParts(s);
    SnapshotFacts(s, t, PcOf(s, t));
    TailPlaces(s.heap);
  }

  lemma DequeueCheckNears<T>(s: State<T>, t: Tid)
    requires Inv(s) && CanReturn(s, t) && PcOf(s, t).DeqCheck?
    ensures Nearer(s, ApplyDequeue(s, t, PcOf(s, t), true), t)
  {
    hide Inv, HeapInv, BehindTail, BehindHead, Precedes, EnqueueLeft, LinkLeft;
    SnapshotFacts(s, t, PcOf(s, t));
  }

  lemma DequeueHelpNears<T>(s: State<T>, t: Tid)
    requires Inv(s) && CanReturn(s, t) && PcOf(s, t).DeqHelp?
    ensures Nearer(s, ApplyDequeue(s, t, PcOf(s, t), true), t)
  {
    hide Inv, EnqueueLeft, LinkLeft;
    InvParts(s);
    SnapshotFacts(s, t, PcOf(s, t));
    HelpedTail(s.heap, PcOf(s, t).oldHead, PcOf(s, t).first);
    hide HeapInv, BehindTail, BehindHead, Precedes;
  }

  /** A tail at the snapshot of the head is the head; it lags, and its successor is another node. */
  lemma HelpedTail<T>(h: Heap<T>, oldHead: NodeId, first: NodeId)
    requires HeapInv(h) && BehindHead(h, oldHead) && Precedes(h, oldHead, first)
    ensures h.tail == oldHead ==> h.head == oldHead && h.head != first && !IsLast(h, h.head)
  {
    NextRead(h, oldHead);
    if h.tail == oldHead && h.head != oldHead { DistinctPositions(h, h.head, oldHead); }
  }

  lemma DequeueCasNears<T>(s: State<T>, t: Tid)
    requires Inv(s) && CanReturn(s, t) && PcOf(s, t).DeqCas?
    ensures Nearer(s, ApplyDequeue(s, t, PcOf(s, t), true), t)
  {
    hide Inv, HeapInv, EnqueueLeft, LinkLeft;
  }

  lemma StepNears<T>(s: State<T>, t: Tid)
    requires Inv(s) && !PcOf(s, t).Idle? && CanReturn(s, t)
    ensures Inv(Next(s, t)) && Nearer(s, Next(s, t), t)
  {
    hide Inv, Grows, ApplyEnqueue, ApplyDequeue, Nearer, CanReturn;
    StepKeepsInv(s, Label(t, Step(true)));
    NotFaulty(s, t);
    var pc := PcOf(s, t);
    if IsEnqueue(pc) {
      if pc.EnqLink? { EnqueueLinkNears(s, t); }
      else if pc.EnqHelp? || pc.EnqSwing? { EnqueueSwingNears(s, t); }
      else { EnqueueReadNears(s, t); }
    } else {
      if pc.DeqCheck? { DequeueCheckNears(s, t); }
      else if pc.DeqHelp? { DequeueHelpNears(s, t); }
      else if pc.DeqCas? { DequeueCasNears(s, t); }
      else if pc.DeqReadNext? || pc.DeqReadData? { DequeueLoadNears(s, t); }
      else { DequeueReadNears(s, t); }
    }
  }

  /** Left alone, a thread that can return does so after exactly the steps counted, and not before. */
  lemma {:induction false} ReturnsAfterLeft<T>(s: State<T>, t: Tid, n: nat)
    requires Inv(s) && (PcOf(s, t).Idle? || CanReturn(s, t)) && n <= Left(s.heap, PcOf(s, t))
    ensures Inv(Resume(s, t, n))
    ensures PcOf(Resume(s, t, n), t).Idle? <==> n == Left(s.heap, PcOf(s, t))
    decreases n
  {
    hide Inv, CanReturn, Left, Apply;
    OnlyIdleIsDone(s, t);
    if n == 0 {
    } else {
      StepNears(s, t);
      ReturnsAfterLeft(Next(s, t), t, n - 1);
    }
  }

  lemma OnlyIdleIsDone<T>(s: State<T>, t: Tid)
    requires Inv(s)
    ensures Left(s.heap, PcOf(s, t)) == 0 <==> PcOf(s, t).Idle?
    ensures Left(s.heap, PcOf(s, t)) <= if IsEnqueue(PcOf(s, t)) then 11 else 14
  {
    hide Inv, HeapInv;
    NotFaulty(s, t);
  }

  // ---------------------------------------------------------------- when it does not return

  /** A dequeuer with a local help and a tail that lags at the head. */
  ghost predicate Stuck<T>(s: State<T>, t: Tid) {
    !PcOf(s, t).Idle? && !CanReturn(s, t)
  }

  lemma StuckReadStays<T>(s: State<T>, t: Tid)
    requires Inv(s) && Stuck(s, t)
    requires PcOf(s, t).DeqReadHead? || PcOf(s, t).DeqReadTail? || PcOf(s, t).DeqReadNext? || PcOf(s, t).DeqReadData?
    ensures Stuck(ApplyDequeue(s, t, PcOf(s, t), true), t)
  {
    hide Inv, HeapInv, BehindTail, BehindHead, Precedes;
    InvParts(s);
    SnapshotFacts(s, t, PcOf(s, t));
    TailPlaces(s.heap);
  }

  /** A dequeuer past line 62 holds a head that is not the one the tail lags at. */
  lemma StuckCheckStays<T>(s: State<T>, t: Tid)
    requires Inv(s) && Stuck(s, t) && (PcOf(s, t).DeqCheck? || PcOf(s, t).DeqHelp? || PcOf(s, t).DeqCas?)
    ensures Stuck(ApplyDequeue(s, t, PcOf(s, t), true), t)
  {
    hide Inv, HeapInv;
    SnapshotFacts(s, t, PcOf(s, t));
  }

  lemma StuckStays<T>(s: State<T>, t: Tid)
    requires Inv(s) && Stuck(s, t)
    ensures Inv(Next(s, t)) && Stuck(Next(s, t), t)
  {
    hide Inv, Grows, ApplyEnqueue, ApplyDequeue;
    StepKeepsInv(s, Label(t, Step(true)));
    NotFaulty(s, t);
    var pc := PcOf(s, t);
    if pc.DeqCheck? || pc.DeqHelp? || pc.DeqCas? { StuckCheckStays(s, t); } else { StuckReadStays(s, t); }
  }

  lemma StuckIsBusy<T>(s: State<T>, t: Tid)
    requires Stuck(s, t)
    ensures !PcOf(s, t).Idle?
  {
  }

  lemma {:induction false} StuckForever<T>(s: State<T>, t: Tid, n: nat)
    requires Inv(s) && Stuck(s, t)
    ensures !PcOf(Resume(s, t, n), t).Idle?
    decreases n
  {
    hide Inv, Stuck, Apply, PcOf;
    if n == 0 {
      StuckIsBusy(s, t);
    } else {
      StuckStays(s, t);
      StuckForever(Next(s, t), t, n - 1);
    }
  }

  lemma LaggingIff<T>(h: Heap<T>)
    requires HeapInv(h)
    ensures Lagging(h) <==> h.head == h.tail && !IsLast(h, h.head)
  {
    NextRead(h, h.head);
  }

  // ---------------------------------------------------------------- what it returns

  /** An own step of an enqueue moves its value from pending into the contents, or moves nothing. */
  lemma EnqueueOwes<T>(s: State<T>, t: Tid)
    requires Inv(s) && IsEnqueue(PcOf(s, t))
    ensures Inv(Next(s, t)) && HeapInv(s.heap) && HeapInv(Next(s, t).heap)
    ensures Contents(Next(s, t).heap) + Unlinked(Next(s, t), t) == Contents(s.heap) + Unlinked(s, t)
    ensures Next(s, t).takes == s.takes
    ensures PcOf(Next(s, t), t).Idle? || IsEnqueue(PcOf(Next(s, t), t))
  {
    hide Inv, HeapInv, Contents, Unlinked, StepOp, Apply;
    var l := Label(t, Step(true));
    InvParts(s);
    StepRefinesFifo(s, l);
    InvParts(Next(s, t));
    UnlinkedMoves(s, l, t);
    OpKinds(s, l);
    StepLogs(s, l);
    StepMoves(s, l);
  }

  lemma {:induction false} EnqueueFinishes<T>(s: State<T>, t: Tid, n: nat)
    requires Inv(s) && IsEnqueue(PcOf(s, t)) && n == Left(s.heap, PcOf(s, t))
    ensures HeapInv(s.heap) && HeapInv(Resume(s, t, n).heap) && PcOf(Resume(s, t, n), t).Idle?
    ensures Contents(Resume(s, t, n).heap) == Contents(s.heap) + Unlinked(s, t) && Resume(s, t, n).takes == s.takes
    decreases n
  {
    hide Inv, HeapInv, Contents, Unlinked, Apply, CanReturn, Left;
    EnqueueCanReturn(s, t);
    ReturnsAfterLeft(s, t, n);
    OnlyIdleIsDone(s, t);
    StepNears(s, t);
    EnqueueOwes(s, t);
    if PcOf(Next(s, t), t).Idle? {
      IdleOwesNothing(Next(s, t), t);
      OnlyIdleIsDone(Next(s, t), t);
      assert Resume(Next(s, t), t, 0) == Next(s, t);
    } else {
      EnqueueFinishes(Next(s, t), t, n - 1);
    }
  }

  lemma EnqueueCanReturn<T>(s: State<T>, t: Tid)
    requires IsEnqueue(PcOf(s, t))
    ensures CanReturn(s, t)
  {
  }

  lemma IdleOwesNothing<T>(s: State<T>, t: Tid)
    requires PcOf(s, t).Idle?
    ensures Unlinked(s, t) == []
  {
  }

  /** The null was read on an empty queue that is not empty any more. */
  ghost predicate Outdated<T>(s: State<T>, t: Tid)
    requires HeapInv(s.heap)
  {
    AboutToFail(s.heap, PcOf(s, t)) && Contents(s.heap) != []
  }

  /** What a dequeue that went on from `s` to its return at `r` did: nothing, or it took the front. */
  ghost predicate Finished<T>(s: State<T>, r: State<T>, t: Tid)
    requires HeapInv(s.heap)
  {
    && PcOf(r, t).Idle? && HeapInv(r.heap)
    && if Contents(s.heap) == [] || Outdated(s, t) then r.takes == s.takes && Contents(r.heap) == Contents(s.heap)
       else r.takes == s.takes + [(t, Contents(s.heap)[0])] && Contents(r.heap) == Contents(s.heap)[1..]
  }

  /** An own step of a dequeue takes the front and returns, returns on its null, or leaves the contents alone. */
  lemma DequeueOutcome<T>(s: State<T>, t: Tid)
    requires Inv(s) && !PcOf(s, t).Idle? && !IsEnqueue(PcOf(s, t))
    ensures Inv(Next(s, t)) && HeapInv(s.heap) && HeapInv(Next(s, t).heap)
    ensures
      var r := Next(s, t);
      if PcOf(r, t).Idle? then Finished(s, r, t)
      else !IsEnqueue(PcOf(r, t)) && !Outdated(s, t) && !Outdated(r, t) && r.takes == s.takes && Contents(r.heap) == Contents(s.heap)
  {
    hide Inv, HeapInv, Contents, StepOp, Apply, AboutToFail;
    var l := Label(t, Step(true));
    InvParts(s);
    StepRefinesFifo(s, l);
    InvParts(Next(s, t));
    OpKinds(s, l);
    StepLogs(s, l);
    StepMoves(s, l);
    NullsMove(s, t);
  }

  /** A dequeuer about to return false does; one that comes there has just read its null, on an empty queue. */
  lemma NullsMove<T>(s: State<T>, t: Tid)
    requires Inv(s) && !PcOf(s, t).Idle? && !IsEnqueue(PcOf(s, t))
    ensures HeapInv(s.heap)
    ensures AboutToFail(s.heap, PcOf(s, t)) ==> PcOf(Next(s, t), t).Idle? && StepOp(s, Label(t, Step(true))).None?
    ensures AboutToFail(Next(s, t).heap, PcOf(Next(s, t), t)) ==> Contents(s.heap) == []
    ensures PcOf(Next(s, t), t).Idle? && StepOp(s, Label(t, Step(true))).None? ==> AboutToFail(s.heap, PcOf(s, t))
  {
    hide Inv, HeapInv, Contents;
    InvParts(s);
    SnapshotFacts(s, t, PcOf(s, t));
    NullReadStep(s, Label(t, Step(true)));
    if StepOp(s, Label(t, Step(true))).Some? { StepOpFacts(s, Label(t, Step(true))); }
  }

  lemma {:induction false} DequeueFinishes<T>(s: State<T>, t: Tid, n: nat)
    requires Inv(s) && !PcOf(s, t).Idle? && !IsEnqueue(PcOf(s, t)) && CanReturn(s, t) && n == Left(s.heap, PcOf(s, t))
    ensures HeapInv(s.heap) && Finished(s, Resume(s, t, n), t)
    decreases n
  {
    hide Inv, HeapInv, Contents, Apply, CanReturn, Left;
    OnlyIdleIsDone(s, t);
    StepNears(s, t);
    DequeueOutcome(s, t);
    if PcOf(Next(s, t), t).Idle? {
      OnlyIdleIsDone(Next(s, t), t);
      assert Resume(Next(s, t), t, 0) == Next(s, t);
    } else {
      DequeueFinishes(Next(s, t), t, n - 1);
    }
  }

  /** Where the link was made with nobody interfering, the swing leaves the tail at the last node. */
  ghost predicate Swings<T>(s: State<T>, t: Tid) {
    PcOf(s, t).EnqSwing? ==> PcOf(s, t).oldTail == s.heap.tail
  }

  lemma SwingsAfterLink<T>(s: State<T>, t: Tid)
    requires Inv(s) && PcOf(s, t).EnqLink?
    ensures !PcOf(Next(s, t), t).Idle? && Swings(Next(s, t), t)
  {
    hide Inv, HeapInv, PcInv, Grows, Precedes, ApplyEnqueue;
    InvParts(s);
    LinkFacts(s, t);
    LinkOutcome(s, t, PcOf(s, t), true);
    if IsLast(s.heap, PcOf(s, t).oldTail) { LinkKeeps(s.heap, PcOf(s, t).oldTail, PcOf(s, t).node); }
  }

  lemma SwingsOn<T>(s: State<T>, t: Tid)
    requires Inv(s) && IsEnqueue(PcOf(s, t)) && Swings(s, t)
    ensures if PcOf(Next(s, t), t).Idle? then IsLast(Next(s, t).heap, Next(s, t).heap.tail) else Swings(Next(s, t), t)
  {
    hide Inv, HeapInv, BehindTail, PcInv, LinkAfter, Version;
    InvParts(s);
    if PcOf(s, t).EnqLink? {
      hide Apply;
      SwingsAfterLink(s, t);
    } else if PcOf(s, t).EnqSwing? {
      SwingFacts(s, t);
      TailPlaces(s.heap);
    } else {
      EnqueueMoves(s, t, true);
    }
  }

  lemma SwingFacts<T>(s: State<T>, t: Tid)
    requires Inv(s) && PcOf(s, t).EnqSwing?
    ensures Precedes(s.heap, PcOf(s, t).oldTail, PcOf(s, t).node)
  {
    assert PcInv(s.heap, PcOf(s, t));
  }

  lemma {:induction false} EnqueueEndsLast<T>(s: State<T>, t: Tid, n: nat)
    requires Inv(s) && IsEnqueue(PcOf(s, t)) && Swings(s, t) && n == Left(s.heap, PcOf(s, t))
    ensures IsLast(Resume(s, t, n).heap, Resume(s, t, n).heap.tail)
    decreases n
  {
    hide Inv, Swings, IsLast, Apply, CanReturn, Left;
    EnqueueCanReturn(s, t);
    OnlyIdleIsDone(s, t);
    StepNears(s, t);
    SwingsOn(s, t);
    if PcOf(Next(s, t), t).Idle? {
      OnlyIdleIsDone(Next(s, t), t);
      assert Resume(Next(s, t), t, 0) == Next(s, t);
    } else {
      EnqueueOwes(s, t);
      EnqueueEndsLast(Next(s, t), t, n - 1);
    }
  }

  /** The call of `t` over: an enqueue has appended the value it still owed, a dequeue has taken the front or nothing. */
  ghost predicate Completed<T>(s: State<T>, b: State<T>, t: Tid)
    requires HeapInv(s.heap)
  {
    if IsEnqueue(PcOf(s, t)) then
      && PcOf(b, t).Idle? && HeapInv(b.heap)
      && Contents(b.heap) == Contents(s.heap) + Unlinked(s, t) && b.takes == s.takes
    else Finished(s, b, t)
  }

  /**
    From any reachable state, whatever the other threads have done and wherever they stand: a thread left alone
    gets out of its call if and only if it is enqueuing, or the help of line 66 reaches the shared tail, or the tail
    does not lag, or it has read its null already.  Then it does so within 11 steps for an enqueue, 14 for a dequeue,
    with the call completed.
   */
  lemma BusyThreadReturnsIff<T>(r: Run<T>, k: nat, t: Tid)
    requires k <= |r.schedule| && !r.Pc(k, t).Idle?
    ensures HeapInv(r.At(k).heap)
    ensures
      (exists n :: PcOf(Resume(r.At(k), t, n), t).Idle?) <==>
        IsEnqueue(r.Pc(k, t)) || r.At(k).helps || !Lagging(r.At(k).heap) || AboutToFail(r.At(k).heap, r.Pc(k, t))
    ensures
      (exists n :: PcOf(Resume(r.At(k), t, n), t).Idle?) ==>
        exists n :: n <= (if IsEnqueue(r.Pc(k, t)) then 11 else 14) && Completed(r.At(k), Resume(r.At(k), t, n), t)
  {
    hide Inv, HeapInv, Lagging, After, Left, Resume, Finished, Contents, Unlinked;
    RunKeepsInv(r, k);
    var s := r.At(k);
    LaggingIff(s.heap);
    if CanReturn(s, t) {
      OnlyIdleIsDone(s, t);
      if IsEnqueue(PcOf(s, t)) { EnqueueFinishes(s, t, Left(s.heap, PcOf(s, t))); } else { DequeueFinishes(s, t, Left(s.heap, PcOf(s, t))); }
      ReturnsAfterLeft(s, t, Left(s.heap, PcOf(s, t)));
      assert Completed(s, Resume(s, t, Left(s.heap, PcOf(s, t))), t);
    } else {
      forall n: nat ensures !PcOf(Resume(s, t, n), t).Idle? { StuckForever(s, t, n); }
    }
  }

  // ---------------------------------------------------------------- a whole call running alone

  lemma DequeueCalled<T>(s: State<T>, t: Tid)
    requires Inv(s) && PcOf(s, t).Idle?
    ensures
      var a := Apply(s, Label(t, CallDequeue));
      && Inv(a) && HeapInv(s.heap) && PcOf(a, t) == DeqReadHead && a.heap == s.heap && a.takes == s.takes && a.helps == s.helps
      && Left(a.heap, PcOf(a, t)) <= 11
  {
    hide Inv, Grows;
    InvParts(s);
    StepKeepsInv(s, Label(t, CallDequeue));
  }

  lemma AloneReturnsIff<T>(s: State<T>, t: Tid)
    requires Inv(s) && PcOf(s, t).Idle?
    ensures HeapInv(s.heap)
    ensures (exists n :: PcOf(Alone(s, t, n), t).Idle?) <==> s.helps || !Lagging(s.heap)
    ensures s.helps || !Lagging(s.heap) ==> exists n :: n <= 11 && Finished(s, Alone(s, t, n), t)
  {
    hide Inv, HeapInv, Lagging, Left, Resume, Apply, Contents;
    DequeueCalled(s, t);
    LaggingIff(s.heap);
    var a := Apply(s, Label(t, CallDequeue));
    if CanReturn(a, t) {
      DequeueFinishes(a, t, Left(a.heap, PcOf(a, t)));
      assert Finished(s, Alone(s, t, Left(a.heap, PcOf(a, t))), t);
      ReturnsAfterLeft(a, t, Left(a.heap, PcOf(a, t)));
    } else {
      forall n: nat ensures !PcOf(Alone(s, t, n), t).Idle? { StuckForever(a, t, n); }
    }
  }

  /**
    From any reachable memory, a dequeue that runs alone returns if and only if the help of line 66 reaches the
    shared tail or the tail does not lag; and then it returns the front, or finds the queue empty, in 11 steps.
   */
  lemma SoloDequeueReturnsIff<T>(r: Run<T>, k: nat, t: Tid)
    requires k <= |r.schedule| && r.Pc(k, t).Idle?
    ensures HeapInv(r.At(k).heap)
    ensures (exists n :: PcOf(Alone(r.At(k), t, n), t).Idle?) <==> r.At(k).helps || !Lagging(r.At(k).heap)
    ensures r.At(k).helps || !Lagging(r.At(k).heap) ==> exists n :: n <= 11 && Finished(r.At(k), Alone(r.At(k), t, n), t)
  {
    RunKeepsInv(r, k);
    AloneReturnsIff(r.At(k), t);
  }

  /** The call over, its value at the end of the contents, the tail at the last node. */
  ghost predicate AppendedAtEnd<T>(s: State<T>, b: State<T>, t: Tid, value: T)
    requires HeapInv(s.heap)
  {
    && PcOf(b, t).Idle? && HeapInv(b.heap) && Contents(b.heap) == Contents(s.heap) + [value]
    && b.heap.tail == b.heap.chain[|b.heap.chain| - 1]
  }

  lemma EnqueueCalled<T>(s: State<T>, t: Tid, value: T)
    requires Inv(s) && PcOf(s, t).Idle?
    ensures
      var a := Apply(s, Label(t, CallEnqueue(value)));
      && Inv(a) && HeapInv(s.heap) && HeapInv(a.heap) && PcOf(a, t).EnqReadTail? && a.takes == s.takes
      && Contents(a.heap) == Contents(s.heap) && Unlinked(a, t) == [value] && Left(a.heap, PcOf(a, t)) <= 9
  {
    hide Inv, HeapInv, Contents, Unlinked;
    var l := Label(t, CallEnqueue(value));
    InvParts(s);
    StepRefinesFifo(s, l);
    InvParts(Apply(s, l));
    UnlinkedMoves(s, l, t);
  }

  lemma LastIsEnd<T>(h: Heap<T>)
    requires HeapInv(h) && IsLast(h, h.tail)
    ensures h.tail == h.chain[|h.chain| - 1]
  {
    NextRead(h, h.tail);
  }

  lemma AloneAppends<T>(s: State<T>, t: Tid, value: T) returns (n: nat)
    requires Inv(s) && PcOf(s, t).Idle?
    ensures n <= 9 && HeapInv(s.heap) && AppendedAtEnd(s, AloneEnqueue(s, t, value, n), t, value)
  {
    hide Inv, HeapInv, Contents, Unlinked, Left, Resume, Apply, IsLast;
    EnqueueCalled(s, t, value);
    var a := Apply(s, Label(t, CallEnqueue(value)));
    n := Left(a.heap, PcOf(a, t));
    EnqueueFinishes(a, t, n);
    EnqueueEndsLast(a, t, n);
    LastIsEnd(Resume(a, t, n).heap);
  }

  /**
    From any reachable memory an enqueue that runs alone returns within 9 steps with its value appended, and
    leaves the tail at the last node, whether or not it lagged before.
   */
  lemma SoloEnqueueAppends<T>(r: Run<T>, k: nat, t: Tid, value: T)
    requires k <= |r.schedule| && r.Pc(k, t).Idle?
    ensures HeapInv(r.At(k).heap)
    ensures exists n: nat :: n <= 9 && AppendedAtEnd(r.At(k), AloneEnqueue(r.At(k), t, value, n), t, value)
  {
    RunKeepsInv(r, k);
    var n := AloneAppends(r.At(k), t, value);
    hide Inv, AloneEnqueue, HeapInv, AppendedAtEnd;
  }
}
