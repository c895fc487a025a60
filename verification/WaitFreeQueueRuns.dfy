/**
  The ring with one producer and one consumer thread interleaved at every load, slot access and store.
  The history variables `sent` and `received` grow at the two index stores and never wrap.
 */
module WaitFreeQueueRuns {
  import opened WaitFreeQueue

  datatype Producer<T> =
    | ProducerIdle
    | LoadHead(item: T, tail: nat, next: nat)    // line 18
    | WriteSlot(item: T, tail: nat, next: nat)   // line 22
    | StoreTail(item: T, tail: nat, next: nat)   // line 23

  datatype Consumer<T> =
    | ConsumerIdle
    | LoadTail(head: nat)                        // line 30
    | ReadSlot(head: nat)                        // line 34
    | StoreHead(head: nat, item: T)              // line 35

  datatype State<T> = State(
    buffer: seq<T>,
    head: nat,
    tail: nat,
    producer: Producer<T>,
    consumer: Consumer<T>,
    sent: seq<T>,
    received: seq<T>)

  /** A call starts with its relaxed load of the caller's own index (lines 15-16, 28). */
  datatype Action<T> = CallEnqueue(item: T) | CallDequeue | StepProducer | StepConsumer

  function Init<T>(buffer: seq<T>): State<T> {
    State(buffer, 0, 0, ProducerIdle, ConsumerIdle, [], [])
  }

  function ProducerStep<T>(s: State<T>): State<T>
    requires |s.buffer| > 0
  {
    match s.producer
    case ProducerIdle => s
    case LoadHead(item, tail, next) =>
      s.(producer := if next == s.head then ProducerIdle else WriteSlot(item, tail, next))
    case WriteSlot(item, tail, next) =>
      if tail < |s.buffer| then s.(buffer := s.buffer[tail := item], producer := StoreTail(item, tail, next)) else s
    case StoreTail(item, tail, next) => s.(tail := next, producer := ProducerIdle, sent := s.sent + [item])
  }

  function ConsumerStep<T>(s: State<T>): State<T>
    requires |s.buffer| > 0
  {
    match s.consumer
    case ConsumerIdle => s
    case LoadTail(head) => s.(consumer := if head == s.tail then ConsumerIdle else ReadSlot(head))
    case ReadSlot(head) => if head < |s.buffer| then s.(consumer := StoreHead(head, s.buffer[head])) else s
    case StoreHead(head, item) =>
      s.(head := (head + 1) % |s.buffer|, consumer := ConsumerIdle, received := s.received + [item])
  }

  function Apply<T>(s: State<T>, a: Action<T>): State<T>
    requires |s.buffer| > 0
  {
    match a
    case CallEnqueue(item) =>
      if s.producer.ProducerIdle? then s.(producer := LoadHead(item, s.tail, (s.tail + 1) % |s.buffer|)) else s
    case CallDequeue => if s.consumer.ConsumerIdle? then s.(consumer := LoadTail(s.head)) else s
    case StepProducer => ProducerStep(s)
    case StepConsumer => ConsumerStep(s)
  }

  function After<T>(s: State<T>, schedule: seq<Action<T>>): (r: State<T>)
    requires |s.buffer| > 0
    ensures |r.buffer| == |s.buffer|
  {
    if schedule == [] then s
    else Apply(After(s, schedule[..|schedule| - 1]), schedule[|schedule| - 1])
  }

  // ---------------------------------------------------------------- the invariant

  /** Head and tail are the counts of removed and inserted values modulo the capacity; at most capacity - 1 apart. */
  ghost predicate IndexInv<T>(s: State<T>) {
    && |s.buffer| > 0
    && |s.received| <= |s.sent| < |s.received| + |s.buffer|
    && s.head == |s.received| % |s.buffer|
    && s.tail == |s.sent| % |s.buffer|
  }

  /** Each live slot holds the value sent for its position, and what was received is a prefix of what was sent. */
  ghost predicate DataInv<T>(s: State<T>)
    requires |s.buffer| > 0
  {
    && |s.received| <= |s.sent|
    && (forall i {:trigger s.sent[i]} :: |s.received| <= i < |s.sent| ==> s.buffer[i % |s.buffer|] == s.sent[i])
    && s.received == s.sent[..|s.received|]
  }

  ghost predicate ProducerInv<T>(s: State<T>)
    requires |s.buffer| > 0
  {
    !s.producer.ProducerIdle? ==>
      && s.producer.tail == |s.sent| % |s.buffer| && s.producer.next == (|s.sent| + 1) % |s.buffer|
      && (!s.producer.LoadHead? ==> |s.sent| - |s.received| < |s.buffer| - 1)
      && (s.producer.StoreTail? ==> s.buffer[s.producer.tail] == s.producer.item)
  }

  ghost predicate ConsumerInv<T>(s: State<T>)
    requires |s.buffer| > 0
  {
    !s.consumer.ConsumerIdle? ==>
      && s.consumer.head == |s.received| % |s.buffer|
      && (!s.consumer.LoadTail? ==> |s.received| < |s.sent|)
      && (s.consumer.StoreHead? ==> s.consumer.item == s.sent[|s.received|])
  }

  ghost predicate Inv<T>(s: State<T>) {
    IndexInv(s) && DataInv(s) && ProducerInv(s) && ConsumerInv(s)
  }

  /** With at most capacity - 1 values in the ring, the next tail meets the head exactly when the ring is full. */
  lemma FullTest<T>(s: State<T>)
    requires IndexInv(s)
    ensures (|s.sent| + 1) % |s.buffer| == s.head <==> |s.sent| - |s.received| == |s.buffer| - 1
  {
    if |s.sent| - |s.received| == |s.buffer| - 1 {
      ModOf(|s.sent| + 1, |s.buffer|, |s.received| / |s.buffer| + 1, |s.received| % |s.buffer|) by {
        assert |s.received| == |s.buffer| * (|s.received| / |s.buffer|) + |s.received| % |s.buffer|;
        assert |s.buffer| * (|s.received| / |s.buffer| + 1) == |s.buffer| * (|s.received| / |s.buffer|) + |s.buffer|;
      }
    } else {
      ModDistinct(|s.received|, |s.sent| + 1, |s.buffer|);
    }
  }

  lemma EmptyTest<T>(s: State<T>)
    requires IndexInv(s)
    ensures s.head == s.tail <==> |s.sent| == |s.received|
  {
    if |s.received| < |s.sent| { ModDistinct(|s.received|, |s.sent|, |s.buffer|); }
  }

  /** The slot about to be written holds none of the live values. */
  lemma FreeSlot<T>(s: State<T>, i: nat)
    requires IndexInv(s) && |s.received| <= i < |s.sent|
    ensures i % |s.buffer| != |s.sent| % |s.buffer|
  {
    ModDistinct(i, |s.sent|, |s.buffer|);
  }

  lemma ProducerKeeps<T>(s: State<T>)
    requires Inv(s)
    ensures Inv(ProducerStep(s))
  {
    FullTest(s);
    match s.producer
    case WriteSlot(item, tail, next) =>
      forall i | |s.received| <= i < |s.sent| ensures i % |s.buffer| != tail { FreeSlot(s, i); }
    case _ =>
  }

  lemma ConsumerKeeps<T>(s: State<T>)
    requires Inv(s)
    ensures Inv(ConsumerStep(s))
  {
    EmptyTest(s);
    match s.consumer
    case ReadSlot(head) => assert s.buffer[|s.received| % |s.buffer|] == s.sent[|s.received|];
    case StoreHead(head, item) => ModStep(|s.received|, |s.buffer|);
    case _ =>
  }

  /** Every step of either thread keeps the invariant. */
  lemma StepKeepsInv<T>(s: State<T>, a: Action<T>)
    requires Inv(s)
    ensures Inv(Apply(s, a))
  {
    match a
    case CallEnqueue(item) => ModStep(|s.sent|, |s.buffer|);
    case CallDequeue =>
    case StepProducer => ProducerKeeps(s);
    case StepConsumer => ConsumerKeeps(s);
  }

  lemma {:induction false} RunKeepsInv<T>(buffer: seq<T>, schedule: seq<Action<T>>)
    requires |buffer| > 0
    ensures Inv(After(Init(buffer), schedule))
  {
    if schedule == [] {
    } else {
      RunKeepsInv(buffer, schedule[..|schedule| - 1]);
      hide Inv, Apply, Init;
      StepKeepsInv(After(Init(buffer), schedule[..|schedule| - 1]), schedule[|schedule| - 1]);
    }
  }

  // ---------------------------------------------------------------- theorems

  /** The values sent and not yet received. */
  function InFlight<T>(s: State<T>): seq<T>
    requires |s.received| <= |s.sent|
  {
    s.sent[|s.received|..]
  }

  /** The `i`-th slot after the head is the slot of the `i`-th value not yet received. */
  lemma SlotIsPosition(h: nat, i: nat, c: nat)
    requires i < c
    ensures h % c < c && Slot(c, h % c, i) == (h + i) % c
  {
    var q := h / c;
    assert h == c * q + h % c;
    if h % c + i < c {
      ModOf(h + i, c, q, h % c + i);
    } else {
      assert c * (q + 1) == c * q + c;
      ModOf(h + i, c, q + 1, h % c + i - c);
    }
  }

  lemma SizeIsCount<T>(s: State<T>)
    requires IndexInv(s)
    ensures s.head < |s.buffer| && s.tail < |s.buffer| && Size(|s.buffer|, s.head, s.tail) == |s.sent| - |s.received|
  {
    var n := |s.sent| - |s.received|;
    SlotIsPosition(|s.received|, n, |s.buffer|);
    assert |s.received| + n == |s.sent|;
  }

  /** Ring refinement: what lies in the buffer between the two indices is exactly what was sent and not received. */
  lemma RingIsInFlight<T>(s: State<T>)
    requires Inv(s)
    ensures s.head < |s.buffer| && s.tail < |s.buffer|
    ensures RingContents(s.buffer, s.head, s.tail) == InFlight(s)
    ensures |InFlight(s)| <= |s.buffer| - 1
  {
    SizeIsCount(s);
    var q := RingContents(s.buffer, s.head, s.tail);
    forall i | 0 <= i < |InFlight(s)| ensures q[i] == InFlight(s)[i] {
      SlotIsPosition(|s.received|, i, |s.buffer|);
      assert s.sent[|s.received| + i] == InFlight(s)[i];
    }
  }

  /**
    In every run the buffer refines a FIFO of bound capacity - 1: each action leaves the ring's contents alone,
    except that the store of tail appends the producer's item and the store of head removes the front, which is
    the value the consumer read and returns.
   */
  lemma RingRefinesFifo<T>(buffer: seq<T>, schedule: seq<Action<T>>, a: Action<T>)
    requires |buffer| > 0
    ensures
      var s := After(Init(buffer), schedule);
      var r := Apply(s, a);
      && s.head < |buffer| && s.tail < |buffer| && r.head < |buffer| && r.tail < |buffer| && |r.buffer| == |buffer|
      && var q, next := RingContents(s.buffer, s.head, s.tail), RingContents(r.buffer, r.head, r.tail);
         && |q| <= |buffer| - 1
         && (if a.StepProducer? && s.producer.StoreTail? then next == q + [s.producer.item]
             else if a.StepConsumer? && s.consumer.StoreHead? then q != [] && q[0] == s.consumer.item && next == q[1..]
             else next == q)
  {
    var s := After(Init(buffer), schedule);
    RunKeepsInv(buffer, schedule);
    StepKeepsInv(s, a);
    RingIsInFlight(s);
    RingIsInFlight(Apply(s, a));
    HistoryMoves(s, a);
    hide After, Inv, Apply, RingContents;
  }

  lemma HistoryMoves<T>(s: State<T>, a: Action<T>)
    requires Inv(s) && Inv(Apply(s, a))
    ensures
      if a.StepProducer? && s.producer.StoreTail? then InFlight(Apply(s, a)) == InFlight(s) + [s.producer.item]
      else if a.StepConsumer? && s.consumer.StoreHead? then
        InFlight(s) != [] && InFlight(s)[0] == s.consumer.item && InFlight(Apply(s, a)) == InFlight(s)[1..]
      else InFlight(Apply(s, a)) == InFlight(s)
  {
    if a.StepProducer? && s.producer.StoreTail? {
      assert (s.sent + [s.producer.item])[|s.received|..] == s.sent[|s.received|..] + [s.producer.item];
    }
  }

  /**
    A refusal is honest: a call returns false at its load of the other side's index, and does so if and only if
    at that instant the ring holds capacity - 1 values (enqueue) or none (dequeue).
   */
  lemma RefusalIsHonest<T>(buffer: seq<T>, schedule: seq<Action<T>>)
    requires |buffer| > 0
    ensures
      var s := After(Init(buffer), schedule);
      && s.head < |buffer| && s.tail < |buffer|
      && var q := RingContents(s.buffer, s.head, s.tail);
         && (s.producer.LoadHead? ==> (ProducerStep(s).producer.ProducerIdle? <==> |q| == |buffer| - 1))
         && (s.consumer.LoadTail? ==> (ConsumerStep(s).consumer.ConsumerIdle? <==> q == []))
         && (s.producer.WriteSlot? || s.producer.StoreTail? ==> |q| < |buffer| - 1)
         && (s.consumer.ReadSlot? || s.consumer.StoreHead? ==> q != [])
  {
    var s := After(Init(buffer), schedule);
    RunKeepsInv(buffer, schedule);
    RingIsInFlight(s);
    FullTest(s);
    EmptyTest(s);
    hide After, RingContents;
  }

  /**
    Slot ownership: the slot the producer is about to write, or has written and not yet published, is never the
    one the consumer may be reading, nor that of any other live value; and what the consumer has read is still
    the value in its slot and the next in line.
   */
  lemma SlotsAreOwned<T>(buffer: seq<T>, schedule: seq<Action<T>>)
    requires |buffer| > 0
    ensures
      var s := After(Init(buffer), schedule);
      && (s.producer.WriteSlot? || s.producer.StoreTail? ==>
            && s.producer.tail < |buffer|
            && (s.consumer.ReadSlot? || s.consumer.StoreHead? ==> s.producer.tail != s.consumer.head)
            && (forall i :: |s.received| <= i < |s.sent| ==> i % |buffer| != s.producer.tail))
      && (s.consumer.StoreHead? ==>
            s.consumer.head < |buffer| && |s.received| < |s.sent| && s.consumer.item == s.buffer[s.consumer.head] == s.sent[|s.received|])
  {
    var s := After(Init(buffer), schedule);
    RunKeepsInv(buffer, schedule);
    SizeIsCount(s);
    if s.producer.WriteSlot? || s.producer.StoreTail? {
      forall i | |s.received| <= i < |s.sent| ensures i % |buffer| != s.producer.tail { FreeSlot(s, i); }
    }
    hide After;
  }

  /** What the producer has handed over, in order, after each accepted call. */
  ghost function Accepted<T>(s: State<T>, schedule: seq<Action<T>>): seq<T>
    requires |s.buffer| > 0
  {
    if schedule == [] then []
    else
      var front, last := schedule[..|schedule| - 1], schedule[|schedule| - 1];
      var p := After(s, front).producer;
      if last.StepProducer? && p.StoreTail? then Accepted(s, front) + [p.item] else Accepted(s, front)
  }

  /** The values the consumer's successful calls have returned, in order. */
  ghost function Returned<T>(s: State<T>, schedule: seq<Action<T>>): seq<T>
    requires |s.buffer| > 0
  {
    if schedule == [] then []
    else
      var front, last := schedule[..|schedule| - 1], schedule[|schedule| - 1];
      var c := After(s, front).consumer;
      if last.StepConsumer? && c.StoreHead? then Returned(s, front) + [c.item] else Returned(s, front)
  }

  lemma {:induction false} HistoryIsCalls<T>(buffer: seq<T>, schedule: seq<Action<T>>)
    requires |buffer| > 0
    ensures After(Init(buffer), schedule).sent == Accepted(Init(buffer), schedule)
    ensures After(Init(buffer), schedule).received == Returned(Init(buffer), schedule)
  {
    if schedule == [] {
    } else {
      HistoryIsCalls(buffer, schedule[..|schedule| - 1]);
    }
  }

  /** Conservation: over any run the accepted items are the returned ones followed by what is in the ring. */
  lemma NothingLostInRing<T>(buffer: seq<T>, schedule: seq<Action<T>>)
    requires |buffer| > 0
    ensures
      var s := After(Init(buffer), schedule);
      && s.head < |buffer| && s.tail < |buffer|
      && Accepted(Init(buffer), schedule) == Returned(Init(buffer), schedule) + RingContents(s.buffer, s.head, s.tail)
  {
    RunKeepsInv(buffer, schedule);
    HistoryIsCalls(buffer, schedule);
    RingIsInFlight(After(Init(buffer), schedule));
    hide RingContents, After;
  }

  /** The arguments of the enqueue calls of a run, in order, less those whose call returned false at its load (line 19). */
  ghost function Unrefused<T>(s: State<T>, schedule: seq<Action<T>>): seq<T>
    requires |s.buffer| > 0
  {
    if schedule == [] then []
    else
      var front, last := schedule[..|schedule| - 1], schedule[|schedule| - 1];
      var q, p := Unrefused(s, front), After(s, front);
      if last.CallEnqueue? && p.producer.ProducerIdle? then q + [last.item]
      else if last.StepProducer? && p.producer.LoadHead? && p.producer.next == p.head && q != [] then q[..|q| - 1]
      else q
  }

  function Underway<T>(p: Producer<T>): seq<T> {
    if p.ProducerIdle? then [] else [p.item]
  }

  lemma OfferStep<T>(s: State<T>, a: Action<T>)
    requires Inv(s)
    ensures
      var p, r := s.producer, Apply(s, a).producer;
      if a.CallEnqueue? && p.ProducerIdle? then r.LoadHead? && r.item == a.item
      else if a.StepProducer? && p.LoadHead? && p.next == s.head then r.ProducerIdle?
      else if a.StepProducer? && p.StoreTail? then r.ProducerIdle?
      else Underway(r) == Underway(p)
  {
    SizeIsCount(s);
  }

  /**
    What was accepted is what was offered: over any run the accepted items, then the one still underway, are the
    arguments of the enqueue calls in order, less exactly those of the calls that returned false.
   */
  lemma {:induction false} AcceptedAreOffered<T>(buffer: seq<T>, schedule: seq<Action<T>>)
    requires |buffer| > 0
    ensures
      var s := After(Init(buffer), schedule);
      Unrefused(Init(buffer), schedule) == Accepted(Init(buffer), schedule) + Underway(s.producer)
  {
    hide Inv, Apply;
    if schedule == [] {
    } else {
      var front, last := schedule[..|schedule| - 1], schedule[|schedule| - 1];
      AcceptedAreOffered(buffer, front);
      RunKeepsInv(buffer, front);
      OfferStep(After(Init(buffer), front), last);
    }
  }

  // ---------------------------------------------------------------- wait freedom, and the object

  function ProducerLeft<T>(p: Producer<T>): nat {
    match p
    case ProducerIdle => 0
    case StoreTail(_, _, _) => 1
    case WriteSlot(_, _, _) => 2
    case LoadHead(_, _, _) => 3
  }

  function ConsumerLeft<T>(c: Consumer<T>): nat {
    match c
    case ConsumerIdle => 0
    case StoreHead(_, _) => 1
    case ReadSlot(_) => 2
    case LoadTail(_) => 3
  }

  function Turns<T(==)>(schedule: seq<Action<T>>, a: Action<T>): nat {
    if schedule == [] then 0 else Turns(schedule[..|schedule| - 1], a) + if schedule[|schedule| - 1] == a then 1 else 0
  }

  /**
    Wait freedom: each call ends after at most three further steps of its own thread, whatever the other
    thread does in between.
   */
  lemma {:induction false} OwnStepsSuffice<T>(s: State<T>, schedule: seq<Action<T>>)
    requires Inv(s)
    requires forall k :: 0 <= k < |schedule| ==> !schedule[k].CallEnqueue? && !schedule[k].CallDequeue?
    ensures Inv(After(s, schedule))
    ensures Turns(schedule, StepProducer) >= ProducerLeft(s.producer) ==> After(s, schedule).producer.ProducerIdle?
    ensures Turns(schedule, StepConsumer) >= ConsumerLeft(s.consumer) ==> After(s, schedule).consumer.ConsumerIdle?
    ensures ProducerLeft(After(s, schedule).producer) == 0 || ProducerLeft(After(s, schedule).producer) + Turns(schedule, StepProducer) <= ProducerLeft(s.producer)
    ensures ConsumerLeft(After(s, schedule).consumer) == 0 || ConsumerLeft(After(s, schedule).consumer) + Turns(schedule, StepConsumer) <= ConsumerLeft(s.consumer)
  {
    if schedule == [] {
    } else {
      var front, last := schedule[..|schedule| - 1], schedule[|schedule| - 1];
      OwnStepsSuffice(s, front);
      StepKeepsInv(After(s, front), last);
      OwnStep(After(s, front), last);
      hide Inv, Apply, ProducerLeft, ConsumerLeft;
    }
  }

  lemma OwnStep<T>(s: State<T>, a: Action<T>)
    requires Inv(s) && !a.CallEnqueue? && !a.CallDequeue?
    ensures
      var r := Apply(s, a);
      && (if a.StepProducer? then ProducerLeft(r.producer) < ProducerLeft(s.producer) || ProducerLeft(s.producer) == ProducerLeft(r.producer) == 0
          else r.producer == s.producer)
      && (if a.StepConsumer? then ConsumerLeft(r.consumer) < ConsumerLeft(s.consumer) || ConsumerLeft(s.consumer) == ConsumerLeft(r.consumer) == 0
          else r.consumer == s.consumer)
  {
    SizeIsCount(s);
  }

  /** An enqueue whose steps meet no step of the consumer leaves the ring as the object's Enqueue does. */
  lemma SoloEnqueue<T>(s: State<T>, item: T)
    requires Inv(s) && s.producer.ProducerIdle?
    ensures s.head < |s.buffer| && s.tail < |s.buffer|
    ensures
      var r := ProducerStep(ProducerStep(ProducerStep(Apply(s, CallEnqueue(item)))));
      var ok := |RingContents(s.buffer, s.head, s.tail)| < |s.buffer| - 1;
      && r.producer.ProducerIdle? && r.consumer == s.consumer && r.head == s.head && r.received == s.received
      && r.buffer == (if ok then s.buffer[s.tail := item] else s.buffer)
      && r.tail == (if ok then Next(|s.buffer|, s.tail) else s.tail)
      && r.sent == (if ok then s.sent + [item] else s.sent)
  {
    RingIsInFlight(s);
    FullTest(s);
    ModStep(|s.sent|, |s.buffer|);
    NextIsMod(|s.buffer|, s.tail);
    hide RingContents, DataInv;
  }

  /** The same for a dequeue and the object's Dequeue. */
  lemma SoloDequeue<T>(s: State<T>)
    requires Inv(s) && s.consumer.ConsumerIdle?
    ensures s.head < |s.buffer| && s.tail < |s.buffer|
    ensures
      var r := ConsumerStep(ConsumerStep(ConsumerStep(Apply(s, CallDequeue))));
      var ok := RingContents(s.buffer, s.head, s.tail) != [];
      && r.consumer.ConsumerIdle? && r.producer == s.producer && r.tail == s.tail && r.buffer == s.buffer && r.sent == s.sent
      && r.head == (if ok then Next(|s.buffer|, s.head) else s.head)
      && r.received == (if ok then s.received + [s.buffer[s.head]] else s.received)
  {
    RingIsInFlight(s);
    EmptyTest(s);
    NextIsMod(|s.buffer|, s.head);
    hide RingContents, DataInv;
  }
}
