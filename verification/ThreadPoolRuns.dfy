/** Theorems about every run of the thread pool: no lost wakeup, exactly-once dispatch, callers, shutdown. */
module ThreadPoolRuns {
  import opened Wrappers
  import opened ThreadPool

  // ---------------------------------------------------------------- the callers' arguments

  /** The arguments of the executeAsyncTask calls of a run, in the order of their pushes; a push waits for queueMutex. */
  ghost function Arguments<V>(p: Pool<V>, schedule: seq<Action<V>>): seq<V> {
    if schedule == [] then []
    else
      var front, last := schedule[..|schedule| - 1], schedule[|schedule| - 1];
      Arguments(p, front) + if last.Submit? && MutexFree(After(p, front).workers) then [last.body] else []
  }

  function Bodies<V>(calls: seq<Call<V>>): seq<V> {
    seq(|calls|, c requires 0 <= c < |calls| => calls[c].body)
  }

  /** A step adds the argument of a push that takes effect, and changes the task of no call. */
  lemma BodiesStep<V>(p: Pool<V>, a: Action<V>)
    ensures Bodies(Apply(p, a).calls) == Bodies(p.calls) + if a.Submit? && MutexFree(p.workers) then [a.body] else []
  {
    hide WorkStep, MutexFree, AllExited;
    if a.Work? {
      if a.worker < |p.workers| { WorkMovesTasks(p, a.worker); }
    } else if !a.Submit? {
      hide Apply;
      NotificationsMoveNoTask(p, a);
    }
  }

  lemma {:induction false} BodiesAreArguments<V>(p: Pool<V>, schedule: seq<Action<V>>)
    requires p.calls == []
    ensures Bodies(After(p, schedule).calls) == Arguments(p, schedule)
  {
    hide Apply, MutexFree;
    if schedule == [] {
    } else {
      var front, last := schedule[..|schedule| - 1], schedule[|schedule| - 1];
      BodiesAreArguments(p, front);
      BodiesStep(After(p, front), last);
    }
  }

  /** The calls of a run are those of its schedule, each with its own argument. */
  lemma CallsAreSubmissions<V>(lockedStop: bool, numThreads: nat, schedule: seq<Action<V>>)
    ensures
      var p, args := After(Init(lockedStop, numThreads), schedule), Arguments(Init(lockedStop, numThreads), schedule);
      |p.calls| == |args| && forall c :: 0 <= c < |args| ==> p.calls[c].body == args[c]
  {
    BodiesAreArguments(Init(lockedStop, numThreads), schedule);
    hide After, Arguments;
    var p := After(Init(lockedStop, numThreads), schedule);
    assert forall c :: 0 <= c < |p.calls| ==> Bodies(p.calls)[c] == p.calls[c].body;
  }

  // ---------------------------------------------------------------- wakeups and dispatch

  /**
    No lost wakeup: at any moment of any run, while some worker is blocked the queue is no longer than the
    notifications still to come plus the workers already woken; so if there are none, the queue is empty.
   */
  lemma NoLostWakeup<V>(lockedStop: bool, numThreads: nat, schedule: seq<Action<V>>)
    ensures
      var p := After(Init(lockedStop, numThreads), schedule);
      SomeBlocked(p.workers) ==>
        && |p.tasks| <= Unnotified(p.calls) + Awake(p.workers)
        && (Unnotified(p.calls) == 0 && Awake(p.workers) == 0 ==> p.tasks == [])
  {
    RunKeepsInv(lockedStop, numThreads, schedule);
  }

  ghost predicate Queued<V>(p: Pool<V>, i: nat) {
    exists j :: 0 <= j < |p.tasks| && p.tasks[j].promise == i
  }

  ghost predicate Fulfilled<V>(p: Pool<V>, i: nat) {
    i < |p.promises| && p.promises[i].Some?
  }

  /**
    Exactly once, in FIFO order: what was pushed is what was popped followed by the queue, one task for each argument
    in order; and each call's task is in exactly one of three places - queued, running on exactly one worker, or done
    with its promise set to the call's argument.
   */
  lemma ExactlyOnce<V>(lockedStop: bool, numThreads: nat, schedule: seq<Action<V>>)
    ensures
      var p, args := After(Init(lockedStop, numThreads), schedule), Arguments(Init(lockedStop, numThreads), schedule);
      && |p.calls| == |p.submitted| == |p.promises| == |args|
      && p.submitted == p.dispatched + p.tasks
      && (forall i :: 0 <= i < |args| ==> p.submitted[i] == Task(i, args[i]))
      && (forall i :: 0 <= i < |args| ==>
            && (Queued(p, i) || RunsOnSome(p, i) || Fulfilled(p, i))
            && !(Queued(p, i) && RunsOnSome(p, i)) && !(Queued(p, i) && Fulfilled(p, i)) && !(RunsOnSome(p, i) && Fulfilled(p, i))
            && (Fulfilled(p, i) ==> p.promises[i] == Some(args[i])))
      && (forall w, v :: 0 <= w < v < |p.workers| && p.workers[w].Running? && p.workers[v].Running? ==>
            p.workers[w].task.promise != p.workers[v].task.promise)
  {
    hide After, Arguments, Init, WakeInv, MutexInv, ShutdownInv, Queued;
    RunKeepsInv(lockedStop, numThreads, schedule);
    CallsAreSubmissions(lockedStop, numThreads, schedule);
    var p := After(Init(lockedStop, numThreads), schedule);
    forall i | 0 <= i < |p.calls|
      ensures Queued(p, i) <==> i >= |p.dispatched|
    {
      QueuedIsUndispatched(p, i);
    }
  }

  lemma QueuedIsUndispatched<V>(p: Pool<V>, i: nat)
    requires FifoInv(p) && i < |p.calls|
    ensures Queued(p, i) <==> i >= |p.dispatched|
  {
    if i >= |p.dispatched| {
      assert p.submitted[i] == p.tasks[i - |p.dispatched|];
    }
    forall j | 0 <= j < |p.tasks| ensures p.tasks[j].promise == |p.dispatched| + j {
      assert p.submitted[|p.dispatched| + j] == p.tasks[j];
    }
  }

  /**
    Every caller that returns gets the value of the task it passed, no promise is set twice, and no task starts after
    its caller has returned, so a task never begins with captures that are gone.
   */
  lemma CallersGetTheirOwnValue<V>(lockedStop: bool, numThreads: nat, schedule: seq<Action<V>>)
    ensures
      var p, args := After(Init(lockedStop, numThreads), schedule), Arguments(Init(lockedStop, numThreads), schedule);
      && !p.broken && |p.calls| == |args|
      && (forall c :: 0 <= c < |args| && p.calls[c].Returned? ==> p.calls[c].value == args[c])
  {
    hide After, Arguments, Init, WakeInv, MutexInv, ShutdownInv, PromiseInv, FifoInv;
    RunKeepsInv(lockedStop, numThreads, schedule);
    CallsAreSubmissions(lockedStop, numThreads, schedule);
  }

  // ---------------------------------------------------------------- callers get on

  /** The actions that workers and callers take of their own accord. */
  predicate Internal<V>(a: Action<V>) {
    a.Work? || a.Notify? || a.Return?
  }

  function WorkerWeight<V>(w: Worker<V>): nat {
    match w
    case Running(_) => 3
    case Ready => 2
    case Woken => 2
    case Deciding => 1
    case _ => 0
  }

  function CallWeight<V>(c: Call<V>): nat {
    match c
    case Notifying(_) => 4
    case Waiting(_) => 1
    case Returned(_, _) => 0
  }

  function WorkersWeight<V>(workers: seq<Worker<V>>): nat {
    if workers == [] then 0 else WorkerWeight(workers[0]) + WorkersWeight(workers[1..])
  }

  function CallsWeight<V>(calls: seq<Call<V>>): nat {
    if calls == [] then 0 else CallWeight(calls[0]) + CallsWeight(calls[1..])
  }

  /** What is left to do before the pool is at rest. */
  function Potential<V>(p: Pool<V>): nat {
    WorkersWeight(p.workers) + CallsWeight(p.calls) + 2 * |p.tasks|
  }

  lemma {:induction false} WorkersWeightUpdate<V>(workers: seq<Worker<V>>, w: nat, x: Worker<V>)
    requires w < |workers|
    ensures WorkersWeight(workers[w := x]) + WorkerWeight(workers[w]) == WorkersWeight(workers) + WorkerWeight(x)
  {
    if w > 0 {
      WorkersWeightUpdate(workers[1..], w - 1, x);
      assert workers[w := x][1..] == workers[1..][w - 1 := x];
    }
  }

  lemma {:induction false} CallsWeightUpdate<V>(calls: seq<Call<V>>, c: nat, x: Call<V>)
    requires c < |calls|
    ensures CallsWeight(calls[c := x]) + CallWeight(calls[c]) == CallsWeight(calls) + CallWeight(x)
  {
    if c > 0 {
      CallsWeightUpdate(calls[1..], c - 1, x);
      assert calls[c := x][1..] == calls[1..][c - 1 := x];
    }
  }

  lemma WorkDecreases<V>(p: Pool<V>, w: nat)
    requires w < |p.workers| && WorkStep(p, w) != p
    ensures Potential(WorkStep(p, w)) < Potential(p)
  {
    hide WorkersWeight, CallsWeight, MutexFree, Recheck;
    if p.workers[w].Ready? || p.workers[w].Woken? {
      RecheckDecreases(p, w);
    } else {
      WorkersWeightUpdate(p.workers, w, WorkStep(p, w).workers[w]);
    }
  }

  lemma RecheckDecreases<V>(p: Pool<V>, w: nat)
    requires w < |p.workers| && (p.workers[w].Ready? || p.workers[w].Woken?) && Recheck(p, w) != p
    ensures Potential(Recheck(p, w)) < Potential(p)
  {
    hide WorkersWeight, CallsWeight, MutexFree;
    WorkersWeightUpdate(p.workers, w, Recheck(p, w).workers[w]);
  }

  lemma NotifyDecreases<V>(p: Pool<V>, c: nat, w: nat)
    requires Apply(p, Notify(c, w)) != p
    ensures Potential(Apply(p, Notify(c, w))) < Potential(p)
  {
    var r := Apply(p, Notify(c, w));
    CallsWeightUpdate(p.calls, c, r.calls[c]);
    if SomeBlocked(p.workers) { WorkersWeightUpdate(p.workers, w, Woken); }
    hide WorkersWeight, CallsWeight, SomeBlocked;
  }

  lemma ReturnDecreases<V>(p: Pool<V>, c: nat)
    requires Apply(p, Return(c)) != p
    ensures Potential(Apply(p, Return(c))) < Potential(p)
  {
    CallsWeightUpdate(p.calls, c, Apply(p, Return(c)).calls[c]);
    hide WorkersWeight, CallsWeight;
  }

  /** Every internal action that does anything brings the pool closer to rest. */
  lemma InternalDecreases<V>(p: Pool<V>, a: Action<V>)
    requires Internal(a) && Apply(p, a) != p
    ensures Potential(Apply(p, a)) < Potential(p)
  {
    match a
    case Work(w) => WorkDecreases(p, w);
    case Notify(c, w) => NotifyDecreases(p, c, w);
    case Return(c) => ReturnDecreases(p, c);
  }

  /**
    So internal activity cannot go on for ever: a run of `n` internal actions that all do something uses up at
    least `n` of the potential.
   */
  lemma {:induction false} InternalRunsAreShort<V>(p: Pool<V>, schedule: seq<Action<V>>)
    requires forall k :: 0 <= k < |schedule| ==> Internal(schedule[k]) && Apply(After(p, schedule[..k]), schedule[k]) != After(p, schedule[..k])
    ensures |schedule| + Potential(After(p, schedule)) <= Potential(p)
  {
    if schedule == [] {
    } else {
      var n := |schedule| - 1;
      forall k | 0 <= k < n ensures schedule[..n][..k] == schedule[..k] {}
      InternalRunsAreShort(p, schedule[..n]);
      hide Apply, Potential;
      InternalDecreases(After(p, schedule[..n]), schedule[n]);
    }
  }

  /** No internal action can change anything any more. */
  ghost predicate AtRest<V>(p: Pool<V>) {
    && (forall w: nat :: Apply(p, Work(w)) == p)
    && (forall c: nat, w: nat :: Apply(p, Notify(c, w)) == p)
    && (forall c: nat :: Apply(p, Return(c)) == p)
  }

  lemma WorkIsEffective<V>(p: Pool<V>, w: nat)
    requires w < |p.workers|
    ensures p.workers[w].Deciding? || p.workers[w].Running? ==> Apply(p, Work(w)) != p
    ensures MutexFree(p.workers) && (p.workers[w].Ready? || p.workers[w].Woken?) ==> Apply(p, Work(w)) != p
  {
    assert p.workers[w].Deciding? || p.workers[w].Running? ==> WorkStep(p, w).workers[w] != p.workers[w];
    assert MutexFree(p.workers) && (p.workers[w].Ready? || p.workers[w].Woken?) ==> Recheck(p, w).workers[w] != p.workers[w];
  }

  lemma NotifyIsEffective<V>(p: Pool<V>, c: nat) returns (w: nat)
    requires c < |p.calls| && p.calls[c].Notifying?
    ensures Apply(p, Notify(c, w)) != p
  {
    if SomeBlocked(p.workers) {
      w :| 0 <= w < |p.workers| && p.workers[w].Blocked?;
    } else {
      w := 0;
    }
    assert Apply(p, Notify(c, w)).calls[c].Waiting?;
  }

  lemma ReturnIsEffective<V>(p: Pool<V>, c: nat)
    requires c < |p.calls| == |p.promises| && p.calls[c].Waiting? && p.promises[c].Some?
    ensures Apply(p, Return(c)) != p
  {
    assert Apply(p, Return(c)).calls[c].Returned?;
  }

  lemma RestingWorkers<V>(p: Pool<V>)
    requires AtRest(p)
    ensures forall w :: 0 <= w < |p.workers| ==> p.workers[w].Blocked? || p.workers[w].Exited?
  {
    hide Apply;
    forall w | 0 <= w < |p.workers| ensures !p.workers[w].Deciding? && !p.workers[w].Running? { WorkIsEffective(p, w); }
    forall w | 0 <= w < |p.workers| ensures p.workers[w].Blocked? || p.workers[w].Exited? { WorkIsEffective(p, w); }
  }

  lemma RestingCalls<V>(p: Pool<V>, c: nat)
    requires AtRest(p) && c < |p.calls| == |p.promises|
    ensures !p.calls[c].Notifying? && (p.calls[c].Waiting? ==> p.promises[c].None?)
  {
    hide Apply;
    if p.calls[c].Notifying? {
      var w := NotifyIsEffective(p, c);
    } else if p.calls[c].Waiting? && p.promises[c].Some? {
      ReturnIsEffective(p, c);
    }
  }

  lemma {:induction false} RestingCounts<V>(workers: seq<Worker<V>>, calls: seq<Call<V>>)
    requires forall w :: 0 <= w < |workers| ==> !workers[w].Woken?
    requires forall c :: 0 <= c < |calls| ==> !calls[c].Notifying?
    ensures Awake(workers) == 0 && Unnotified(calls) == 0
    decreases |workers| + |calls|
  {
    if workers != [] { RestingCounts(workers[1..], calls); }
    if calls != [] { RestingCounts(workers, calls[1..]); }
  }

  /**
    No caller is stuck: in every reachable state of a pool with a worker, if nothing can happen by itself then
    every call has returned, except tasks pushed after the last worker had exited.
   */
  lemma RestMeansAllReturned<V>(lockedStop: bool, numThreads: nat, schedule: seq<Action<V>>)
    requires numThreads >= 1
    requires AtRest(After(Init(lockedStop, numThreads), schedule))
    ensures
      var p := After(Init(lockedStop, numThreads), schedule);
      forall c :: 0 <= c < |p.calls| ==> p.calls[c].Returned? || (AllExited(p.workers) && Task(c, p.calls[c].body) in p.orphans)
  {
    var p := After(Init(lockedStop, numThreads), schedule);
    RunKeepsInv(lockedStop, numThreads, schedule);
    WorkersCount(lockedStop, numThreads, schedule);
    RestingWorkers(p);
    forall c | 0 <= c < |p.calls| ensures !p.calls[c].Notifying? { RestingCalls(p, c); }
    RestingCounts(p.workers, p.calls);
    forall c | 0 <= c < |p.calls|
      ensures p.calls[c].Returned? || (AllExited(p.workers) && Task(c, p.calls[c].body) in p.orphans)
    {
      RestingCalls(p, c);
      RestingCall(p, c);
    }
    hide Inv, AtRest;
  }

  lemma RestingCall<V>(p: Pool<V>, c: nat)
    requires Inv(p) && |p.workers| >= 1 && c < |p.calls|
    requires forall w :: 0 <= w < |p.workers| ==> p.workers[w].Blocked? || p.workers[w].Exited?
    requires Awake(p.workers) == 0 && Unnotified(p.calls) == 0
    requires !p.calls[c].Notifying? && (p.calls[c].Waiting? ==> p.promises[c].None?)
    ensures p.calls[c].Returned? || (AllExited(p.workers) && Task(c, p.calls[c].body) in p.orphans)
  {
    if p.calls[c].Waiting? {
      assert !RunsOnSome(p, c);
      assert p.submitted[c] == p.tasks[c - |p.dispatched|];
      assert !SomeBlocked(p.workers);
    }
  }

  lemma {:induction false} WorkersCount<V>(lockedStop: bool, numThreads: nat, schedule: seq<Action<V>>)
    ensures |After(Init(lockedStop, numThreads), schedule).workers| == numThreads
  {
    if schedule == [] {
    } else {
      WorkersCount(lockedStop, numThreads, schedule[..|schedule| - 1]);
      hide Apply, Init;
      SameWorkers(After(Init(lockedStop, numThreads), schedule[..|schedule| - 1]), schedule[|schedule| - 1]);
    }
  }

  lemma SameWorkers<V>(p: Pool<V>, a: Action<V>)
    ensures |Apply(p, a).workers| == |p.workers|
  {
    hide WorkStep, MutexFree, AllExited;
    if a.Work? {
      if a.worker < |p.workers| { WorkMovesTasks(p, a.worker); }
    } else if !a.Submit? {
      hide Apply;
      NotificationsMoveNoTask(p, a);
    }
  }

  // ---------------------------------------------------------------- shutdown

  /** Under queueMutex no worker can be between its predicate and its block when `stop` is stored. */
  ghost predicate Released<V>(p: Pool<V>) {
    && (p.lockedStop && p.stop ==> MutexFree(p.workers))
    && (p.lockedStop && p.shutdown.Joining? ==> !SomeBlocked(p.workers))
    && (p.stop <==> !p.shutdown.NotStarted?)
  }

  lemma ReleasedKeeps<V>(p: Pool<V>, a: Action<V>)
    requires Released(p)
    ensures Released(Apply(p, a)) && Apply(p, a).lockedStop == p.lockedStop
  {
    hide AllExited;
    if a.Work? {
      hide WorkStep, MutexFree, SomeBlocked;
      if a.worker < |p.workers| { ReleasedWork(p, a.worker); }
    }
  }

  /** After stop a worker neither decides to sleep nor falls asleep without having decided before. */
  lemma ReleasedWork<V>(p: Pool<V>, w: nat)
    requires Released(p) && w < |p.workers|
    ensures Released(WorkStep(p, w)) && WorkStep(p, w).lockedStop == p.lockedStop
  {
  }

  /** The locked destructor strands nobody: once it has notified, no worker ever sleeps or is about to. */
  lemma {:induction false} LockedStopStrandsNobody<V>(numThreads: nat, schedule: seq<Action<V>>)
    ensures Released(After(Init(true, numThreads), schedule)) && After(Init(true, numThreads), schedule).lockedStop
    ensures
      var p := After(Init(true, numThreads), schedule);
      p.shutdown.Joining? ==> forall w :: 0 <= w < |p.workers| ==> !p.workers[w].Blocked? && !p.workers[w].Deciding?
  {
    if schedule == [] {
    } else {
      LockedStopStrandsNobody(numThreads, schedule[..|schedule| - 1]);
      hide Apply, Init;
      ReleasedKeeps(After(Init(true, numThreads), schedule[..|schedule| - 1]), schedule[|schedule| - 1]);
    }
  }

  /** The destructor is never locked out: the one worker that may hold the mutex gives it up in its next step. */
  lemma ShutdownCanStart<V>(lockedStop: bool, numThreads: nat, schedule: seq<Action<V>>)
    requires After(Init(lockedStop, numThreads), schedule).shutdown.NotStarted?
    ensures
      var p := After(Init(lockedStop, numThreads), schedule);
      exists w :: Apply(Apply(Apply(p, Work(w)), StoreStop), NotifyAll).shutdown.Joining?
  {
    RunKeepsInv(lockedStop, numThreads, schedule);
    hide After, Init;
    var p := After(Init(lockedStop, numThreads), schedule);
    var w := MutexHolder(p);
    StopsThen(Apply(p, Work(w)));
  }

  lemma StopsThen<V>(p: Pool<V>)
    requires MutexFree(p.workers) && p.shutdown.NotStarted?
    ensures Apply(Apply(p, StoreStop), NotifyAll).shutdown.Joining?
  {
  }

  lemma MutexHolder<V>(p: Pool<V>) returns (w: nat)
    requires Inv(p) && p.shutdown.NotStarted?
    ensures MutexFree(Apply(p, Work(w)).workers) && Apply(p, Work(w)).shutdown.NotStarted?
  {
    assert MutexInv(p);
    hide Inv;
    if MutexFree(p.workers) {
      w := |p.workers|;
    } else {
      w :| 0 <= w < |p.workers| && p.workers[w].Deciding?;
    }
  }

  /** Once stopped with the mutex free, no worker decides to sleep any more. */
  lemma {:induction false} NobodyDecidesAfterStop<V>(p: Pool<V>, schedule: seq<Action<V>>)
    requires p.stop && p.shutdown.Joining? && MutexFree(p.workers) && !SomeBlocked(p.workers)
    ensures
      var r := After(p, schedule);
      r.stop && r.shutdown.Joining? && MutexFree(r.workers) && !SomeBlocked(r.workers)
  {
    if schedule == [] {
    } else {
      NobodyDecidesAfterStop(p, schedule[..|schedule| - 1]);
      hide Apply, MutexFree, SomeBlocked;
      NobodyDecides(After(p, schedule[..|schedule| - 1]), schedule[|schedule| - 1]);
    }
  }

  lemma NobodyDecides<V>(p: Pool<V>, a: Action<V>)
    requires p.stop && p.shutdown.Joining? && MutexFree(p.workers) && !SomeBlocked(p.workers)
    ensures
      var r := Apply(p, a);
      r.stop && r.shutdown.Joining? && MutexFree(r.workers) && !SomeBlocked(r.workers)
  {
    hide AllExited;
  }

  /**
    Exactly when the destructor can strand a worker, in either variant: `stop` has been stored and notify_all is
    next; some worker can still be asleep after it if and only if one is between its predicate and its block.
   */
  lemma StrandsIffDeciding<V>(p: Pool<V>)
    requires p.stop && p.shutdown.Stopped?
    ensures (exists schedule :: SomeBlocked(After(Apply(p, NotifyAll), schedule).workers)) <==> !MutexFree(p.workers)
  {
    var q := Apply(p, NotifyAll);
    if MutexFree(p.workers) {
      assert MutexFree(q.workers) && !SomeBlocked(q.workers);
      forall schedule ensures !SomeBlocked(After(q, schedule).workers) { NobodyDecidesAfterStop(q, schedule); }
    } else {
      var w :| 0 <= w < |p.workers| && p.workers[w].Deciding?;
      assert q.workers[w].Deciding?;
      var schedule := [Work(w)];
      AfterExtends(q, [], Work(w));
      assert Apply(q, Work(w)).workers[w].Blocked?;
      assert SomeBlocked(After(q, schedule).workers);
    }
  }

  /** A worker asleep after notify_all stays asleep under everything but a spurious wakeup or a new notification. */
  lemma {:induction false} StrandedForever<V>(p: Pool<V>, w: nat, schedule: seq<Action<V>>)
    requires p.shutdown.Joining? && w < |p.workers| && p.workers[w].Blocked?
    requires forall k :: 0 <= k < |schedule| ==> !schedule[k].Spurious? && !schedule[k].Notify?
    ensures
      var r := After(p, schedule);
      r.shutdown.Joining? && w < |r.workers| && r.workers[w].Blocked?
  {
    if schedule == [] {
    } else {
      StrandedForever(p, w, schedule[..|schedule| - 1]);
      hide Apply;
      StrandedStep(After(p, schedule[..|schedule| - 1]), w, schedule[|schedule| - 1]);
    }
  }

  lemma StrandedStep<V>(p: Pool<V>, w: nat, a: Action<V>)
    requires p.shutdown.Joining? && w < |p.workers| && p.workers[w].Blocked? && !a.Spurious? && !a.Notify?
    ensures
      var r := Apply(p, a);
      r.shutdown.Joining? && w < |r.workers| && r.workers[w].Blocked?
  {
    hide MutexFree, AllExited, WorkStep;
    if a.Work? && a.worker < |p.workers| { StrandedWork(p, w, a.worker); }
  }

  /** The notify_one of call `c` picks worker `w`. */
  predicate Picks<V>(p: Pool<V>, a: Action<V>, w: nat) {
    a.Notify? && a.woken == w && a.call < |p.calls| && p.calls[a.call].Notifying?
  }

  /** After notify_all exactly two things wake a blocked worker: a spurious wakeup, and a notification that picks it. */
  lemma BlockedUntil<V>(p: Pool<V>, w: nat, a: Action<V>)
    requires p.shutdown.Joining? && w < |p.workers| && p.workers[w].Blocked?
    ensures w < |Apply(p, a).workers|
    ensures !Apply(p, a).workers[w].Blocked? <==> a == Spurious(w) || Picks(p, a, w)
    ensures !Apply(p, a).workers[w].Blocked? ==> Apply(p, a).workers[w].Woken?
  {
    hide MutexFree, AllExited, WorkStep;
    if a.Work? && a.worker < |p.workers| { StrandedWork(p, w, a.worker); }
  }

  /** A worker's step moves no other worker, and none that is blocked. */
  lemma StrandedWork<V>(p: Pool<V>, w: nat, v: nat)
    requires w < |p.workers| && v < |p.workers| && p.workers[w].Blocked?
    ensures
      var r := WorkStep(p, v);
      r.shutdown == p.shutdown && w < |r.workers| && r.workers[w].Blocked?
  {
    hide MutexFree, Recheck;
    if v != w { RecheckMovesOne(p, w, v); }
  }

  lemma RecheckMovesOne<V>(p: Pool<V>, w: nat, v: nat)
    requires w < |p.workers| && v < |p.workers| && v != w
    ensures Recheck(p, v).shutdown == p.shutdown && |Recheck(p, v).workers| == |p.workers| && Recheck(p, v).workers[w] == p.workers[w]
  {
    hide MutexFree;
  }

  lemma AfterExtends<V>(p: Pool<V>, schedule: seq<Action<V>>, a: Action<V>)
    ensures After(p, []) == p
    ensures After(p, schedule + [a]) == Apply(After(p, schedule), a)
    ensures [a] == [] + [a]
  {
    assert (schedule + [a])[..|schedule|] == schedule;
  }

  lemma StrandSteps<V>(p: Pool<V>)
    requires p == Init(false, 1)
    ensures
      var r := Apply(Apply(Apply(Apply(p, Work(0)), StoreStop), NotifyAll), Work(0));
      r.shutdown.Joining? && r.workers == [Blocked] && r.tasks == [] && r.calls == []
  {
    var p2 := Apply(Apply(p, Work(0)), StoreStop);
    assert p2.workers == [Deciding] && p2.shutdown.Stopped?;
    var p3 := Apply(p2, NotifyAll);
    assert p3.workers == [Deciding] && p3.shutdown.Joining?;
  }

  /** With the store of utils.cpp:52 that happens: one idle worker, and the destructor joins it for ever. */
  lemma UnlockedStopCanStrand<V>()
    ensures
      var p := After(Init<V>(false, 1), [Work(0), StoreStop, NotifyAll, Work(0)]);
      p.shutdown.Joining? && p.workers == [Blocked] && p.tasks == [] && p.calls == []
  {
    var p0 := Init<V>(false, 1);
    hide After, Apply, Init;
    AfterExtends(p0, [], Work(0));
    AfterExtends(p0, [Work(0)], StoreStop);
    AfterExtends(p0, [Work(0), StoreStop], NotifyAll);
    AfterExtends(p0, [Work(0), StoreStop, NotifyAll], Work(0));
    assert [Action<V>.Work(0)] + [StoreStop] == [Work(0), StoreStop];
    assert [Action<V>.Work(0), StoreStop] + [NotifyAll] == [Work(0), StoreStop, NotifyAll];
    assert [Action<V>.Work(0), StoreStop, NotifyAll] + [Work(0)] == [Work(0), StoreStop, NotifyAll, Work(0)];
    StrandSteps(p0);
  }

  /** After a notify_all that caught nobody between predicate and block. */
  ghost predicate Calm<V>(p: Pool<V>) {
    p.stop && p.shutdown.Joining? && MutexFree(p.workers) && !SomeBlocked(p.workers)
  }

  lemma CalmWorkers<V>(p: Pool<V>, a: Action<V>)
    requires Calm(p) && !a.Submit?
    ensures Calm(Apply(p, a)) && |Apply(p, a).workers| == |p.workers|
    ensures forall w :: 0 <= w < |p.workers| && a != Work(w) ==> (Apply(p, a).workers[w].Exited? <==> p.workers[w].Exited?)
    ensures Internal(a) || Apply(p, a) == p
  {
    NobodyDecides(p, a);
    SameWorkers(p, a);
  }

  lemma CalmStep<V>(p: Pool<V>, a: Action<V>)
    requires Calm(p) && !a.Submit?
    ensures Calm(Apply(p, a)) && Potential(Apply(p, a)) <= Potential(p) && |Apply(p, a).workers| == |p.workers|
    ensures forall w :: 0 <= w < |p.workers| && a != Work(w) ==> (Apply(p, a).workers[w].Exited? <==> p.workers[w].Exited?)
  {
    hide Potential, Apply, Calm;
    CalmWorkers(p, a);
    if Apply(p, a) != p { InternalDecreases(p, a); }
  }

  lemma CalmWork<V>(p: Pool<V>, w: nat)
    requires Calm(p) && w < |p.workers| && !p.workers[w].Exited?
    ensures Potential(Apply(p, Work(w))) < Potential(p)
  {
    WorkIsEffective(p, w);
    hide Apply, Potential;
    InternalDecreases(p, Work(w));
  }

  /** A stretch of the run without new tasks in which a live worker gets a turn brings the shutdown forward. */
  lemma {:induction false} TurnDecreases<V>(p: Pool<V>, part: seq<Action<V>>, w: nat)
    requires Calm(p) && w < |p.workers| && forall k :: 0 <= k < |part| ==> !part[k].Submit?
    ensures Calm(After(p, part)) && Potential(After(p, part)) <= Potential(p) && |After(p, part).workers| == |p.workers|
    ensures Work(w) !in part ==> (After(p, part).workers[w].Exited? <==> p.workers[w].Exited?)
    ensures Work(w) in part && !p.workers[w].Exited? ==> Potential(After(p, part)) < Potential(p)
  {
    if part == [] {
    } else {
      var front, last := part[..|part| - 1], part[|part| - 1];
      assert part == front + [last];
      TurnDecreases(p, front, w);
      hide Apply, Potential, Calm;
      CalmStep(After(p, front), last);
      if last == Work(w) && !After(p, front).workers[w].Exited? { CalmWork(After(p, front), w); }
    }
  }

  function AfterRounds<V>(p: Pool<V>, rounds: seq<seq<Action<V>>>): Pool<V>
    decreases |rounds|
  {
    if rounds == [] then p else AfterRounds(After(p, rounds[0]), rounds[1..])
  }

  /** A stretch of the run in which nothing is submitted and every worker gets at least one turn. */
  ghost predicate Round<V>(part: seq<Action<V>>, numThreads: nat) {
    (forall k :: 0 <= k < |part| ==> !part[k].Submit?) && (forall w: nat :: w < numThreads ==> Work(w) in part)
  }

  /**
    Shutdown terminates: after a notify_all that caught nobody deciding (always so in the locked variant), with
    no later enqueueTask, every worker has exited after `Potential(p)` rounds, whatever the order within them.
   */
  lemma {:induction false} ShutdownCompletes<V>(p: Pool<V>, rounds: seq<seq<Action<V>>>)
    requires Calm(p) && |rounds| >= Potential(p)
    requires forall k :: 0 <= k < |rounds| ==> Round(rounds[k], |p.workers|)
    ensures AllExited(AfterRounds(p, rounds).workers) && |AfterRounds(p, rounds).workers| == |p.workers|
    decreases |rounds|
  {
    if rounds == [] {
      if !AllExited(p.workers) {
        var w :| 0 <= w < |p.workers| && !p.workers[w].Exited?;
        CalmWork(p, w);
      }
    } else {
      if !AllExited(p.workers) {
        var w :| 0 <= w < |p.workers| && !p.workers[w].Exited?;
        hide Apply, Potential, Calm;
        TurnDecreases(p, rounds[0], w);
        ShutdownCompletes(After(p, rounds[0]), rounds[1..]);
      } else {
        ExitedRounds(p, rounds);
      }
    }
  }

  lemma {:induction false} ExitedRun<V>(p: Pool<V>, part: seq<Action<V>>)
    requires AllExited(p.workers)
    ensures After(p, part).workers == p.workers
  {
    if part == [] {
    } else {
      ExitedRun(p, part[..|part| - 1]);
      hide Apply;
      ExitedStep(After(p, part[..|part| - 1]), part[|part| - 1]);
    }
  }

  lemma ExitedStep<V>(p: Pool<V>, a: Action<V>)
    requires AllExited(p.workers)
    ensures Apply(p, a).workers == p.workers
  {
    hide MutexFree, Recheck;
  }

  lemma {:induction false} ExitedRounds<V>(p: Pool<V>, rounds: seq<seq<Action<V>>>)
    requires AllExited(p.workers)
    ensures AfterRounds(p, rounds).workers == p.workers
    decreases |rounds|
  {
    if rounds != [] {
      ExitedRun(p, rounds[0]);
      ExitedRounds(After(p, rounds[0]), rounds[1..]);
    }
  }

  // ---------------------------------------------------------------- drain

  /** Some task was pushed when every worker had already exited. */
  ghost predicate PushedTooLate<V>(p: Pool<V>, schedule: seq<Action<V>>) {
    exists k :: 0 <= k < |schedule| && schedule[k].Submit? && AllExited(After(p, schedule[..k]).workers)
  }

  lemma PushedTooLateExtends<V>(p: Pool<V>, front: seq<Action<V>>, a: Action<V>)
    ensures PushedTooLate(p, front + [a]) <==> PushedTooLate(p, front) || (a.Submit? && AllExited(After(p, front).workers))
  {
    hide After, AllExited;
    var all, n := front + [a], |front|;
    assert all[..n] == front && all[n] == a;
    forall k | 0 <= k < n ensures all[..k] == front[..k] && all[k] == front[k] {}
  }

  lemma {:induction false} OrphansArePushedTooLate<V>(p: Pool<V>, schedule: seq<Action<V>>)
    requires p.orphans == []
    ensures After(p, schedule).orphans != [] <==> PushedTooLate(p, schedule)
  {
    hide Apply, AllExited, PushedTooLate;
    if schedule == [] {
      NothingPushed(p);
    } else {
      var front, last := schedule[..|schedule| - 1], schedule[|schedule| - 1];
      OrphansArePushedTooLate(p, front);
      OrphanStep(After(p, front), last);
      PushedTooLateExtends(p, front, last);
      assert front + [last] == schedule;
    }
  }

  lemma NothingPushed<V>(p: Pool<V>)
    ensures !PushedTooLate(p, [])
  {
  }

  lemma OrphanStep<V>(p: Pool<V>, a: Action<V>)
    ensures Apply(p, a).orphans != [] <==> p.orphans != [] || (a.Submit? && AllExited(p.workers))
  {
  }

  /**
    Drain: when every worker of a pool with at least one has exited, every submitted task has been run if and
    only if none was pushed after the last exit.  (enqueueTask does not refuse tasks after stop; readme.md's does.)
   */
  lemma DrainedIffNonePushedTooLate<V>(lockedStop: bool, numThreads: nat, schedule: seq<Action<V>>)
    requires numThreads >= 1 && AllExited(After(Init(lockedStop, numThreads), schedule).workers)
    ensures
      var p := After(Init(lockedStop, numThreads), schedule);
      (forall i :: 0 <= i < |p.calls| ==> Fulfilled(p, i)) <==> !PushedTooLate(Init(lockedStop, numThreads), schedule)
  {
    var p := After(Init(lockedStop, numThreads), schedule);
    RunKeepsInv(lockedStop, numThreads, schedule);
    WorkersCount(lockedStop, numThreads, schedule);
    OrphansArePushedTooLate(Init(lockedStop, numThreads), schedule);
    hide After, PushedTooLate;
    ExitedFulfilled(p);
  }

  lemma ExitedFulfilled<V>(p: Pool<V>)
    requires Inv(p) && |p.workers| >= 1 && AllExited(p.workers)
    ensures (forall i :: 0 <= i < |p.calls| ==> Fulfilled(p, i)) <==> p.orphans == []
  {
    forall i | 0 <= i < |p.dispatched| ensures Fulfilled(p, i) { assert !RunsOnSome(p, i); }
    if p.orphans != [] { assert !Fulfilled(p, |p.dispatched|); }
  }

  lemma {:induction false} RoundsKeepInv<V>(p: Pool<V>, rounds: seq<seq<Action<V>>>, numThreads: nat)
    requires Inv(p) && forall k :: 0 <= k < |rounds| ==> Round(rounds[k], numThreads)
    ensures Inv(AfterRounds(p, rounds)) && AfterRounds(p, rounds).orphans == p.orphans
    decreases |rounds|
  {
    if rounds != [] {
      AfterKeepsInv(p, rounds[0]);
      QuietKeepsOrphans(p, rounds[0]);
      hide Inv, Apply;
      RoundsKeepInv(After(p, rounds[0]), rounds[1..], numThreads);
    }
  }

  lemma {:induction false} QuietKeepsOrphans<V>(p: Pool<V>, part: seq<Action<V>>)
    requires forall k :: 0 <= k < |part| ==> !part[k].Submit?
    ensures After(p, part).orphans == p.orphans && |After(p, part).calls| == |p.calls|
  {
    if part == [] {
    } else {
      QuietKeepsOrphans(p, part[..|part| - 1]);
      hide Apply;
      QuietStep(After(p, part[..|part| - 1]), part[|part| - 1]);
    }
  }

  lemma QuietStep<V>(p: Pool<V>, a: Action<V>)
    requires !a.Submit?
    ensures Apply(p, a).orphans == p.orphans && |Apply(p, a).calls| == |p.calls|
  {
    hide WorkStep;
    if a.Work? {
      if a.worker < |p.workers| { WorkMovesTasks(p, a.worker); }
    } else {
      hide Apply;
      NotificationsMoveNoTask(p, a);
    }
  }

  /**
    The documented destructor does its job: in the locked variant, from any reachable state after notify_all,
    with no later enqueueTask and each worker getting a turn in every round, all workers exit within a bounded
    number of rounds and every submitted task has then been run and its caller's promise set.
   */
  lemma LockedShutdownDrains<V>(numThreads: nat, schedule: seq<Action<V>>, rounds: seq<seq<Action<V>>>)
    requires numThreads >= 1 && !PushedTooLate(Init(true, numThreads), schedule)
    requires After(Init(true, numThreads), schedule).shutdown.Joining?
    requires |rounds| >= Potential(After(Init(true, numThreads), schedule))
    requires forall k :: 0 <= k < |rounds| ==> Round(rounds[k], numThreads)
    ensures
      var r := AfterRounds(After(Init(true, numThreads), schedule), rounds);
      AllExited(r.workers) && r.tasks == [] && forall i :: 0 <= i < |r.calls| ==> Fulfilled(r, i)
  {
    var p := After(Init(true, numThreads), schedule);
    RunKeepsInv(true, numThreads, schedule);
    WorkersCount(true, numThreads, schedule);
    LockedStopStrandsNobody(numThreads, schedule);
    OrphansArePushedTooLate(Init(true, numThreads), schedule);
    assert Calm(p) && p.orphans == [];
    hide After, PushedTooLate, Potential, Calm, AfterRounds, Round;
    ShutdownCompletes(p, rounds);
    RoundsKeepInv(p, rounds, numThreads);
    ExitedFulfilled(AfterRounds(p, rounds));
  }
}
