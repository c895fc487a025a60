/**
  The thread pool of utils.cpp and the promise bridge executeAsyncTask of utils.h as one transition system.

  Workers, callers and the destructor take turns in any order.  The critical sections under queueMutex are
  atomic, except that a worker which has found its wait predicate false keeps the mutex (`Deciding`) until it
  blocks: in that window the destructor can store `stop` when it does so without the mutex.
 */
module ThreadPool {
  import opened Wrappers

  /** The closure executeAsyncTask hands to the pool: it captures the promise of its call and the task body. */
  datatype Task<+V> = Task(promise: nat, body: V)

  datatype Worker<+V> =
    | Ready                  // about to lock queueMutex, line 73
    | Deciding               // holds queueMutex, wait predicate found false, line 74
    | Blocked                // asleep in condition.wait
    | Woken                  // notified or woken spuriously, must re-check the predicate
    | Running(task: Task<V>) // line 79
    | Exited                 // line 75

  /** One call of executeAsyncTask; its number is that of its promise. */
  datatype Call<+V> =
    | Notifying(body: V)     // task pushed, notify_one still to come (utils.cpp:66)
    | Waiting(body: V)       // in future.get()
    | Returned(body: V, value: V)

  datatype Shutdown = NotStarted | Stopped | Joining

  /**
    `lockedStop` selects how the destructor stores `stop`: under queueMutex (readme.md:206-210) or not
    (utils.cpp:52).  `submitted`, `dispatched` and `orphans` are history variables: all tasks pushed, all tasks
    popped, and the tasks pushed when every worker had already exited.  `broken` records a second set_value
    on a promise, or a task that starts after its caller has returned.
   */
  datatype Pool<V> = Pool(
    lockedStop: bool,
    workers: seq<Worker<V>>,
    tasks: seq<Task<V>>,
    stop: bool,
    shutdown: Shutdown,
    calls: seq<Call<V>>,
    promises: seq<Option<V>>,
    submitted: seq<Task<V>>,
    dispatched: seq<Task<V>>,
    orphans: seq<Task<V>>,
    broken: bool)

  datatype Action<V> =
    | Submit(body: V)               // a caller pushes its task
    | Notify(call: nat, woken: nat) // its notify_one, waking worker `woken` if any is blocked
    | Return(call: nat)             // future.get() returns
    | Work(worker: nat)             // the next step of one worker thread
    | Spurious(worker: nat)         // a spurious wakeup
    | StoreStop
    | NotifyAll

  function Init<V>(lockedStop: bool, numThreads: nat): Pool<V> {
    Pool(lockedStop, seq(numThreads, _ => Ready), [], false, NotStarted, [], [], [], [], [], false)
  }

  predicate MutexFree<V>(workers: seq<Worker<V>>) {
    forall w :: 0 <= w < |workers| ==> !workers[w].Deciding?
  }

  predicate SomeBlocked<V>(workers: seq<Worker<V>>) {
    exists w :: 0 <= w < |workers| && workers[w].Blocked?
  }

  predicate AllExited<V>(workers: seq<Worker<V>>) {
    forall w :: 0 <= w < |workers| ==> workers[w].Exited?
  }

  function WakeAll<V>(workers: seq<Worker<V>>): seq<Worker<V>> {
    seq(|workers|, w requires 0 <= w < |workers| => if workers[w].Blocked? then Woken else workers[w])
  }

  /** The next step of worker `w` (lines 69-81). */
  function WorkStep<V>(p: Pool<V>, w: nat): Pool<V>
    requires w < |p.workers|
  {
    match p.workers[w]
    case Deciding => p.(workers := p.workers[w := Blocked])
    case Running(task) =>
      // promise.set_value(task()), then back to the top of the loop
      p.(workers := p.workers[w := Ready],
         promises := if task.promise < |p.promises| then p.promises[task.promise := Some(task.body)] else p.promises,
         broken := p.broken || task.promise >= |p.promises| || p.promises[task.promise].Some?)
    case Ready => Recheck(p, w)
    case Woken => Recheck(p, w)
    case _ => p
  }

  /** Lock queueMutex and evaluate the wait predicate. */
  function Recheck<V>(p: Pool<V>, w: nat): Pool<V>
    requires w < |p.workers|
  {
    if !MutexFree(p.workers) then p
    else if p.tasks != [] then
      var task := p.tasks[0];
      p.(workers := p.workers[w := Running(task)],
         tasks := p.tasks[1..],
         dispatched := p.dispatched + [task],
         broken := p.broken || task.promise >= |p.calls| || p.calls[task.promise].Returned?)
    else if p.stop then p.(workers := p.workers[w := Exited])
    else p.(workers := p.workers[w := Deciding])
  }

  /** One label; a label that cannot happen leaves the pool alone. */
  function Apply<V>(p: Pool<V>, a: Action<V>): Pool<V> {
    match a
    case Submit(body) =>
      if !MutexFree(p.workers) then p
      else
        var task := Task(|p.calls|, body);
        p.(tasks := p.tasks + [task],
           calls := p.calls + [Notifying(body)],
           promises := p.promises + [None],
           submitted := p.submitted + [task],
           orphans := if AllExited(p.workers) then p.orphans + [task] else p.orphans)
    case Notify(c, w) =>
      if c >= |p.calls| || !p.calls[c].Notifying? then p
      else if !SomeBlocked(p.workers) then p.(calls := p.calls[c := Waiting(p.calls[c].body)])
      else if w < |p.workers| && p.workers[w].Blocked? then
        p.(calls := p.calls[c := Waiting(p.calls[c].body)], workers := p.workers[w := Woken])
      else p
    case Return(c) =>
      if c < |p.calls| && p.calls[c].Waiting? && c < |p.promises| && p.promises[c].Some?
      then p.(calls := p.calls[c := Returned(p.calls[c].body, p.promises[c].value)])
      else p
    case Work(w) => if w < |p.workers| then WorkStep(p, w) else p
    case Spurious(w) => if w < |p.workers| && p.workers[w].Blocked? then p.(workers := p.workers[w := Woken]) else p
    case StoreStop =>
      if p.shutdown.NotStarted? && (p.lockedStop ==> MutexFree(p.workers)) then p.(stop := true, shutdown := Stopped) else p
    case NotifyAll =>
      if p.shutdown.Stopped? then p.(workers := WakeAll(p.workers), shutdown := Joining) else p
  }

  function After<V>(p: Pool<V>, schedule: seq<Action<V>>): Pool<V> {
    if schedule == [] then p
    else Apply(After(p, schedule[..|schedule| - 1]), schedule[|schedule| - 1])
  }

  // ---------------------------------------------------------------- counting

  function Awake<V>(workers: seq<Worker<V>>): nat {
    if workers == [] then 0 else Awake(workers[1..]) + if workers[0].Woken? then 1 else 0
  }

  function Unnotified<V>(calls: seq<Call<V>>): nat {
    if calls == [] then 0 else Unnotified(calls[1..]) + if calls[0].Notifying? then 1 else 0
  }

  lemma {:induction false} AwakeUpdate<V>(workers: seq<Worker<V>>, w: nat, x: Worker<V>)
    requires w < |workers|
    ensures Awake(workers[w := x]) + (if workers[w].Woken? then 1 else 0) == Awake(workers) + if x.Woken? then 1 else 0
  {
    if w > 0 {
      AwakeUpdate(workers[1..], w - 1, x);
      assert workers[w := x][1..] == workers[1..][w - 1 := x];
    }
  }

  lemma {:induction false} UnnotifiedUpdate<V>(calls: seq<Call<V>>, c: nat, x: Call<V>)
    requires c < |calls|
    ensures Unnotified(calls[c := x]) + (if calls[c].Notifying? then 1 else 0) == Unnotified(calls) + if x.Notifying? then 1 else 0
  {
    if c > 0 {
      UnnotifiedUpdate(calls[1..], c - 1, x);
      assert calls[c := x][1..] == calls[1..][c - 1 := x];
    }
  }

  lemma {:induction false} UnnotifiedExtends<V>(calls: seq<Call<V>>, x: Call<V>)
    ensures Unnotified(calls + [x]) == Unnotified(calls) + if x.Notifying? then 1 else 0
  {
    if calls != [] {
      UnnotifiedExtends(calls[1..], x);
      assert (calls + [x])[1..] == calls[1..] + [x];
    }
  }

  // ---------------------------------------------------------------- the invariant

  /** Only one worker holds the mutex, and it does so over an empty queue. */
  ghost predicate MutexInv<V>(p: Pool<V>) {
    && (forall w, v :: 0 <= w < |p.workers| && 0 <= v < |p.workers| && p.workers[w].Deciding? && p.workers[v].Deciding? ==> w == v)
    && (forall w :: 0 <= w < |p.workers| && p.workers[w].Deciding? ==> p.tasks == [])
  }

  /** While a worker is blocked, every queued task has a wakeup on its way or a woken worker to take it. */
  ghost predicate WakeInv<V>(p: Pool<V>) {
    SomeBlocked(p.workers) ==> |p.tasks| <= Unnotified(p.calls) + Awake(p.workers)
  }

  /** The popped tasks then the queue are the pushed tasks, numbered by their promises. */
  ghost predicate FifoInv<V>(p: Pool<V>) {
    && |p.calls| == |p.promises| == |p.submitted|
    && p.submitted == p.dispatched + p.tasks
    && (forall i :: 0 <= i < |p.submitted| ==> p.submitted[i] == Task(i, p.calls[i].body))
  }

  /** Each popped task is running on one worker or has set its promise; the others have not started. */
  ghost predicate PromiseInv<V>(p: Pool<V>)
    requires FifoInv(p)
  {
    && (forall w :: 0 <= w < |p.workers| && p.workers[w].Running? ==>
          && p.workers[w].task.promise < |p.dispatched| && p.workers[w].task == p.dispatched[p.workers[w].task.promise]
          && p.promises[p.workers[w].task.promise].None?)
    && (forall w, v :: 0 <= w < v < |p.workers| && p.workers[w].Running? && p.workers[v].Running? ==>
          p.workers[w].task.promise != p.workers[v].task.promise)
    && (forall i :: 0 <= i < |p.dispatched| ==> p.promises[i].Some? || RunsOnSome(p, i))
    && (forall i :: |p.dispatched| <= i < |p.promises| ==> p.promises[i].None?)
    && (forall i :: 0 <= i < |p.promises| && p.promises[i].Some? ==> p.promises[i].value == p.calls[i].body)
  }

  ghost predicate RunsOnSome<V>(p: Pool<V>, i: nat) {
    exists w :: 0 <= w < |p.workers| && p.workers[w].Running? && p.workers[w].task.promise == i
  }

  ghost predicate CallInv<V>(p: Pool<V>) {
    && |p.calls| == |p.promises|
    && (forall c :: 0 <= c < |p.calls| && p.calls[c].Returned? ==> p.promises[c] == Some(p.calls[c].body) && p.calls[c].value == p.calls[c].body)
    && !p.broken
  }

  /** Workers exit only after stop, and only over an empty queue. */
  ghost predicate ShutdownInv<V>(p: Pool<V>) {
    && (p.stop <==> !p.shutdown.NotStarted?)
    && (forall w :: 0 <= w < |p.workers| && p.workers[w].Exited? ==> p.stop)
    && (if |p.workers| > 0 && AllExited(p.workers) then p.tasks == p.orphans else |p.workers| > 0 ==> p.orphans == [])
  }

  ghost predicate Inv<V>(p: Pool<V>) {
    MutexInv(p) && WakeInv(p) && FifoInv(p) && PromiseInv(p) && CallInv(p) && ShutdownInv(p)
  }

  // ---------------------------------------------------------------- preservation

  /** A worker starts deciding only when nobody else is, and over an empty queue. */
  lemma RecheckKeepsMutex<V>(p: Pool<V>, w: nat)
    requires MutexInv(p) && w < |p.workers|
    ensures MutexInv(Recheck(p, w))
  {
  }

  lemma WorkKeepsMutex<V>(p: Pool<V>, w: nat)
    requires MutexInv(p) && w < |p.workers|
    ensures MutexInv(WorkStep(p, w))
  {
    hide Recheck, MutexFree;
    RecheckKeepsMutex(p, w);
  }

  lemma DecidersStay<V>(p: Pool<V>, a: Action<V>)
    requires !a.Work?
    ensures |Apply(p, a).workers| == |p.workers|
    ensures forall v :: 0 <= v < |p.workers| ==> (Apply(p, a).workers[v].Deciding? <==> p.workers[v].Deciding?)
    ensures Apply(p, a).tasks == p.tasks || MutexFree(p.workers)
  {
  }

  lemma MutexKeeps<V>(p: Pool<V>, a: Action<V>)
    requires MutexInv(p)
    ensures MutexInv(Apply(p, a))
  {
    if a.Work? {
      if a.worker < |p.workers| { WorkKeepsMutex(p, a.worker); }
      hide MutexInv, WorkStep;
    } else {
      DecidersStay(p, a);
      hide Apply, SomeBlocked, AllExited;
    }
  }

  /** A worker's step frees no task of its wakeup: it blocks only over an empty queue. */
  lemma WorkKeepsWake<V>(p: Pool<V>, w: nat)
    requires MutexInv(p) && WakeInv(p) && w < |p.workers|
    ensures WakeInv(WorkStep(p, w))
  {
    hide Awake, Unnotified, MutexFree, SomeBlocked, WakeInv, Recheck;
    if p.workers[w].Ready? || p.workers[w].Woken? {
      RecheckKeepsWake(p, w);
    } else {
      WakeUpdate(p, WorkStep(p, w), w);
    }
  }

  /** Worker `w` falls asleep over an empty queue, or does something else that costs no wakeup. */
  lemma WakeUpdate<V>(p: Pool<V>, r: Pool<V>, w: nat)
    requires WakeInv(p) && w < |p.workers| && |r.workers| == |p.workers| && r.calls == p.calls
    requires r.workers == p.workers[w := r.workers[w]]
    requires r.workers[w].Blocked? ==> r.tasks == [] || p.workers[w].Blocked?
    requires |r.tasks| + (if p.workers[w].Woken? then 1 else 0) <= |p.tasks| + (if r.workers[w].Woken? then 1 else 0) || r.tasks == []
    ensures WakeInv(r)
  {
    AwakeUpdate(p.workers, w, r.workers[w]);
    hide Awake, Unnotified;
    if SomeBlocked(r.workers) && r.tasks != [] {
      var v :| 0 <= v < |r.workers| && r.workers[v].Blocked?;
      assert p.workers[v].Blocked?;
    }
  }

  lemma RecheckKeepsWake<V>(p: Pool<V>, w: nat)
    requires WakeInv(p) && w < |p.workers| && (p.workers[w].Ready? || p.workers[w].Woken?)
    ensures WakeInv(Recheck(p, w))
  {
    hide Awake, Unnotified, MutexFree, SomeBlocked, WakeInv;
    if MutexFree(p.workers) { WakeUpdate(p, Recheck(p, w), w); }
  }

  lemma WakeKeeps<V>(p: Pool<V>, a: Action<V>)
    requires MutexInv(p) && WakeInv(p)
    ensures WakeInv(Apply(p, a))
  {
    match a
    case Submit(body) => UnnotifiedExtends(p.calls, Notifying(body));
    case Notify(c, w) =>
      if c < |p.calls| { UnnotifiedUpdate(p.calls, c, Waiting(p.calls[c].body)); }
      if w < |p.workers| { AwakeUpdate(p.workers, w, Woken); }
    case Return(c) =>
      if c < |p.calls| && c < |p.promises| && p.promises[c].Some? { UnnotifiedUpdate(p.calls, c, Returned(p.calls[c].body, p.promises[c].value)); }
    case Work(w) =>
      if w < |p.workers| { WorkKeepsWake(p, w); }
      hide WakeInv, WorkStep;
    case Spurious(w) => if w < |p.workers| { AwakeUpdate(p.workers, w, Woken); }
    case _ =>
  }

  lemma FifoKeepsSubmit<V>(p: Pool<V>, body: V)
    requires FifoInv(p)
    ensures FifoInv(Apply(p, Submit(body)))
  {
    assert p.dispatched + (p.tasks + [Task(|p.calls|, body)]) == p.submitted + [Task(|p.calls|, body)];
  }

  /** A worker's step leaves the queue alone or pops its front. */
  lemma WorkMovesTasks<V>(p: Pool<V>, w: nat)
    requires w < |p.workers|
    ensures
      var r := WorkStep(p, w);
      && r.submitted == p.submitted && r.calls == p.calls && |r.promises| == |p.promises| && |r.workers| == |p.workers|
      && r.orphans == p.orphans
      && (if r.tasks == p.tasks then r.dispatched == p.dispatched
          else p.tasks != [] && r.tasks == p.tasks[1..] && r.dispatched == p.dispatched + [p.tasks[0]])
  {
    hide MutexFree, Recheck;
    RecheckMovesTasks(p, w);
  }

  lemma RecheckMovesTasks<V>(p: Pool<V>, w: nat)
    requires w < |p.workers|
    ensures
      var r := Recheck(p, w);
      && r.submitted == p.submitted && r.calls == p.calls && r.promises == p.promises && |r.workers| == |p.workers|
      && r.orphans == p.orphans
      && (if r.tasks == p.tasks then r.dispatched == p.dispatched
          else p.tasks != [] && r.tasks == p.tasks[1..] && r.dispatched == p.dispatched + [p.tasks[0]])
  {
    hide MutexFree;
    assert p.tasks != [] ==> |p.tasks[1..]| != |p.tasks|;
  }

  lemma FifoKeepsWork<V>(p: Pool<V>, w: nat)
    requires FifoInv(p) && w < |p.workers|
    ensures FifoInv(WorkStep(p, w))
  {
    hide WorkStep;
    WorkMovesTasks(p, w);
    if p.tasks != [] {
      assert p.dispatched + p.tasks == (p.dispatched + [p.tasks[0]]) + p.tasks[1..];
    }
  }

  /** Which threads and callers are where may change; tasks, promises and what runs do not. */
  ghost predicate SameTasks<V>(p: Pool<V>, r: Pool<V>) {
    && r.tasks == p.tasks && r.dispatched == p.dispatched && r.promises == p.promises && r.submitted == p.submitted
    && r.orphans == p.orphans && |r.calls| == |p.calls| && |r.workers| == |p.workers|
    && (forall i :: 0 <= i < |p.calls| ==> r.calls[i].body == p.calls[i].body)
    && (forall v :: 0 <= v < |p.workers| ==>
          (r.workers[v].Running? <==> p.workers[v].Running?) && (p.workers[v].Running? ==> r.workers[v] == p.workers[v]))
  }

  lemma NotifyMovesNoTask<V>(p: Pool<V>, c: nat, w: nat)
    ensures SameTasks(p, Apply(p, Notify(c, w)))
  {
    hide SomeBlocked;
  }

  lemma NotificationsMoveNoTask<V>(p: Pool<V>, a: Action<V>)
    requires !a.Submit? && !a.Work?
    ensures SameTasks(p, Apply(p, a))
  {
    hide MutexFree, SomeBlocked;
    match a
    case Notify(c, w) =>
      hide Apply;
      NotifyMovesNoTask(p, c, w);
    case _ =>
  }

  lemma FifoKeeps<V>(p: Pool<V>, a: Action<V>)
    requires FifoInv(p)
    ensures FifoInv(Apply(p, a))
  {
    match a
    case Submit(body) => FifoKeepsSubmit(p, body);
    case Work(w) => if w < |p.workers| { FifoKeepsWork(p, w); }
    case _ =>
      hide Apply;
      NotificationsMoveNoTask(p, a);
  }

  /** The task at the front of the queue is the next one in submission order. */
  lemma FrontTask<V>(p: Pool<V>)
    requires FifoInv(p) && p.tasks != []
    ensures |p.dispatched| < |p.calls| && p.tasks[0] == Task(|p.dispatched|, p.calls[|p.dispatched|].body)
  {
    assert p.submitted[|p.dispatched|] == p.tasks[0];
  }

  /** A worker sets only an empty promise, and pops only a task whose caller is still there. */
  lemma WorkKeepsCalls<V>(p: Pool<V>, w: nat)
    requires FifoInv(p) && PromiseInv(p) && CallInv(p) && w < |p.workers|
    ensures CallInv(WorkStep(p, w))
  {
    if p.tasks != [] { FrontTask(p); }
    hide MutexFree, RunsOnSome;
  }

  lemma CallKeeps<V>(p: Pool<V>, a: Action<V>)
    requires FifoInv(p) && PromiseInv(p) && CallInv(p)
    ensures CallInv(Apply(p, a))
  {
    if a.Work? {
      if a.worker < |p.workers| { WorkKeepsCalls(p, a.worker); }
      hide CallInv, WorkStep;
    } else {
      hide FifoInv, MutexFree, SomeBlocked, AllExited, RunsOnSome;
    }
  }

  lemma RunningElsewhere<V>(p: Pool<V>, r: Pool<V>, w: nat, i: nat)
    requires w < |p.workers| && |r.workers| == |p.workers| && RunsOnSome(p, i)
    requires !p.workers[w].Running? || p.workers[w].task.promise != i
    requires forall v :: 0 <= v < |p.workers| && v != w ==> r.workers[v] == p.workers[v]
    ensures RunsOnSome(r, i)
  {
    var v :| 0 <= v < |p.workers| && p.workers[v].Running? && p.workers[v].task.promise == i;
    assert r.workers[v] == p.workers[v];
  }

  /** A worker that finishes its task sets that task's promise, which was empty. */
  lemma FinishKeepsPromises<V>(p: Pool<V>, w: nat)
    requires FifoInv(p) && PromiseInv(p) && w < |p.workers| && p.workers[w].Running?
    ensures FifoInv(WorkStep(p, w)) && PromiseInv(WorkStep(p, w))
  {
    var r, done := WorkStep(p, w), p.workers[w].task.promise;
    FifoKeepsWork(p, w);
    forall i | 0 <= i < |r.dispatched| ensures r.promises[i].Some? || RunsOnSome(r, i) {
      if i != done && p.promises[i].None? { RunningElsewhere(p, r, w, i); }
    }
    hide RunsOnSome;
  }

  /** A worker that pops a task is the only one to run it. */
  lemma PopKeepsPromises<V>(p: Pool<V>, r: Pool<V>, w: nat)
    requires FifoInv(p) && PromiseInv(p) && w < |p.workers| && !p.workers[w].Running? && p.tasks != []
    requires r == p.(workers := p.workers[w := Running(p.tasks[0])], tasks := p.tasks[1..],
                     dispatched := p.dispatched + [p.tasks[0]], broken := r.broken)
    ensures FifoInv(r) && PromiseInv(r)
  {
    assert p.dispatched + p.tasks == (p.dispatched + [p.tasks[0]]) + p.tasks[1..];
    FrontTask(p);
    forall i | 0 <= i < |r.dispatched| ensures r.promises[i].Some? || RunsOnSome(r, i) {
      if i == |p.dispatched| {
        assert r.workers[w].Running? && r.workers[w].task.promise == i;
      } else if p.promises[i].None? {
        RunningElsewhere(p, r, w, i);
      }
    }
    hide RunsOnSome;
  }

  lemma WorkKeepsPromises<V>(p: Pool<V>, w: nat)
    requires FifoInv(p) && PromiseInv(p) && w < |p.workers|
    ensures FifoInv(WorkStep(p, w)) && PromiseInv(WorkStep(p, w))
  {
    var r := WorkStep(p, w);
    FifoKeepsWork(p, w);
    if !p.workers[w].Running? { WorkKinds(p, w); }
    hide PromiseInv, FifoInv, WorkStep;
    if p.workers[w].Running? {
      FinishKeepsPromises(p, w);
    } else if r.tasks != p.tasks {
      PopKeepsPromises(p, r, w);
    } else {
      WakingKeepsPromises(p, r);
    }
  }

  /** Of a worker that is not running a task: it pops one, or moves nothing but itself. */
  lemma WorkKinds<V>(p: Pool<V>, w: nat)
    requires w < |p.workers| && !p.workers[w].Running?
    ensures
      var r := WorkStep(p, w);
      if r.tasks != p.tasks then
        p.tasks != [] && r == p.(workers := p.workers[w := Running(p.tasks[0])], tasks := p.tasks[1..],
                                 dispatched := p.dispatched + [p.tasks[0]], broken := r.broken)
      else
        && r.dispatched == p.dispatched && r.calls == p.calls && r.promises == p.promises
        && r.workers == p.workers[w := r.workers[w]] && !r.workers[w].Running?
  {
    hide MutexFree;
  }

  lemma WakingKeepsPromises<V>(p: Pool<V>, r: Pool<V>)
    requires FifoInv(p) && FifoInv(r) && PromiseInv(p)
    requires r.dispatched == p.dispatched && |r.calls| == |p.calls| && r.promises == p.promises && |r.workers| == |p.workers|
    requires forall i :: 0 <= i < |p.calls| ==> r.calls[i].body == p.calls[i].body
    requires forall v :: 0 <= v < |p.workers| ==> (r.workers[v].Running? <==> p.workers[v].Running?) && (p.workers[v].Running? ==> r.workers[v] == p.workers[v])
    ensures PromiseInv(r)
  {
    forall i | 0 <= i < |r.dispatched| ensures r.promises[i].Some? || RunsOnSome(r, i) {
      if p.promises[i].None? {
        var v :| 0 <= v < |p.workers| && p.workers[v].Running? && p.workers[v].task.promise == i;
        assert r.workers[v].Running? && r.workers[v].task.promise == i;
      }
    }
  }

  lemma SubmitKeepsPromises<V>(p: Pool<V>, body: V)
    requires FifoInv(p) && PromiseInv(p)
    ensures FifoInv(Apply(p, Submit(body))) && PromiseInv(Apply(p, Submit(body)))
  {
    var r := Apply(p, Submit(body));
    FifoKeeps(p, Submit(body));
    assert r.workers == p.workers && r.dispatched == p.dispatched;
    forall i | 0 <= i < |r.dispatched| ensures r.promises[i].Some? || RunsOnSome(r, i) {
      if p.promises[i].None? { SameWorkersRun(p, r, i); }
    }
    hide RunsOnSome, MutexFree, AllExited;
  }

  lemma SameWorkersRun<V>(p: Pool<V>, r: Pool<V>, i: nat)
    requires r.workers == p.workers && RunsOnSome(p, i)
    ensures RunsOnSome(r, i)
  {
  }

  lemma PromiseKeeps<V>(p: Pool<V>, a: Action<V>)
    requires FifoInv(p) && PromiseInv(p)
    ensures FifoInv(Apply(p, a)) && PromiseInv(Apply(p, a))
  {
    FifoKeeps(p, a);
    hide PromiseInv, FifoInv;
    match a
    case Submit(body) => SubmitKeepsPromises(p, body);
    case Work(w) => if w < |p.workers| { WorkKeepsPromises(p, w); }
    case _ =>
      NotificationsMoveNoTask(p, a);
      hide Apply;
      WakingKeepsPromises(p, Apply(p, a));
  }

  /** A worker leaves its thread function only after stop and over an empty queue, and never comes back. */
  lemma WorkExits<V>(p: Pool<V>, w: nat)
    requires w < |p.workers|
    ensures
      var r := WorkStep(p, w);
      && r.stop == p.stop && r.shutdown == p.shutdown && r.orphans == p.orphans && r.workers == p.workers[w := r.workers[w]]
      && (p.workers[w].Exited? ==> r == p)
      && (r.workers[w].Exited? ==> p.workers[w].Exited? || (p.stop && r.tasks == []))
  {
    hide MutexFree;
  }

  lemma WorkKeepsShutdown<V>(p: Pool<V>, w: nat)
    requires ShutdownInv(p) && w < |p.workers|
    ensures ShutdownInv(WorkStep(p, w))
  {
    hide WorkStep;
    WorkExits(p, w);
    if !p.workers[w].Exited? {
      assert !AllExited(p.workers);
    }
  }

  lemma ExitedStayEach<V>(p: Pool<V>, a: Action<V>)
    requires !a.Work?
    ensures |Apply(p, a).workers| == |p.workers|
    ensures forall v :: 0 <= v < |p.workers| ==> (Apply(p, a).workers[v].Exited? <==> p.workers[v].Exited?)
  {
    hide MutexFree, SomeBlocked, AllExited;
  }

  /** No worker comes out of its thread function again, and none leaves it except by its own step. */
  lemma ExitedStay<V>(p: Pool<V>, a: Action<V>)
    requires !a.Work?
    ensures |Apply(p, a).workers| == |p.workers|
    ensures forall v :: 0 <= v < |p.workers| ==> (Apply(p, a).workers[v].Exited? <==> p.workers[v].Exited?)
    ensures AllExited(Apply(p, a).workers) <==> AllExited(p.workers)
  {
    hide Apply;
    ExitedStayEach(p, a);
  }

  lemma ShutdownKeeps<V>(p: Pool<V>, a: Action<V>)
    requires ShutdownInv(p)
    ensures ShutdownInv(Apply(p, a))
  {
    if a.Work? {
      if a.worker < |p.workers| { WorkKeepsShutdown(p, a.worker); }
    } else {
      ExitedStay(p, a);
      hide AllExited, MutexFree, SomeBlocked;
    }
  }

  /** Every action of every worker, caller and of the destructor keeps the invariant, in both variants. */
  lemma StepKeepsInv<V>(p: Pool<V>, a: Action<V>)
    requires Inv(p)
    ensures Inv(Apply(p, a))
  {
    MutexKeeps(p, a);
    WakeKeeps(p, a);
    PromiseKeeps(p, a);
    CallKeeps(p, a);
    ShutdownKeeps(p, a);
    hide Apply, MutexInv, WakeInv, FifoInv, PromiseInv, CallInv, ShutdownInv;
  }

  lemma {:induction false} AfterKeepsInv<V>(p: Pool<V>, schedule: seq<Action<V>>)
    requires Inv(p)
    ensures Inv(After(p, schedule))
  {
    if schedule == [] {
    } else {
      AfterKeepsInv(p, schedule[..|schedule| - 1]);
      hide Inv, Apply;
      StepKeepsInv(After(p, schedule[..|schedule| - 1]), schedule[|schedule| - 1]);
    }
  }

  lemma RunKeepsInv<V>(lockedStop: bool, numThreads: nat, schedule: seq<Action<V>>)
    ensures Inv(After(Init(lockedStop, numThreads), schedule))
  {
    AfterKeepsInv(Init(lockedStop, numThreads), schedule);
  }
}
