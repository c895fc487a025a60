/**
  The thread pool as an object, with its worker loop and executeAsyncTask written out for one worker thread
  and one caller taking turns.  Interleavings, blocking and notification are the subject of ThreadPool; `AsPool`
  is the state of that system an object stands for, and the methods move it by that system's actions.
 */
module ThreadPoolObject {
  import opened Wrappers
  import opened ThreadPool

  /** The transition system's pool with its one worker about to lock and every caller in future.get(). */
  function OneWorker<V>(stop: bool, executed: seq<Task<V>>, tasks: seq<Task<V>>, promises: seq<Option<V>>): Pool<V> {
    var all := executed + tasks;
    Pool(false, [Ready], tasks, stop, if stop then Stopped else NotStarted,
         seq(|all|, i requires 0 <= i < |all| => Waiting(all[i].body)), promises, all, executed, [], false)
  }

  /** Tasks run or queued carry distinct promises; a promise is set exactly when its task has run. */
  ghost predicate Numbered<V>(executed: seq<Task<V>>, tasks: seq<Task<V>>, promises: seq<Option<V>>) {
    && |executed + tasks| == |promises|
    && (forall i :: 0 <= i < |promises| ==> (executed + tasks)[i].promise == i)
    && (forall i :: 0 <= i < |promises| ==> promises[i] == if i < |executed| then Some(executed[i].body) else None)
  }

  lemma OneWorkerInv<V>(stop: bool, executed: seq<Task<V>>, tasks: seq<Task<V>>, promises: seq<Option<V>>)
    requires Numbered(executed, tasks, promises)
    ensures Inv(OneWorker(stop, executed, tasks, promises))
  {
    assert !OneWorker(stop, executed, tasks, promises).workers[0].Exited?;
  }

  /** Nobody is blocked, so a push and its notification only add the task and its caller. */
  lemma SubmitSteps<V>(stop: bool, executed: seq<Task<V>>, tasks: seq<Task<V>>, promises: seq<Option<V>>, body: V)
    requires Numbered(executed, tasks, promises)
    ensures
      var p := OneWorker(stop, executed, tasks, promises);
      Apply(Apply(p, Submit(body)), Notify(|promises|, 0))
        == OneWorker(stop, executed, tasks + [Task(|promises|, body)], promises + [None])
  {
    var p, all := OneWorker(stop, executed, tasks, promises), executed + tasks;
    assert executed + (tasks + [Task(|promises|, body)]) == all + [Task(|promises|, body)];
    assert MutexFree(p.workers) && !p.workers[0].Exited?;
    var q := Apply(p, Submit(body));
    assert !SomeBlocked(q.workers) && q.calls == p.calls + [Notifying(body)];
    var r := Apply(q, Notify(|promises|, 0));
    assert r.calls == p.calls + [Waiting(body)];
    assert r.calls == OneWorker(stop, executed, tasks + [Task(|promises|, body)], promises + [None]).calls;
  }

  /** Two steps of the worker run the front task; over an empty queue, after stop, one step ends it. */
  lemma TurnSteps<V>(stop: bool, executed: seq<Task<V>>, tasks: seq<Task<V>>, promises: seq<Option<V>>)
    requires Numbered(executed, tasks, promises)
    ensures
      var p := OneWorker(stop, executed, tasks, promises);
      if tasks != [] then
        Apply(Apply(p, Work(0)), Work(0))
          == OneWorker(stop, executed + [tasks[0]], tasks[1..], promises[|executed| := Some(tasks[0].body)])
      else stop ==> p.workers == [Ready] && Apply(p, Work(0)) == p.(workers := [Exited])
  {
    var p := OneWorker(stop, executed, tasks, promises);
    assert MutexFree(p.workers);
    if tasks != [] {
      assert (executed + tasks)[|executed|] == tasks[0];
      assert executed + tasks == (executed + [tasks[0]]) + tasks[1..];
      var q := Apply(p, Work(0));
      assert q.workers == [Running(tasks[0])] && !q.broken;
    } else if stop {
      assert Apply(p, Work(0)).workers == [Exited];
    }
  }

  class WorkerPool<V> {
    var tasks: seq<Task<V>>
    var stop: bool
    var promises: seq<Option<V>>
    ghost var executed: seq<Task<V>>   // the tasks run so far, in the order they were run

    ghost predicate Valid()
      reads this
    {
      Numbered(executed, tasks, promises)
    }

    /** The state of the transition system that this object represents. */
    ghost function AsPool(): Pool<V>
      reads this
    {
      OneWorker(stop, executed, tasks, promises)
    }

    lemma ObjectIsPool()
      requires Valid()
      ensures Inv(AsPool())
    {
      OneWorkerInv(stop, executed, tasks, promises);
    }

    constructor ()
      ensures Valid() && tasks == [] && !stop && executed == []
    {
      tasks := [];
      stop := false;
      promises := [];
      executed := [];
    }

    /** utils.cpp:61-67, for the task of a new promise (utils.h:62-67). */
    method EnqueueTask(body: V) returns (promise: nat)
      requires Valid()
      modifies this`tasks, this`promises
      ensures Valid() && promise == |old(promises)|
      ensures tasks == old(tasks) + [Task(promise, body)]
      ensures AsPool() == Apply(Apply(old(AsPool()), Submit(body)), Notify(promise, 0))
    {
      hide Apply, OneWorker;
      SubmitSteps(stop, executed, tasks, promises, body);
      promise := |promises|;
      assert executed + (tasks + [Task(promise, body)]) == (executed + tasks) + [Task(promise, body)];
      tasks := tasks + [Task(promise, body)];
      promises := promises + [None];
    }

    /** One turn of the loop of lines 70-80 in a state where the wait predicate holds. */
    method WorkerTurn() returns (exits: bool)
      requires Valid() && (stop || tasks != [])
      modifies this`tasks, this`promises, this`executed
      ensures Valid() && |promises| == |old(promises)|
      ensures exits <==> old(tasks) == []
      ensures exits ==> executed == old(executed) && tasks == []
      ensures !exits ==> executed == old(executed) + [old(tasks)[0]] && tasks == old(tasks)[1..]
      ensures AsPool() == if exits then Apply(old(AsPool()), Work(0)).(workers := [Ready]) else Apply(Apply(old(AsPool()), Work(0)), Work(0))
      ensures exits ==> Apply(old(AsPool()), Work(0)).workers == [Exited]
    {
      hide Apply, OneWorker;
      TurnSteps(stop, executed, tasks, promises);
      if stop && tasks == [] {
        return true;
      }
      var task := tasks[0];
      assert (executed + tasks)[|executed|] == task;
      assert executed + tasks == (executed + [task]) + tasks[1..];
      tasks := tasks[1..];
      promises := promises[task.promise := Some(task.body)];
      executed := executed + [task];
      exits := false;
    }

    /** The worker thread after stop: it runs what is queued, in order, and only then exits. */
    method WorkerThread()
      requires Valid() && stop
      modifies this`tasks, this`promises, this`executed
      ensures Valid() && tasks == [] && executed == old(executed) + old(tasks)
      ensures forall i :: 0 <= i < |promises| ==> promises[i].Some?
    {
      hide Apply, OneWorker;
      while true
        invariant Valid() && stop && executed + tasks == old(executed) + old(tasks)
        decreases |tasks|
      {
        var exits := WorkerTurn();
        if exits {
          return;
        }
      }
    }

    /** utils.h:60-70 with one worker: the call returns its own value, after all tasks queued before it. */
    method ExecuteAsyncTask(body: V) returns (value: V)
      requires Valid()
      modifies this`tasks, this`promises, this`executed
      ensures Valid() && value == body && tasks == []
      ensures executed == old(executed) + old(tasks) + [Task(|old(promises)|, body)]
    {
      hide Apply, OneWorker;
      var promise := EnqueueTask(body);
      ghost var all := executed + tasks;
      assert all == old(executed) + old(tasks) + [Task(promise, body)];
      while promises[promise].None?
        invariant Valid() && promise + 1 == |promises| == |all| && executed + tasks == all
        invariant all[promise] == Task(promise, body)
        decreases |tasks|
      {
        var exits := WorkerTurn();
      }
      assert tasks == [] && executed == all;
      value := promises[promise].value;
    }
  }
}
