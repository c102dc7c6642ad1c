/** The pool as the object the source has: its critical sections and shared accesses as methods, each proved to be the
    step of module ThreadPool it stands for. An object's history is a run, so what holds of runs holds of it. A task is
    represented by its ticket. */
module ThreadPoolObject {
  import opened Bytes
  import Pools = ThreadPool

  class ThreadPool {
    var tasks: seq<nat>
    var lock: Option<nat>
    var running: bool
    var threads: seq<Pools.Worker>
    var stopper: Pools.Stopper
    var puts: nat

    // History: of the tasks, and of the whole.
    ghost var started: seq<nat>
    ghost var finished: seq<nat>
    ghost var history: seq<Pools.Pool>

    ghost function View(): Pools.Pool
      reads this
    {
      Pools.Pool(threads, tasks, lock, running, stopper, false, puts, started, finished)
    }

    /** The object is at the end of a run. */
    ghost predicate Valid()
      reads this
    {
      Pools.Run(history, |threads|) && Pools.Last(history) == View()
    }

    constructor (n: nat)
      ensures Valid() && View() == Pools.Initial(n)
      ensures |threads| == n && forall i :: 0 <= i < n ==> threads[i].AtTop?
      ensures tasks == [] && lock == None && running && puts == 0
    {
      tasks, lock, running, stopper, puts := [], None, true, Pools.NotStopping, 0;
      started, finished, threads, history := [], [], [], [Pools.Initial(n)];
      new;
      for i := 0 to n
        invariant threads == seq(i, _ => Pools.AtTop)
        invariant View() == Pools.Initial(n).(workers := threads) && history == [Pools.Initial(n)]
      {
        threads := threads + [Pools.AtTop];
      }
    }

    /** What the theorems about runs say of an object: the lock has one holder, queued tasks do not meet a pool that is
        all asleep, every task put is pending, in execution or finished, exactly once, and after `Stop` nothing runs. */
    lemma Guarantee(t: nat)
      requires Valid()
      ensures Pools.PoolInv(View())
      ensures running && |threads| > 0 && tasks != [] ==> exists w :: w in threads && !w.Waiting?
      ensures Pools.Count(tasks, t) + Pools.InExecution(threads, t) + Pools.Count(finished, t) ==
        (if t < puts then 1 else 0)
      ensures stopper.Stopped? ==> Pools.InExecution(threads, t) == 0
    {
      var i := |history| - 1;
      Pools.RunKeeps(history, |threads|, i);
      Pools.NoSleepingOverWork(history, |threads|, i);
      Pools.EveryTaskOnce(history, |threads|, i, t);
      if stopper.Stopped? {
        Pools.StoppedIsQuiet(history, |threads|, i, t);
      }
    }

    /** The step `a` has been taken. */
    ghost method Record(a: Pools.Action)
      requires Pools.Run(history, |threads|) && Pools.Enabled(Pools.Last(history), a)
      requires View() == Pools.Step(Pools.Last(history), a)
      modifies this`history
      ensures Valid()
    {
      history := Pools.Extend(history, |threads|, a, View());
    }

    /** Locks, appends the task, notifies a sleeping worker (`wake`, if any sleeps), unlocks. */
    method Put(wake: nat)
      requires Valid() && Pools.Enabled(View(), Pools.Put(wake))
      modifies this
      ensures Valid() && View() == Pools.Step(old(View()), Pools.Put(wake))
      ensures tasks == old(tasks) + [old(puts)] && puts == old(puts) + 1
      ensures threads ==
        if wake < |threads| && old(threads[wake]).Waiting? then old(threads)[wake := Pools.WantLock] else old(threads)
      ensures unchanged(`lock, `running, `stopper, `started, `finished)
    {
      tasks := tasks + [puts];
      puts := puts + 1;
      if wake < |threads| && threads[wake].Waiting? {
        threads := threads[wake := Pools.WantLock];
      }
      Record(Pools.Put(wake));
    }

    /** The outer loop condition. */
    method ReadRunning(i: nat)
      requires Valid() && i < |threads| && threads[i].AtTop?
      modifies this
      ensures Valid() && View() == Pools.Step(old(View()), Pools.WorkerStep(i))
      ensures threads == old(threads)[i := if running then Pools.WantLock else Pools.Exited]
      ensures unchanged(`tasks, `lock, `running, `stopper, `puts, `started, `finished)
    {
      if running {
        threads := threads[i := Pools.WantLock];
      } else {
        threads := threads[i := Pools.Exited];
      }
      Record(Pools.WorkerStep(i));
    }

    method Lock(i: nat)
      requires Valid() && i < |threads| && threads[i].WantLock? && lock.None?
      modifies this
      ensures Valid() && View() == Pools.Step(old(View()), Pools.WorkerStep(i))
      ensures lock == Some(i) && threads == old(threads)[i := Pools.Testing]
      ensures unchanged(`tasks, `running, `stopper, `puts, `started, `finished)
    {
      lock := Some(i);
      threads := threads[i := Pools.Testing];
      Record(Pools.WorkerStep(i));
    }

    /** The inner loop condition. */
    method TestTasks(i: nat)
      requires Valid() && i < |threads| && threads[i].Testing?
      modifies this
      ensures Valid() && View() == Pools.Step(old(View()), Pools.WorkerStep(i))
      ensures threads == old(threads)[i := if tasks == [] && running then Pools.AboutToWait else Pools.Leaving]
      ensures unchanged(`tasks, `lock, `running, `stopper, `puts, `started, `finished)
    {
      if |tasks| == 0 && running {
        threads := threads[i := Pools.AboutToWait];
      } else {
        threads := threads[i := Pools.Leaving];
      }
      Record(Pools.WorkerStep(i));
    }

    /** `cond_.wait`: releases the lock and sleeps in one step. */
    method Wait(i: nat)
      requires Valid() && i < |threads| && threads[i].AboutToWait?
      modifies this
      ensures Valid() && View() == Pools.Step(old(View()), Pools.WorkerStep(i))
      ensures lock == None && threads == old(threads)[i := Pools.Waiting]
      ensures unchanged(`tasks, `running, `stopper, `puts, `started, `finished)
    {
      lock := None;
      threads := threads[i := Pools.Waiting];
      Record(Pools.WorkerStep(i));
    }

    /** The worker's wait ends, notified or not. */
    method WakeSpuriously(i: nat)
      requires Valid() && i < |threads| && threads[i].Waiting?
      modifies this
      ensures Valid() && View() == Pools.Step(old(View()), Pools.SpuriousWake(i))
      ensures threads == old(threads)[i := Pools.WantLock]
      ensures unchanged(`tasks, `lock, `running, `stopper, `puts, `started, `finished)
    {
      threads := threads[i := Pools.WantLock];
      Record(Pools.SpuriousWake(i));
    }

    method TestRunning(i: nat)
      requires Valid() && i < |threads| && threads[i].Leaving?
      modifies this
      ensures Valid() && View() == Pools.Step(old(View()), Pools.WorkerStep(i))
      ensures threads == old(threads)[i := if running then Pools.Popping else Pools.Exited]
      ensures lock == if running then old(lock) else None
      ensures unchanged(`tasks, `running, `stopper, `puts, `started, `finished)
    {
      if !running {
        lock := None;
        threads := threads[i := Pools.Exited];
      } else {
        threads := threads[i := Pools.Popping];
      }
      Record(Pools.WorkerStep(i));
    }

    /** Takes the back of the vector, which is not empty: the worker tested it under the lock it still holds. */
    method TakeTask(i: nat)
      requires Valid() && i < |threads| && threads[i].Popping?
      modifies this
      ensures Valid() && View() == Pools.Step(old(View()), Pools.WorkerStep(i))
      ensures threads[i].Executing? && threads == old(threads)[i := threads[i]]
      ensures tasks + [threads[i].task] == old(tasks)
      ensures lock == None && started == old(started) + [threads[i].task]
      ensures unchanged(`running, `stopper, `puts, `finished)
    {
      Pools.RunKeeps(history, |threads|, |history| - 1);
      assert Pools.WorkerFits(View(), threads[i]);
      var task := tasks[|tasks| - 1];
      tasks := tasks[..|tasks| - 1];
      lock := None;
      threads := threads[i := Pools.Executing(task)];
      started := started + [task];
      Record(Pools.WorkerStep(i));
    }

    method RunTask(i: nat)
      requires Valid() && i < |threads| && threads[i].Executing?
      modifies this
      ensures Valid() && View() == Pools.Step(old(View()), Pools.WorkerStep(i))
      ensures threads == old(threads)[i := Pools.AtTop] && finished == old(finished + [threads[i].task])
      ensures unchanged(`tasks, `lock, `running, `stopper, `puts, `started)
    {
      finished := finished + [threads[i].task];
      threads := threads[i := Pools.AtTop];
      Record(Pools.WorkerStep(i));
    }

    /** One round of `ThreadFunc` that nothing interleaves with: runs the most recently put task. */
    method Round(i: nat)
      requires Valid() && i < |threads| && threads[i].AtTop? && running && lock.None? && tasks != []
      modifies this
      ensures Valid() && threads == old(threads) && lock.None? && running
      ensures tasks == old(tasks[..|tasks| - 1]) && finished == old(finished + [tasks[|tasks| - 1]]) &&
        puts == old(puts)
    {
      ReadRunning(i);
      Lock(i);
      TestTasks(i);
      TestRunning(i);
      TakeTask(i);
      RunTask(i);
    }

    /** First half of `Stop`; a second call finds the pool not running and returns at once. */
    method ClearRunning()
      requires Valid()
      modifies this
      ensures Valid() && View() == Pools.Step(old(View()), Pools.CallStop)
      ensures !running && stopper == if old(running) then Pools.Notifying else old(stopper)
      ensures unchanged(`tasks, `lock, `threads, `puts, `started, `finished)
    {
      if running {
        running := false;
        stopper := Pools.Notifying;
      }
      Record(Pools.CallStop);
    }

    method NotifyAll()
      requires Valid() && stopper.Notifying?
      modifies this
      ensures Valid() && View() == Pools.Step(old(View()), Pools.NotifyAll)
      ensures |threads| == |old(threads)| && stopper == Pools.Joining(0)
      ensures unchanged(`tasks, `lock, `running, `puts, `started, `finished)
      ensures forall j :: 0 <= j < |threads| ==>
        threads[j] == if old(threads[j]).Waiting? then Pools.WantLock else old(threads[j])
    {
      var woken := threads;
      for i := 0 to |threads|
        invariant |woken| == |threads|
        invariant forall j :: 0 <= j < |threads| ==> woken[j] == if j < i then Pools.Woken(threads[j]) else threads[j]
      {
        if threads[i].Waiting? {
          woken := woken[i := Pools.WantLock];
        }
      }
      assert woken == Pools.WakeAll(threads);
      threads := woken;
      stopper := Pools.Joining(0);
      Record(Pools.NotifyAll);
    }

    /** One round of the joining loop, or its end. */
    method JoinNext()
      requires Valid() && Pools.Enabled(View(), Pools.JoinNext)
      modifies this
      ensures Valid() && View() == Pools.Step(old(View()), Pools.JoinNext)
      ensures stopper == if old(stopper.next) < |threads| then Pools.Joining(old(stopper.next) + 1) else Pools.Stopped
      ensures unchanged(`tasks, `lock, `running, `threads, `puts, `started, `finished)
    {
      if stopper.next < |threads| {
        stopper := Pools.Joining(stopper.next + 1);
      } else {
        stopper := Pools.Stopped;
      }
      Record(Pools.JoinNext);
    }
  }
}
