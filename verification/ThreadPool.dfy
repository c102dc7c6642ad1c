/** The worker pool: a task vector used as a stack under one mutex and one condition variable, any number of workers,
    and the thread that calls `Stop`, interleaved at every shared access. */
module ThreadPool {
  import opened Bytes

  /** Where a worker stands in `ThreadFunc`. */
  datatype Worker =
    | AtTop                  // about to read `running_` in the outer loop
    | WantLock               // about to lock, or woken and about to lock again; tests the inner condition next
    | Testing                // holds the lock, about to evaluate the inner loop condition
    | AboutToWait            // holds the lock, has decided to wait
    | Waiting                // asleep, lock released
    | Leaving                // holds the lock, has left the inner loop, about to read `running_` again
    | Popping                // holds the lock, about to take a task
    | Executing(task: nat)   // lock released, runs its task
    | Exited

  datatype Stopper = NotStopping | Notifying | Joining(next: nat) | Stopped

  /** Tasks are the tickets 0, 1, 2, ... in the order in which they are put. `underflow` records a pop from an empty
      vector. History: how many tickets were put, and the tickets started and finished. */
  datatype Pool = Pool(
    workers: seq<Worker>, tasks: seq<nat>, lock: Option<nat>, running: bool, stopper: Stopper, underflow: bool,
    puts: nat, started: seq<nat>, finished: seq<nat>)

  function Initial(workers: nat): Pool {
    Pool(seq(workers, _ => AtTop), [], None, true, NotStopping, false, 0, [], [])
  }

  datatype Action =
    | Put(wake: nat)        // push and notify_one in one critical section; `wake` is the worker notified, if one sleeps
    | WorkerStep(i: nat)
    | SpuriousWake(i: nat)
    | CallStop
    | NotifyAll
    | JoinNext

  predicate HasLock(w: Worker) {
    w.Testing? || w.AboutToWait? || w.Leaving? || w.Popping?
  }

  predicate AnyWaiting(ws: seq<Worker>) {
    exists i :: 0 <= i < |ws| && ws[i].Waiting?
  }

  predicate Enabled(p: Pool, a: Action) {
    match a
    case Put(wake) => p.lock.None? && (AnyWaiting(p.workers) ==> wake < |p.workers| && p.workers[wake].Waiting?)
    case WorkerStep(i) =>
      && i < |p.workers| && !p.workers[i].Waiting? && !p.workers[i].Exited?
      && (p.workers[i].WantLock? ==> p.lock.None?)
    case SpuriousWake(i) => i < |p.workers| && p.workers[i].Waiting?
    case CallStop => true
    case NotifyAll => p.stopper.Notifying?
    case JoinNext => p.stopper.Joining? && (p.stopper.next < |p.workers| ==> p.workers[p.stopper.next].Exited?)
  }

  function Woken(w: Worker): Worker {
    if w.Waiting? then WantLock else w
  }

  function PutTask(p: Pool, wake: nat): Pool {
    var pushed := p.(tasks := p.tasks + [p.puts], puts := p.puts + 1);
    if wake < |p.workers| then pushed.(workers := p.workers[wake := Woken(p.workers[wake])]) else pushed
  }

  function Popped(p: Pool, i: nat): Pool
    requires i < |p.workers|
  {
    if p.tasks == [] then p.(underflow := true)
    else
      var t := p.tasks[|p.tasks| - 1];
      p.(workers := p.workers[i := Executing(t)], tasks := p.tasks[..|p.tasks| - 1], lock := None,
         started := p.started + [t])
  }

  /** One access of worker `i` to the shared state. */
  function Worked(p: Pool, i: nat): Pool
    requires i < |p.workers| && !p.workers[i].Waiting? && !p.workers[i].Exited?
  {
    var ws := p.workers;
    match ws[i]
    case AtTop => p.(workers := ws[i := if p.running then WantLock else Exited])
    case WantLock => p.(workers := ws[i := Testing], lock := Some(i))
    case Testing => p.(workers := ws[i := if p.tasks == [] && p.running then AboutToWait else Leaving])
    case AboutToWait => p.(workers := ws[i := Waiting], lock := None)
    case Leaving => if p.running then p.(workers := ws[i := Popping]) else p.(workers := ws[i := Exited], lock := None)
    case Popping => Popped(p, i)
    case Executing(t) => p.(workers := ws[i := AtTop], finished := p.finished + [t])
  }

  function WakeAll(ws: seq<Worker>): (r: seq<Worker>)
    ensures |r| == |ws| && forall i :: 0 <= i < |ws| ==> r[i] == Woken(ws[i])
  {
    if ws == [] then [] else WakeAll(ws[..|ws| - 1]) + [Woken(ws[|ws| - 1])]
  }

  function Step(p: Pool, a: Action): Pool
    requires Enabled(p, a)
  {
    match a
    case Put(wake) => PutTask(p, wake)
    case WorkerStep(i) => Worked(p, i)
    case SpuriousWake(i) => p.(workers := p.workers[i := WantLock])
    case CallStop => if p.running then p.(running := false, stopper := Notifying) else p
    case NotifyAll => p.(workers := WakeAll(p.workers), stopper := Joining(0))
    case JoinNext => p.(stopper := if p.stopper.next < |p.workers| then Joining(p.stopper.next + 1) else Stopped)
  }

  // ----- Locking and control -----

  predicate LockInv(p: Pool) {
    && (p.lock.Some? ==> p.lock.value < |p.workers|)
    && forall i :: 0 <= i < |p.workers| ==> (HasLock(p.workers[i]) <==> p.lock == Some(i))
  }

  predicate WorkerFits(p: Pool, w: Worker) {
    && (w.AboutToWait? ==> p.tasks == [])
    && (w.Leaving? ==> p.tasks != [] || !p.running)
    && (w.Popping? ==> p.tasks != [])
    && (w.Exited? ==> !p.running)
  }

  /** `Stop` has joined only workers that have exited. */
  predicate Joined(p: Pool) {
    && (p.stopper.Joining? ==> p.stopper.next <= |p.workers|)
    && forall i :: 0 <= i < |p.workers| && (p.stopper.Stopped? || (p.stopper.Joining? && i < p.stopper.next)) ==>
         p.workers[i].Exited?
  }

  predicate ControlInv(p: Pool) {
    && !p.underflow
    && (p.running <==> p.stopper.NotStopping?)
    && (forall i :: 0 <= i < |p.workers| ==> WorkerFits(p, p.workers[i]))
    && Joined(p)
  }

  lemma StepKeepsLock(p: Pool, a: Action)
    requires LockInv(p) && Enabled(p, a)
    ensures LockInv(Step(p, a))
  {
    if a.WorkerStep? {
      forall k | 0 <= k < |p.workers|
        ensures HasLock(Worked(p, a.i).workers[k]) <==> Worked(p, a.i).lock == Some(k)
      {
        WorkedKeepsLock(p, a.i, k);
      }
    }
  }

  lemma WorkedKeepsLock(p: Pool, i: nat, k: nat)
    requires LockInv(p) && Enabled(p, WorkerStep(i)) && k < |p.workers|
    ensures |Worked(p, i).workers| == |p.workers|
    ensures HasLock(Worked(p, i).workers[k]) <==> Worked(p, i).lock == Some(k)
  {
    assert HasLock(p.workers[k]) <==> p.lock == Some(k);
    assert HasLock(p.workers[i]) <==> p.lock == Some(i);
  }

  lemma StepKeepsControl(p: Pool, a: Action)
    requires LockInv(p) && ControlInv(p) && Enabled(p, a)
    ensures ControlInv(Step(p, a))
  {
    forall i | 0 <= i < |p.workers|
      ensures WorkerFits(Step(p, a), Step(p, a).workers[i])
    {
      StepKeepsFits(p, a, i);
    }
    StepKeepsStopper(p, a);
  }

  lemma StepKeepsFits(p: Pool, a: Action, i: nat)
    requires LockInv(p) && ControlInv(p) && Enabled(p, a) && i < |p.workers|
    ensures |Step(p, a).workers| == |p.workers| && WorkerFits(Step(p, a), Step(p, a).workers[i])
  {
    assert WorkerFits(p, p.workers[i]);
  }

  lemma StepKeepsStopper(p: Pool, a: Action)
    requires LockInv(p) && ControlInv(p) && Enabled(p, a)
    ensures Joined(Step(p, a)) && !Step(p, a).underflow && (Step(p, a).running <==> Step(p, a).stopper.NotStopping?)
  {
    if a.WorkerStep? {
      assert WorkerFits(p, p.workers[a.i]);
    }
  }

  // ----- Enough workers are awake -----

  /** Awake and without a task: it will look at the task vector before it sleeps or runs anything. */
  predicate Idle(w: Worker) {
    w.AtTop? || w.WantLock? || HasLock(w)
  }

  function IdleCount(ws: seq<Worker>): nat {
    if ws == [] then 0 else IdleCount(ws[..|ws| - 1]) + if Idle(ws[|ws| - 1]) then 1 else 0
  }

  lemma {:induction false} IdleCountUpdate(ws: seq<Worker>, i: nat, w: Worker)
    requires i < |ws|
    ensures IdleCount(ws[i := w]) == IdleCount(ws) - (if Idle(ws[i]) then 1 else 0) + (if Idle(w) then 1 else 0)
  {
    var n := |ws| - 1;
    if i == n {
      assert ws[i := w][..n] == ws[..n];
    } else {
      IdleCountUpdate(ws[..n], i, w);
      assert ws[i := w][..n] == ws[..n][i := w];
    }
  }

  /** While the pool runs, sleeping workers are only tolerated if the awake idle ones suffice for the queued tasks. */
  predicate AwakeInv(p: Pool) {
    p.running && AnyWaiting(p.workers) ==> IdleCount(p.workers) >= |p.tasks|
  }

  lemma StepKeepsAwake(p: Pool, a: Action)
    requires LockInv(p) && ControlInv(p) && AwakeInv(p) && Enabled(p, a)
    ensures AwakeInv(Step(p, a))
  {
    match a
    case Put(wake) =>
      if wake < |p.workers| {
        IdleCountUpdate(p.workers, wake, Woken(p.workers[wake]));
      }
    case WorkerStep(i) => IdleCountUpdate(p.workers, i, Worked(p, i).workers[i]);
    case SpuriousWake(i) => IdleCountUpdate(p.workers, i, WantLock);
    case CallStop =>
    case NotifyAll =>
    case JoinNext =>
  }

  // ----- Where the tasks are -----

  function Count(s: seq<nat>, t: nat): nat {
    multiset(s)[t]
  }

  function Executes(w: Worker, t: nat): nat {
    if w == Executing(t) then 1 else 0
  }

  /** How many workers execute ticket `t`. */
  function InExecution(ws: seq<Worker>, t: nat): nat {
    if ws == [] then 0 else InExecution(ws[..|ws| - 1], t) + Executes(ws[|ws| - 1], t)
  }

  lemma {:induction false} InExecutionUpdate(ws: seq<Worker>, i: nat, w: Worker, t: nat)
    requires i < |ws|
    ensures InExecution(ws[i := w], t) + Executes(ws[i], t) == InExecution(ws, t) + Executes(w, t)
  {
    var n := |ws| - 1;
    if i == n {
      assert ws[i := w][..n] == ws[..n];
    } else {
      InExecutionUpdate(ws[..n], i, w, t);
      assert ws[i := w][..n] == ws[..n][i := w];
    }
  }

  lemma {:induction false} WakeAllKeepsExecution(ws: seq<Worker>, t: nat)
    ensures InExecution(WakeAll(ws), t) == InExecution(ws, t)
  {
    if ws != [] {
      WakeAllKeepsExecution(ws[..|ws| - 1], t);
      assert WakeAll(ws)[..|ws| - 1] == WakeAll(ws[..|ws| - 1]);
    }
  }

  /** A ticket that was put is pending, in execution or finished, exactly once; started is the latter two. */
  predicate Conserved(p: Pool, t: nat) {
    && Count(p.tasks, t) + InExecution(p.workers, t) + Count(p.finished, t) == (if t < p.puts then 1 else 0)
    && Count(p.started, t) == InExecution(p.workers, t) + Count(p.finished, t)
  }

  /** The vector holds the pending tickets in put order. */
  predicate InPutOrder(p: Pool) {
    && (forall i, j :: 0 <= i < j < |p.tasks| ==> p.tasks[i] < p.tasks[j])
    && forall i :: 0 <= i < |p.tasks| ==> p.tasks[i] < p.puts
  }

  lemma StepKeepsOrder(p: Pool, a: Action)
    requires InPutOrder(p) && Enabled(p, a)
    ensures InPutOrder(Step(p, a))
  {
  }

  lemma CountLast(s: seq<nat>, x: nat, t: nat)
    ensures Count(s + [x], t) == Count(s, t) + if t == x then 1 else 0
  {
  }

  lemma PoppedConserves(p: Pool, i: nat, t: nat)
    requires Conserved(p, t) && i < |p.workers| && !p.workers[i].Executing? && p.tasks != []
    ensures Conserved(Popped(p, i), t)
  {
    var rest, last := p.tasks[..|p.tasks| - 1], p.tasks[|p.tasks| - 1];
    InExecutionUpdate(p.workers, i, Executing(last), t);
    assert p.tasks == rest + [last];
    CountLast(rest, last, t);
    CountLast(p.started, last, t);
  }

  lemma FinishConserves(p: Pool, i: nat, t: nat)
    requires Conserved(p, t) && i < |p.workers| && p.workers[i].Executing?
    ensures Conserved(p.(workers := p.workers[i := AtTop], finished := p.finished + [p.workers[i].task]), t)
  {
    InExecutionUpdate(p.workers, i, AtTop, t);
    CountLast(p.finished, p.workers[i].task, t);
  }

  /** A worker that starts and ends no task moves on. */
  lemma MoveConserves(p: Pool, p': Pool, i: nat, w: Worker, t: nat)
    requires Conserved(p, t) && i < |p.workers| && !p.workers[i].Executing? && !w.Executing?
    requires p'.workers == p.workers[i := w] && p'.tasks == p.tasks && p'.puts == p.puts
    requires p'.started == p.started && p'.finished == p.finished
    ensures Conserved(p', t)
  {
    InExecutionUpdate(p.workers, i, w, t);
  }

  lemma WorkedConserves(p: Pool, i: nat, t: nat)
    requires Conserved(p, t) && Enabled(p, WorkerStep(i))
    ensures Conserved(Worked(p, i), t)
  {
    var p' := Worked(p, i);
    match p.workers[i]
    case AtTop => MoveConserves(p, p', i, if p.running then WantLock else Exited, t);
    case WantLock => MoveConserves(p, p', i, Testing, t);
    case Testing => MoveConserves(p, p', i, if p.tasks == [] && p.running then AboutToWait else Leaving, t);
    case AboutToWait => MoveConserves(p, p', i, Waiting, t);
    case Leaving => MoveConserves(p, p', i, if p.running then Popping else Exited, t);
    case Popping =>
      if p.tasks != [] {
        PoppedConserves(p, i, t);
      }
    case Executing(_) => FinishConserves(p, i, t);
  }

  lemma StepConserves(p: Pool, a: Action, t: nat)
    requires Conserved(p, t) && Enabled(p, a)
    ensures Conserved(Step(p, a), t)
  {
    match a
    case Put(wake) =>
      CountLast(p.tasks, p.puts, t);
      if wake < |p.workers| {
        InExecutionUpdate(p.workers, wake, Woken(p.workers[wake]), t);
      }
    case WorkerStep(i) => WorkedConserves(p, i, t);
    case SpuriousWake(i) => InExecutionUpdate(p.workers, i, WantLock, t);
    case CallStop =>
    case NotifyAll => WakeAllKeepsExecution(p.workers, t);
    case JoinNext =>
  }

  // ----- Runs -----

  predicate PoolInv(p: Pool) {
    LockInv(p) && ControlInv(p) && AwakeInv(p) && InPutOrder(p)
  }

  lemma {:induction false} NobodyExecutes(ws: seq<Worker>, t: nat)
    requires forall i :: 0 <= i < |ws| ==> !ws[i].Executing?
    ensures InExecution(ws, t) == 0
  {
    if ws != [] {
      NobodyExecutes(ws[..|ws| - 1], t);
    }
  }

  lemma StepKeeps(p: Pool, a: Action)
    requires PoolInv(p) && Enabled(p, a)
    ensures PoolInv(Step(p, a))
    ensures |Step(p, a).workers| == |p.workers|
  {
    StepKeepsLock(p, a);
    StepKeepsControl(p, a);
    StepKeepsAwake(p, a);
    StepKeepsOrder(p, a);
  }

  ghost predicate NextAt(tr: seq<Pool>, i: nat)
    requires i + 1 < |tr|
  {
    exists a :: Enabled(tr[i], a) && tr[i + 1] == Step(tr[i], a)
  }

  /** A run of a pool with `n` workers under any interleaving, spurious wakeups included. */
  ghost predicate Run(tr: seq<Pool>, n: nat) {
    && tr != [] && tr[0] == Initial(n)
    && forall i :: 0 <= i < |tr| - 1 ==> NextAt(tr, i)
  }

  lemma {:induction false} RunKeeps(tr: seq<Pool>, n: nat, i: nat)
    requires Run(tr, n) && i < |tr|
    ensures PoolInv(tr[i]) && |tr[i].workers| == n
  {
    if i > 0 {
      RunKeeps(tr, n, i - 1);
      assert NextAt(tr, i - 1);
      var a :| Enabled(tr[i - 1], a) && tr[i] == Step(tr[i - 1], a);
      StepKeeps(tr[i - 1], a);
    }
  }

  lemma {:induction false} RunConserves(tr: seq<Pool>, n: nat, i: nat, t: nat)
    requires Run(tr, n) && i < |tr|
    ensures Conserved(tr[i], t)
  {
    if i == 0 {
      NobodyExecutes(Initial(n).workers, t);
    } else {
      RunConserves(tr, n, i - 1, t);
      assert NextAt(tr, i - 1);
      var a :| Enabled(tr[i - 1], a) && tr[i] == Step(tr[i - 1], a);
      StepConserves(tr[i - 1], a, t);
    }
  }

  lemma {:induction false} SomeoneIdle(ws: seq<Worker>) returns (i: nat)
    requires IdleCount(ws) > 0
    ensures i < |ws| && Idle(ws[i])
  {
    var n := |ws| - 1;
    if Idle(ws[n]) {
      i := n;
    } else {
      i := SomeoneIdle(ws[..n]);
    }
  }

  /** While the pool runs and has a worker, queued tasks and a sleeping worker imply enough idle workers awake; in
      particular a non-empty vector never meets a pool that is all asleep. No pop ever finds the vector empty. */
  lemma NoSleepingOverWork(tr: seq<Pool>, n: nat, i: nat)
    requires Run(tr, n) && i < |tr|
    ensures !tr[i].underflow
    ensures tr[i].running && AnyWaiting(tr[i].workers) ==> IdleCount(tr[i].workers) >= |tr[i].tasks|
    ensures tr[i].running && n > 0 && tr[i].tasks != [] ==> exists w :: w in tr[i].workers && !w.Waiting?
  {
    RunKeeps(tr, n, i);
    var p := tr[i];
    if p.running && n > 0 && p.tasks != [] && p.workers[0].Waiting? {
      var k := SomeoneIdle(p.workers);
      assert p.workers[k] in p.workers && !p.workers[k].Waiting?;
    } else if n > 0 {
      assert p.workers[0] in p.workers;
    }
  }

  /** A step that starts a task starts the most recently put of all pending ones. */
  lemma StartsLatest(tr: seq<Pool>, n: nat, i: nat)
    requires Run(tr, n) && i + 1 < |tr| && tr[i + 1].started != tr[i].started
    ensures |tr[i + 1].started| == |tr[i].started| + 1
    ensures
      var t := tr[i + 1].started[|tr[i].started|];
      && tr[i + 1].started == tr[i].started + [t] && t in tr[i].tasks
      && (forall u :: u in tr[i].tasks ==> u <= t)
      && tr[i + 1].tasks + [t] == tr[i].tasks
  {
    RunKeeps(tr, n, i);
    assert NextAt(tr, i);
  }

  /** Tasks are never lost or duplicated: every ticket put is in exactly one of the vector, execution and the finished
      tasks, and none is started twice. */
  lemma EveryTaskOnce(tr: seq<Pool>, n: nat, i: nat, t: nat)
    requires Run(tr, n) && i < |tr|
    ensures
      var p := tr[i];
      && Count(p.tasks, t) + InExecution(p.workers, t) + Count(p.finished, t) == (if t < p.puts then 1 else 0)
      && Count(p.started, t) == InExecution(p.workers, t) + Count(p.finished, t) <= 1
  {
    RunConserves(tr, n, i, t);
  }

  /** When `Stop` has returned from its joins every worker has exited and no task is executing: each task put has
      either finished or never started. */
  lemma StoppedIsQuiet(tr: seq<Pool>, n: nat, i: nat, t: nat)
    requires Run(tr, n) && i < |tr| && tr[i].stopper.Stopped?
    ensures forall w :: w in tr[i].workers ==> w.Exited?
    ensures InExecution(tr[i].workers, t) == 0
    ensures t < tr[i].puts ==>
      (t in tr[i].finished <==> t !in tr[i].tasks) && (t in tr[i].tasks <==> t !in tr[i].started)
  {
    RunKeeps(tr, n, i);
    RunConserves(tr, n, i, t);
    NobodyExecutes(tr[i].workers, t);
  }

  function Last(tr: seq<Pool>): Pool
    requires tr != []
  {
    tr[|tr| - 1]
  }

  lemma Extend(tr: seq<Pool>, n: nat, a: Action, p: Pool) returns (longer: seq<Pool>)
    requires Run(tr, n) && Enabled(Last(tr), a) && p == Step(Last(tr), a)
    ensures Run(longer, n) && Last(longer) == p && longer == tr + [p]
  {
    longer := tr + [p];
    forall i | 0 <= i < |longer| - 1
      ensures NextAt(longer, i)
    {
      if i < |tr| - 1 {
        assert NextAt(tr, i);
        var b :| Enabled(tr[i], b) && tr[i + 1] == Step(tr[i], b);
        assert Enabled(longer[i], b) && longer[i + 1] == Step(longer[i], b);
      } else {
        assert Enabled(longer[i], a) && longer[i + 1] == Step(longer[i], a);
      }
    }
  }

  // ----- When `Stop` returns -----

  /** Nothing the pool itself does can happen any more. */
  ghost predicate OnlyOutsideHelps(p: Pool) {
    forall a :: Enabled(p, a) ==> a.Put? || a.SpuriousWake? || Step(p, a) == p
  }

  predicate AsleepSoon(w: Worker) {
    w.AboutToWait? || w.Waiting?
  }

  predicate AllAwake(p: Pool) {
    forall i :: 0 <= i < |p.workers| ==> !AsleepSoon(p.workers[i])
  }

  /** A worker that has decided to wait but does not sleep yet, so that no notification reaches it. */
  predicate Deaf(p: Pool) {
    exists i :: 0 <= i < |p.workers| && p.workers[i].AboutToWait?
  }

  /** After `Stop` has cleared `running_` no worker decides to wait any more. */
  lemma StaysAwake(p: Pool, a: Action)
    requires !p.running && AllAwake(p) && Enabled(p, a)
    ensures !Step(p, a).running && AllAwake(Step(p, a))
  {
  }

  /** With everyone awake the next worker to be joined can move, or the one that has the lock it waits for. */
  lemma JoinGoesOn(p: Pool)
    requires PoolInv(p) && AllAwake(p) && p.stopper.Joining?
    ensures !OnlyOutsideHelps(p)
  {
    var i := p.stopper.next;
    if i == |p.workers| || p.workers[i].Exited? {
      assert Enabled(p, JoinNext) && Step(p, JoinNext) != p;
    } else if p.workers[i].WantLock? && p.lock.Some? {
      var holder := p.lock.value;
      assert HasLock(p.workers[holder]);
      assert Enabled(p, WorkerStep(holder)) && Step(p, WorkerStep(holder)) != p;
    } else {
      assert Enabled(p, WorkerStep(i)) && Step(p, WorkerStep(i)) != p;
    }
  }

  /** A worker that missed the notification is only ever reached by a put or its own spurious wakeup, and `Stop` waits
      for it. */
  lemma MissedStays(p: Pool, a: Action, k: nat)
    requires PoolInv(p) && p.stopper.Joining? && k < |p.workers| && AsleepSoon(p.workers[k])
    requires Enabled(p, a) && !a.Put? && a != SpuriousWake(k)
    ensures Step(p, a).stopper.Joining? && AsleepSoon(Step(p, a).workers[k])
  {
  }

  /** A step of the pool itself: of a worker or of the thread in `Stop`. */
  ghost predicate OwnAt(tr: seq<Pool>, i: nat)
    requires i + 1 < |tr|
  {
    exists a :: Enabled(tr[i], a) && tr[i + 1] == Step(tr[i], a) && !a.Put? && !a.SpuriousWake?
  }

  /** The step at which `Stop` notifies. */
  predicate NotifiesAt(tr: seq<Pool>, k: nat) {
    k + 1 < |tr| && tr[k].stopper.Notifying? && !tr[k + 1].stopper.Notifying?
  }

  lemma NotifyStep(tr: seq<Pool>, n: nat, k: nat)
    requires Run(tr, n) && NotifiesAt(tr, k)
    ensures tr[k + 1] == Step(tr[k], NotifyAll)
  {
    assert NextAt(tr, k);
  }

  /** If no worker was about to wait when `Stop` notified, then from there on nobody ever waits, whatever is put
      meanwhile, and as long as `Stop` has not returned the pool can go on by itself. */
  lemma {:induction false} StopIsHeard(tr: seq<Pool>, n: nat, k: nat, j: nat)
    requires Run(tr, n) && NotifiesAt(tr, k) && !Deaf(tr[k]) && k < j < |tr|
    ensures AllAwake(tr[j]) && !tr[j].running && (OnlyOutsideHelps(tr[j]) ==> tr[j].stopper.Stopped?)
  {
    RunKeeps(tr, n, j);
    if j == k + 1 {
      NotifyStep(tr, n, k);
      RunKeeps(tr, n, k);
    } else {
      StopIsHeard(tr, n, k, j - 1);
      assert NextAt(tr, j - 1);
      var a :| Enabled(tr[j - 1], a) && tr[j] == Step(tr[j - 1], a);
      StaysAwake(tr[j - 1], a);
      NeverBackToNotifying(tr, n, k, j);
    }
    if tr[j].stopper.Joining? {
      JoinGoesOn(tr[j]);
    }
  }

  lemma {:induction false} NeverBackToNotifying(tr: seq<Pool>, n: nat, k: nat, j: nat)
    requires Run(tr, n) && NotifiesAt(tr, k) && k < j < |tr|
    ensures !tr[j].running && (tr[j].stopper.Joining? || tr[j].stopper.Stopped?)
  {
    if j == k + 1 {
      NotifyStep(tr, n, k);
      RunKeeps(tr, n, k);
    } else {
      NeverBackToNotifying(tr, n, k, j - 1);
      assert NextAt(tr, j - 1);
    }
  }

  /** If worker `w` was about to wait when `Stop` notified, then `Stop` has not returned after any number of the pool's
      own steps, and the worker is still asleep or about to be. */
  lemma {:induction false} StopIsMissed(tr: seq<Pool>, n: nat, k: nat, j: nat, w: nat)
    requires Run(tr, n) && NotifiesAt(tr, k) && w < |tr[k].workers| && tr[k].workers[w].AboutToWait? && k < j < |tr|
    requires forall i :: k < i < j ==> OwnAt(tr, i)
    ensures tr[j].stopper.Joining? && w < |tr[j].workers| && AsleepSoon(tr[j].workers[w])
  {
    RunKeeps(tr, n, j);
    RunKeeps(tr, n, k);
    if j == k + 1 {
      NotifyStep(tr, n, k);
    } else {
      StopIsMissed(tr, n, k, j - 1, w);
      RunKeeps(tr, n, j - 1);
      assert OwnAt(tr, j - 1);
      var a :| Enabled(tr[j - 1], a) && tr[j] == Step(tr[j - 1], a) && !a.Put? && !a.SpuriousWake?;
      MissedStays(tr[j - 1], a, w);
    }
  }

  /** When `Stop` returns. However the pool's own steps are scheduled after the notification, once none is left `Stop`
      has returned if and only if no worker was about to wait when it notified. */
  lemma StopReturnsExactly(tr: seq<Pool>, n: nat, k: nat, j: nat)
    requires Run(tr, n) && NotifiesAt(tr, k) && k < j < |tr|
    requires (forall i :: k < i < j ==> OwnAt(tr, i)) && OnlyOutsideHelps(tr[j])
    ensures tr[j].stopper.Stopped? <==> !Deaf(tr[k])
  {
    if Deaf(tr[k]) {
      var w :| 0 <= w < |tr[k].workers| && tr[k].workers[w].AboutToWait?;
      StopIsMissed(tr, n, k, j, w);
    } else {
      StopIsHeard(tr, n, k, j);
    }
  }

  // ----- The pool's own steps come to an end -----

  /** How many steps a worker of a stopped pool has before it exits or sleeps, at most. */
  function StepsLeft(w: Worker): nat {
    match w
    case AtTop => 1
    case WantLock => 3
    case Testing => 2
    case AboutToWait => 1
    case Waiting => 0
    case Leaving => 1
    case Popping => 3
    case Executing(_) => 2
    case Exited => 0
  }

  function AllStepsLeft(ws: seq<Worker>): nat {
    if ws == [] then 0 else AllStepsLeft(ws[..|ws| - 1]) + StepsLeft(ws[|ws| - 1])
  }

  lemma {:induction false} AllStepsLeftUpdate(ws: seq<Worker>, i: nat, w: Worker)
    requires i < |ws|
    ensures AllStepsLeft(ws[i := w]) + StepsLeft(ws[i]) == AllStepsLeft(ws) + StepsLeft(w)
  {
    var n := |ws| - 1;
    if i == n {
      assert ws[i := w][..n] == ws[..n];
    } else {
      AllStepsLeftUpdate(ws[..n], i, w);
      assert ws[i := w][..n] == ws[..n][i := w];
    }
  }

  /** A bound on the own steps of a pool whose `Stop` is joining. */
  function Left(p: Pool): nat
    requires p.stopper.Joining? ==> p.stopper.next <= |p.workers|
  {
    AllStepsLeft(p.workers) + if p.stopper.Joining? then |p.workers| - p.stopper.next + 1 else 0
  }

  lemma OwnStepDescends(p: Pool, a: Action)
    requires PoolInv(p) && (p.stopper.Joining? || p.stopper.Stopped?)
    requires Enabled(p, a) && !a.Put? && !a.SpuriousWake? && Step(p, a) != p
    ensures Step(p, a).stopper.Joining? || Step(p, a).stopper.Stopped?
    ensures PoolInv(Step(p, a)) && Left(Step(p, a)) < Left(p)
  {
    StepKeeps(p, a);
    if a.WorkerStep? {
      AllStepsLeftUpdate(p.workers, a.i, Worked(p, a.i).workers[a.i]);
    }
  }

  /** Every run that has come to joining can be continued by the pool's own steps until none is left. */
  lemma Settle(tr: seq<Pool>, n: nat) returns (longer: seq<Pool>)
    requires Run(tr, n) && PoolInv(Last(tr)) && (Last(tr).stopper.Joining? || Last(tr).stopper.Stopped?)
    ensures Run(longer, n) && tr <= longer && OnlyOutsideHelps(Last(longer))
    ensures forall i :: |tr| - 1 <= i < |longer| - 1 ==> OwnAt(longer, i)
    ensures |longer| <= |tr| + Left(Last(tr))
    decreases Left(Last(tr))
  {
    var p := Last(tr);
    if OnlyOutsideHelps(p) {
      longer := tr;
    } else {
      var a :| Enabled(p, a) && !a.Put? && !a.SpuriousWake? && Step(p, a) != p;
      OwnStepDescends(p, a);
      var next := Extend(tr, n, a, Step(p, a));
      longer := Settle(next, n);
      assert longer[|tr| - 1] == p && longer[|tr|] == Step(p, a);
      assert OwnAt(longer, |tr| - 1);
    }
  }

  /** The first worker of a pool decides to wait. */
  lemma DecidesToWait(n: nat) returns (tr: seq<Pool>)
    requires n > 0
    ensures Run(tr, n)
    ensures Last(tr) == Initial(n).(workers := Initial(n).workers[0 := AboutToWait], lock := Some(0))
  {
    var p := Initial(n);
    tr := [p];
    tr := Extend(tr, n, WorkerStep(0), p.(workers := p.workers[0 := WantLock]));
    tr := Extend(tr, n, WorkerStep(0), p.(workers := p.workers[0 := Testing], lock := Some(0)));
    tr := Extend(tr, n, WorkerStep(0), p.(workers := p.workers[0 := AboutToWait], lock := Some(0)));
  }

  lemma StuckIsAsleep(p: Pool, w: nat)
    requires OnlyOutsideHelps(p) && w < |p.workers| && AsleepSoon(p.workers[w])
    ensures p.workers[w].Waiting?
  {
    assert Enabled(p, WorkerStep(w)) ==> Step(p, WorkerStep(w)) == p;
  }

  /** `Stop` clears `running_` and notifies without the lock, so a worker that has just decided to wait misses the
      notification: for every number of workers there is a run at whose end `Stop` still waits for a sleeping worker and
      only a further put or a spurious wakeup can move the pool. */
  lemma StopCanMissAWorker(n: nat) returns (tr: seq<Pool>)
    requires n > 0
    ensures Run(tr, n) && OnlyOutsideHelps(Last(tr))
    ensures Last(tr).stopper.Joining? && exists w :: w in Last(tr).workers && w.Waiting?
  {
    tr := DecidesToWait(n);
    var p := Last(tr);
    tr := Extend(tr, n, CallStop, p.(running := false, stopper := Notifying));
    var k := |tr| - 1;
    tr := Extend(tr, n, NotifyAll, Step(Last(tr), NotifyAll));
    assert tr[k].workers[0].AboutToWait?;
    RunKeeps(tr, n, k + 1);
    ghost var notified := tr;
    tr := Settle(tr, n);
    assert tr[k] == notified[k] && tr[k + 1] == notified[k + 1];
    StopIsMissed(tr, n, k, |tr| - 1, 0);
    RunKeeps(tr, n, |tr| - 1);
    var end := Last(tr);
    StuckIsAsleep(end, 0);
    assert end.workers[0] in end.workers;
  }

  // ----- Tasks do get done -----

  /** A pool whose workers are all at the top of their loop, after the first `k` tasks have been run. */
  function Resting(n: nat, k: nat): Pool {
    Initial(n).(puts := k, started := UpTo(k), finished := UpTo(k))
  }

  function UpTo(k: nat): (r: seq<nat>)
    ensures |r| == k && forall i :: 0 <= i < k ==> r[i] == i
  {
    seq(k, i => i)
  }

  /** The task `k` is put and the first worker takes it. */
  lemma PutAndTake(tr: seq<Pool>, n: nat, k: nat, p: Pool) returns (longer: seq<Pool>)
    requires n > 0 && Run(tr, n) && Last(tr) == Resting(n, k) && p == Resting(n, k).(tasks := [k], puts := k + 1)
    ensures Run(longer, n) && Last(longer) == p.(workers := p.workers[0 := Popping], lock := Some(0))
  {
    var ws := p.workers;
    longer := Extend(tr, n, Put(0), p);
    longer := Extend(longer, n, WorkerStep(0), p.(workers := ws[0 := WantLock]));
    longer := Extend(longer, n, WorkerStep(0), p.(workers := ws[0 := Testing], lock := Some(0)));
    longer := Extend(longer, n, WorkerStep(0), p.(workers := ws[0 := Leaving], lock := Some(0)));
    longer := Extend(longer, n, WorkerStep(0), p.(workers := ws[0 := Popping], lock := Some(0)));
  }

  lemma PutAndRun(tr: seq<Pool>, n: nat, k: nat) returns (longer: seq<Pool>)
    requires n > 0 && Run(tr, n) && Last(tr) == Resting(n, k)
    ensures Run(longer, n) && Last(longer) == Resting(n, k + 1)
  {
    longer := PutAndTake(tr, n, k, Resting(n, k).(tasks := [k], puts := k + 1));
    var q := Resting(n, k).(puts := k + 1, started := UpTo(k + 1));
    longer := Extend(longer, n, WorkerStep(0), q.(workers := q.workers[0 := Executing(k)]));
    longer := Extend(longer, n, WorkerStep(0), q.(finished := UpTo(k + 1)));
  }

  /** With any number of workers any number of tasks can be put and run to the end. */
  lemma {:induction false} TasksGetDone(n: nat, k: nat) returns (tr: seq<Pool>)
    requires n > 0
    ensures Run(tr, n) && Last(tr).puts == k && Last(tr).tasks == [] && Last(tr).running
    ensures Last(tr).finished == seq(k, i => i) && Last(tr) == Resting(n, k)
  {
    if k == 0 {
      tr := [Initial(n)];
      assert UpTo(0) == [];
    } else {
      tr := TasksGetDone(n, k - 1);
      tr := PutAndRun(tr, n, k - 1);
    }
  }
}
