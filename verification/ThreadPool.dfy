/** The bounded task stack of app/thread_pool.c with its two condition variables, as a step
    system over all interleavings of workers, adders and one shutdown. A step is one stretch
    of code under the lock, up to the wait or unlock that ends it. */
module ThreadPool {

  type Task = int

  /** A worker outside the lock, blocked in pthread_cond_wait, woken from it but not yet
      holding the lock again, running a task, or gone. */
  datatype Worker =
    | AtTop
    | WantsLock
    | Asleep
    | Woken
    | Busy(task: Task)
    | Exited

  /** A call of threadPoolAdd. */
  datatype Adder =
    | Entering(task: Task)
    | Blocked(task: Task)
    | Released(task: Task)
    | Accepted(task: Task)
    | Refused(task: Task)

  datatype Pool = Pool(
    capacity: nat,
    tasks: seq<Task>,
    running: bool,
    workers: seq<Worker>,
    adders: seq<Adder>,
    taken: multiset<Task>,
    ran: multiset<Task>)

  /** createThreadPool(n), before any call of threadPoolAdd has reached the lock. */
  ghost predicate Init(p: Pool) {
    && p.capacity == 2 * |p.workers|
    && p.tasks == [] && p.running
    && (forall w :: 0 <= w < |p.workers| ==> p.workers[w] == AtTop)
    && (forall a :: 0 <= a < |p.adders| ==> p.adders[a].Entering?)
    && p.taken == multiset{} && p.ran == multiset{}
  }

  // ----- Signals -----

  /** pthread_cond_signal(not_empty): at least one sleeper, if there is one, is woken. */
  ghost predicate SignalWorkers(before: seq<Worker>, after: seq<Worker>) {
    && |after| == |before|
    && (forall w :: 0 <= w < |before| ==> after[w] == before[w] || (before[w].Asleep? && after[w].Woken?))
    && ((exists w :: 0 <= w < |before| && before[w].Asleep?) ==>
          exists w :: 0 <= w < |before| && before[w].Asleep? && after[w].Woken?)
  }

  /** pthread_cond_signal(not_full). */
  ghost predicate SignalAdders(before: seq<Adder>, after: seq<Adder>) {
    && |after| == |before|
    && (forall a :: 0 <= a < |before| ==>
          after[a] == before[a] || (before[a].Blocked? && after[a] == Released(before[a].task)))
    && ((exists a :: 0 <= a < |before| && before[a].Blocked?) ==>
          exists a :: 0 <= a < |before| && before[a].Blocked? && after[a].Released?)
  }

  /** pthread_cond_broadcast(not_empty). */
  function Broadcast(ws: seq<Worker>): (r: seq<Worker>)
    ensures |r| == |ws|
    ensures forall w :: 0 <= w < |ws| ==> r[w] == if ws[w].Asleep? then Woken else ws[w]
  {
    seq(|ws|, w requires 0 <= w < |ws| => if ws[w].Asleep? then Woken else ws[w])
  }

  // ----- Steps -----

  datatype Step =
    | Check(w: nat)
    | Lock(w: nat)
    | WakeWorker(w: nat)
    | Finish(w: nat)
    | AddLock(a: nat)
    | WakeAdder(a: nat)
    | Shutdown

  /** The unlocked read of `running` at the top of the worker's loop. */
  ghost predicate CheckStep(p: Pool, q: Pool, w: nat) {
    && w < |p.workers| && p.workers[w].AtTop?
    && q == p.(workers := p.workers[w := if p.running then WantsLock else Exited])
  }

  /** The worker's critical section, entered first or after a wakeup: sleep while there is
      nothing to do, leave on shutdown, otherwise pop a task and signal not_full. */
  ghost predicate LockStep(p: Pool, q: Pool, w: nat) {
    && w < |p.workers| && (p.workers[w].WantsLock? || p.workers[w].Woken?)
    && if p.tasks == [] && p.running then q == p.(workers := p.workers[w := Asleep])
       else if !p.running then q == p.(workers := p.workers[w := Exited])
       else
         var n := |p.tasks| - 1;
         && SignalAdders(p.adders, q.adders)
         && q == p.(tasks := p.tasks[..n], workers := p.workers[w := Busy(p.tasks[n])],
                    adders := q.adders, taken := p.taken + multiset{p.tasks[n]})
  }

  /** A spurious wakeup, which POSIX allows. */
  ghost predicate WakeWorkerStep(p: Pool, q: Pool, w: nat) {
    && w < |p.workers| && p.workers[w].Asleep?
    && q == p.(workers := p.workers[w := Woken])
  }

  /** task.task(task.arg) returns. */
  ghost predicate FinishStep(p: Pool, q: Pool, w: nat) {
    && w < |p.workers| && p.workers[w].Busy?
    && q == p.(workers := p.workers[w := AtTop], ran := p.ran + multiset{p.workers[w].task})
  }

  /** threadPoolAdd's critical section; `running` is looked at on entry only, so an adder
      released after shutdown still pushes its task. */
  ghost predicate AddStep(p: Pool, q: Pool, a: nat) {
    && a < |p.adders| && (p.adders[a].Entering? || p.adders[a].Released?)
    && var task := p.adders[a].task;
       if p.adders[a].Entering? && !p.running then q == p.(adders := p.adders[a := Refused(task)])
       else if |p.tasks| == p.capacity then q == p.(adders := p.adders[a := Blocked(task)])
       else
         && SignalWorkers(p.workers, q.workers)
         && q == p.(tasks := p.tasks + [task], adders := p.adders[a := Accepted(task)], workers := q.workers)
  }

  ghost predicate WakeAdderStep(p: Pool, q: Pool, a: nat) {
    && a < |p.adders| && p.adders[a].Blocked?
    && q == p.(adders := p.adders[a := Released(p.adders[a].task)])
  }

  /** threadPoolDestroy up to the joins. */
  ghost predicate ShutdownStep(p: Pool, q: Pool) {
    q == p.(running := false, workers := Broadcast(p.workers))
  }

  ghost predicate Next(p: Pool, q: Pool, s: Step) {
    match s
    case Check(w) => CheckStep(p, q, w)
    case Lock(w) => LockStep(p, q, w)
    case WakeWorker(w) => WakeWorkerStep(p, q, w)
    case Finish(w) => FinishStep(p, q, w)
    case AddLock(a) => AddStep(p, q, a)
    case WakeAdder(a) => WakeAdderStep(p, q, a)
    case Shutdown => ShutdownStep(p, q)
  }

  // ----- Counting -----

  function CountAsleep(ws: seq<Worker>): nat {
    if ws == [] then 0 else (if ws[0].Asleep? then 1 else 0) + CountAsleep(ws[1..])
  }

  function CountWoken(ws: seq<Worker>): nat {
    if ws == [] then 0 else (if ws[0].Woken? then 1 else 0) + CountWoken(ws[1..])
  }

  function CountBlocked(xs: seq<Adder>): nat {
    if xs == [] then 0 else (if xs[0].Blocked? then 1 else 0) + CountBlocked(xs[1..])
  }

  function CountReleased(xs: seq<Adder>): nat {
    if xs == [] then 0 else (if xs[0].Released? then 1 else 0) + CountReleased(xs[1..])
  }

  /** The tasks that workers are running. */
  function RunningTasks(ws: seq<Worker>): multiset<Task> {
    if ws == [] then multiset{} else Running(ws[0]) + RunningTasks(ws[1..])
  }

  function Running(w: Worker): multiset<Task> {
    if w.Busy? then multiset{w.task} else multiset{}
  }

  /** The tasks of the calls that have returned 0. */
  function AcceptedTasks(xs: seq<Adder>): multiset<Task> {
    if xs == [] then multiset{}
    else (if xs[0].Accepted? then multiset{xs[0].task} else multiset{}) + AcceptedTasks(xs[1..])
  }

  lemma {:induction false} WorkerUpdate(ws: seq<Worker>, w: nat, x: Worker)
    requires w < |ws|
    ensures CountAsleep(ws[w := x]) == CountAsleep(ws) - (if ws[w].Asleep? then 1 else 0) + (if x.Asleep? then 1 else 0)
    ensures CountWoken(ws[w := x]) == CountWoken(ws) - (if ws[w].Woken? then 1 else 0) + (if x.Woken? then 1 else 0)
  {
    if w == 0 {
      assert ws[w := x][1..] == ws[1..];
    } else {
      assert ws[w := x][1..] == ws[1..][w - 1 := x];
      WorkerUpdate(ws[1..], w - 1, x);
    }
  }

  lemma {:induction false} RunningCount(ws: seq<Worker>, w: nat, x: Worker, t: Task)
    requires w < |ws|
    ensures RunningTasks(ws[w := x])[t] + Running(ws[w])[t] == RunningTasks(ws)[t] + Running(x)[t]
  {
    if w == 0 {
      assert ws[w := x][1..] == ws[1..];
    } else {
      assert ws[w := x][1..] == ws[1..][w - 1 := x];
      RunningCount(ws[1..], w - 1, x, t);
    }
  }

  lemma RunningUpdate(ws: seq<Worker>, w: nat, x: Worker)
    requires w < |ws|
    ensures !ws[w].Busy? ==> RunningTasks(ws[w := x]) == RunningTasks(ws) + Running(x)
    ensures !x.Busy? ==> RunningTasks(ws) == RunningTasks(ws[w := x]) + Running(ws[w])
  {
    forall t: Task
      ensures RunningTasks(ws[w := x])[t] + Running(ws[w])[t] == RunningTasks(ws)[t] + Running(x)[t]
    {
      RunningCount(ws, w, x, t);
    }
  }

  lemma {:induction false} SignalledRunning(before: seq<Worker>, after: seq<Worker>)
    requires |after| == |before|
    requires forall w :: 0 <= w < |before| ==> after[w] == before[w] || (before[w].Asleep? && after[w].Woken?)
    ensures RunningTasks(after) == RunningTasks(before)
  {
    if before != [] {
      SignalledRunning(before[1..], after[1..]);
    }
  }

  lemma {:induction false} AdderUpdate(xs: seq<Adder>, a: nat, x: Adder)
    requires a < |xs|
    ensures CountBlocked(xs[a := x]) == CountBlocked(xs) - (if xs[a].Blocked? then 1 else 0) + (if x.Blocked? then 1 else 0)
    ensures CountReleased(xs[a := x]) == CountReleased(xs) - (if xs[a].Released? then 1 else 0) + (if x.Released? then 1 else 0)
  {
    if a == 0 {
      assert xs[a := x][1..] == xs[1..];
    } else {
      assert xs[a := x][1..] == xs[1..][a - 1 := x];
      AdderUpdate(xs[1..], a - 1, x);
    }
  }

  lemma {:induction false} AcceptUpdate(xs: seq<Adder>, a: nat, x: Adder)
    requires a < |xs| && !xs[a].Accepted?
    ensures AcceptedTasks(xs[a := x]) == AcceptedTasks(xs) + if x.Accepted? then multiset{x.task} else multiset{}
  {
    if a == 0 {
      assert xs[a := x][1..] == xs[1..];
    } else {
      assert xs[a := x][1..] == xs[1..][a - 1 := x];
      AcceptUpdate(xs[1..], a - 1, x);
    }
  }

  /** A signal turns sleepers into woken workers one for one, and at least one if any. */
  lemma {:induction false} SignalledWorkers(before: seq<Worker>, after: seq<Worker>)
    requires |after| == |before|
    requires forall w :: 0 <= w < |before| ==> after[w] == before[w] || (before[w].Asleep? && after[w].Woken?)
    ensures CountAsleep(after) <= CountAsleep(before)
    ensures CountWoken(after) - CountWoken(before) == CountAsleep(before) - CountAsleep(after)
    ensures (exists w :: 0 <= w < |before| && before[w].Asleep? && after[w].Woken?) ==> CountAsleep(after) < CountAsleep(before)
  {
    if before != [] {
      SignalledWorkers(before[1..], after[1..]);
      if w :| 0 <= w < |before| && before[w].Asleep? && after[w].Woken? && w > 0 {
        assert before[1..][w - 1].Asleep? && after[1..][w - 1].Woken?;
      }
    }
  }

  lemma {:induction false} SignalledAdders(before: seq<Adder>, after: seq<Adder>)
    requires |after| == |before|
    requires forall a :: 0 <= a < |before| ==>
               after[a] == before[a] || (before[a].Blocked? && after[a] == Released(before[a].task))
    ensures CountBlocked(after) <= CountBlocked(before)
    ensures CountReleased(after) - CountReleased(before) == CountBlocked(before) - CountBlocked(after)
    ensures (exists a :: 0 <= a < |before| && before[a].Blocked? && after[a].Released?) ==> CountBlocked(after) < CountBlocked(before)
    ensures AcceptedTasks(after) == AcceptedTasks(before)
  {
    if before != [] {
      SignalledAdders(before[1..], after[1..]);
      if a :| 0 <= a < |before| && before[a].Blocked? && after[a].Released? && a > 0 {
        assert before[1..][a - 1].Blocked? && after[1..][a - 1].Released?;
      }
    }
  }

  lemma {:induction false} SomeAsleep(ws: seq<Worker>)
    ensures CountAsleep(ws) > 0 <==> exists w :: 0 <= w < |ws| && ws[w].Asleep?
  {
    if ws != [] {
      SomeAsleep(ws[1..]);
      if w :| 0 <= w < |ws| && ws[w].Asleep? && w > 0 {
        assert ws[1..][w - 1].Asleep?;
      }
      if w :| 0 <= w < |ws[1..]| && ws[1..][w].Asleep? {
        assert ws[w + 1].Asleep?;
      }
    }
  }

  lemma {:induction false} SomeBlocked(xs: seq<Adder>)
    ensures CountBlocked(xs) > 0 <==> exists a :: 0 <= a < |xs| && xs[a].Blocked?
  {
    if xs != [] {
      SomeBlocked(xs[1..]);
      if a :| 0 <= a < |xs| && xs[a].Blocked? && a > 0 {
        assert xs[1..][a - 1].Blocked?;
      }
      if a :| 0 <= a < |xs[1..]| && xs[1..][a].Blocked? {
        assert xs[a + 1].Blocked?;
      }
    }
  }

  // ----- The invariant -----

  ghost predicate Inv(p: Pool) {
    // Tasks accepted are the tasks taken and the tasks pending.
    && AcceptedTasks(p.adders) == p.taken + multiset(p.tasks)
    && |p.tasks| <= p.capacity
    // Tasks taken are the tasks that have run and the tasks running.
    && p.taken == p.ran + RunningTasks(p.workers)
    // No task waits while every worker that could be told about it sleeps.
    && (p.running && CountAsleep(p.workers) > 0 ==> |p.tasks| <= CountWoken(p.workers))
    // After the shutdown broadcast no worker sleeps again.
    && (!p.running ==> CountAsleep(p.workers) == 0)
    // No free place waits while every adder that could be told about it sleeps.
    && (CountBlocked(p.adders) > 0 ==> p.capacity - |p.tasks| <= CountReleased(p.adders))
  }

  lemma {:induction false} NothingYet(p: Pool)
    requires Init(p)
    ensures CountAsleep(p.workers) == 0 && CountBlocked(p.adders) == 0 && AcceptedTasks(p.adders) == multiset{}
    ensures RunningTasks(p.workers) == multiset{}
  {
    NoneRunning(p.workers);
    SomeAsleep(p.workers);
    SomeBlocked(p.adders);
    NoneAccepted(p.adders);
  }

  lemma {:induction false} NoneRunning(ws: seq<Worker>)
    requires forall w :: 0 <= w < |ws| ==> !ws[w].Busy?
    ensures RunningTasks(ws) == multiset{}
  {
    if ws != [] {
      NoneRunning(ws[1..]);
    }
  }

  lemma {:induction false} NoneAccepted(xs: seq<Adder>)
    requires forall a :: 0 <= a < |xs| ==> !xs[a].Accepted?
    ensures AcceptedTasks(xs) == multiset{}
  {
    if xs != [] {
      NoneAccepted(xs[1..]);
    }
  }

  lemma InitInv(p: Pool)
    requires Init(p)
    ensures Inv(p)
  {
    NothingYet(p);
  }

  lemma PopInv(p: Pool, q: Pool, w: nat)
    requires Inv(p) && LockStep(p, q, w) && p.tasks != [] && p.running
    ensures Inv(q)
  {
    var n := |p.tasks| - 1;
    WorkerUpdate(p.workers, w, Busy(p.tasks[n]));
    SignalledAdders(p.adders, q.adders);
    SomeBlocked(p.adders);
    PopMoves(p.tasks, p.taken);
    PopMovesRunning(p, q, w);
  }

  /** The popped task goes from the stack to the tasks taken. */
  lemma PopMoves(tasks: seq<Task>, taken: multiset<Task>)
    requires tasks != []
    ensures taken + multiset(tasks)
         == taken + multiset{tasks[|tasks| - 1]} + multiset(tasks[..|tasks| - 1])
  {
    assert tasks == tasks[..|tasks| - 1] + [tasks[|tasks| - 1]];
  }

  lemma PopMovesRunning(p: Pool, q: Pool, w: nat)
    requires LockStep(p, q, w) && p.tasks != [] && p.running && p.taken == p.ran + RunningTasks(p.workers)
    ensures q.taken == q.ran + RunningTasks(q.workers)
  {
    RunningUpdate(p.workers, w, q.workers[w]);
  }

  lemma LockInv(p: Pool, q: Pool, w: nat)
    requires Inv(p) && LockStep(p, q, w)
    ensures Inv(q)
  {
    if p.tasks == [] && p.running {
      WorkerUpdate(p.workers, w, Asleep);
      RunningUpdate(p.workers, w, Asleep);
    } else if !p.running {
      WorkerUpdate(p.workers, w, Exited);
      RunningUpdate(p.workers, w, Exited);
    } else {
      PopInv(p, q, w);
    }
  }

  lemma PushInv(p: Pool, q: Pool, a: nat)
    requires Inv(p) && AddStep(p, q, a) && |p.tasks| < p.capacity && (p.adders[a].Released? || p.running)
    ensures Inv(q)
  {
    AdderUpdate(p.adders, a, Accepted(p.adders[a].task));
    AcceptUpdate(p.adders, a, Accepted(p.adders[a].task));
    SignalledWorkers(p.workers, q.workers);
    SignalledRunning(p.workers, q.workers);
    SomeAsleep(p.workers);
    assert multiset(p.tasks + [p.adders[a].task]) == multiset(p.tasks) + multiset{p.adders[a].task};
  }

  lemma AddInv(p: Pool, q: Pool, a: nat)
    requires Inv(p) && AddStep(p, q, a)
    ensures Inv(q)
  {
    var task := p.adders[a].task;
    if p.adders[a].Entering? && !p.running {
      AdderUpdate(p.adders, a, Refused(task));
      AcceptUpdate(p.adders, a, Refused(task));
    } else if |p.tasks| == p.capacity {
      AdderUpdate(p.adders, a, Blocked(task));
      AcceptUpdate(p.adders, a, Blocked(task));
    } else {
      PushInv(p, q, a);
    }
  }

  lemma ShutdownInv(p: Pool, q: Pool)
    requires Inv(p) && ShutdownStep(p, q)
    ensures Inv(q)
  {
    SomeAsleep(q.workers);
    SignalledRunning(p.workers, q.workers);
  }

  lemma CheckInv(p: Pool, q: Pool, w: nat)
    requires Inv(p) && CheckStep(p, q, w)
    ensures Inv(q)
  {
    WorkerUpdate(p.workers, w, if p.running then WantsLock else Exited);
    RunningUpdate(p.workers, w, if p.running then WantsLock else Exited);
  }

  lemma WakeWorkerInv(p: Pool, q: Pool, w: nat)
    requires Inv(p) && WakeWorkerStep(p, q, w)
    ensures Inv(q)
  {
    WorkerUpdate(p.workers, w, Woken);
    RunningUpdate(p.workers, w, Woken);
  }

  lemma FinishInv(p: Pool, q: Pool, w: nat)
    requires Inv(p) && FinishStep(p, q, w)
    ensures Inv(q)
  {
    WorkerUpdate(p.workers, w, AtTop);
    RunningUpdate(p.workers, w, AtTop);
  }

  lemma NextInv(p: Pool, q: Pool, s: Step)
    requires Inv(p) && Next(p, q, s)
    ensures Inv(q)
  {
    match s
    case Check(w) => CheckInv(p, q, w);
    case Lock(w) => LockInv(p, q, w);
    case WakeWorker(w) => WakeWorkerInv(p, q, w);
    case Finish(w) => FinishInv(p, q, w);
    case AddLock(a) => AddInv(p, q, a);
    case WakeAdder(a) =>
      AdderUpdate(p.adders, a, Released(p.adders[a].task));
      AcceptUpdate(p.adders, a, Released(p.adders[a].task));
    case Shutdown => ShutdownInv(p, q);
  }

  // ----- Every interleaving -----

  ghost predicate StepAt(ps: seq<Pool>, ss: seq<Step>, i: nat) {
    i < |ss| && i + 1 < |ps| && Next(ps[i], ps[i + 1], ss[i])
  }

  /** A run from any state. */
  ghost predicate Path(ps: seq<Pool>, ss: seq<Step>) {
    |ps| == |ss| + 1 && forall i :: 0 <= i < |ss| ==> StepAt(ps, ss, i)
  }

  ghost predicate Behaviour(ps: seq<Pool>, ss: seq<Step>) {
    Path(ps, ss) && Init(ps[0])
  }

  lemma {:induction false} ReachableInv(ps: seq<Pool>, ss: seq<Step>, i: nat)
    requires Behaviour(ps, ss) && i < |ps|
    ensures Inv(ps[i])
    decreases i
  {
    if i == 0 {
      InitInv(ps[0]);
    } else {
      ReachableInv(ps, ss, i - 1);
      assert StepAt(ps, ss, i - 1);
      NextInv(ps[i - 1], ps[i], ss[i - 1]);
    }
  }

  /** Safety in every state of every interleaving: no task is lost, run twice or invented
      (the tasks accepted are those that have run, those running and those pending), the
      stack stays within its capacity, no task waits while all workers sleep, and
      after shutdown no worker is asleep. */
  lemma PoolSafety(ps: seq<Pool>, ss: seq<Step>, i: nat)
    requires Behaviour(ps, ss) && i < |ps|
    ensures AcceptedTasks(ps[i].adders) == ps[i].ran + RunningTasks(ps[i].workers) + multiset(ps[i].tasks)
    ensures AcceptedTasks(ps[i].adders) == ps[i].taken + multiset(ps[i].tasks)
    ensures |ps[i].tasks| <= ps[i].capacity
    ensures ps[i].running && |ps[i].workers| > 0 && ps[i].tasks != [] ==>
              exists w :: 0 <= w < |ps[i].workers| && !ps[i].workers[w].Asleep?
    ensures ps[i].running && CountAsleep(ps[i].workers) > 0 ==> |ps[i].tasks| <= CountWoken(ps[i].workers)
    ensures !ps[i].running ==> forall w :: 0 <= w < |ps[i].workers| ==> !ps[i].workers[w].Asleep?
  {
    ReachableInv(ps, ss, i);
    var p := ps[i];
    SomeAsleep(p.workers);
    if p.running && |p.workers| > 0 && p.tasks != [] {
      if forall w :: 0 <= w < |p.workers| ==> p.workers[w].Asleep? {
        assert p.workers[0].Asleep?;
        AllAsleepNoneWoken(p.workers);
      }
    }
  }

  lemma {:induction false} AllAsleepNoneWoken(ws: seq<Worker>)
    requires forall w :: 0 <= w < |ws| ==> ws[w].Asleep?
    ensures CountWoken(ws) == 0
  {
    if ws != [] {
      AllAsleepNoneWoken(ws[1..]);
    }
  }

  // ----- Which task a worker runs -----

  /** A worker that starts a task runs the last one on the stack, which leaves the stack. */
  lemma PopIsLast(p: Pool, q: Pool, w: nat)
    requires LockStep(p, q, w) && q.workers[w].Busy?
    ensures p.tasks == q.tasks + [q.workers[w].task]
  {
  }

  /** Last in, first out: a task that was accepted is what the next pop takes, and the stack
      is back as it was. */
  lemma PushThenPop(p: Pool, q: Pool, r: Pool, a: nat, w: nat)
    requires AddStep(p, q, a) && q.adders[a].Accepted?
    requires LockStep(q, r, w) && r.workers[w].Busy?
    ensures r.workers[w] == Busy(p.adders[a].task) && r.tasks == p.tasks
  {
    PopIsLast(q, r, w);
  }

  // ----- After shutdown -----

  /** How many more steps a worker can take before it exits once `running` is 0. */
  function Rank(w: Worker): nat {
    match w
    case Exited => 0
    case AtTop => 1
    case WantsLock => 1
    case Woken => 1
    case Busy(_) => 2
    case Asleep => 2
  }

  function TotalRank(ws: seq<Worker>): nat {
    if ws == [] then 0 else Rank(ws[0]) + TotalRank(ws[1..])
  }

  lemma {:induction false} RankUpdate(ws: seq<Worker>, w: nat, x: Worker)
    requires w < |ws|
    ensures TotalRank(ws[w := x]) == TotalRank(ws) - Rank(ws[w]) + Rank(x)
  {
    if w == 0 {
      assert ws[w := x][1..] == ws[1..];
    } else {
      assert ws[w := x][1..] == ws[1..][w - 1 := x];
      RankUpdate(ws[1..], w - 1, x);
    }
  }

  /** Once `running` is 0 every worker step brings the pool closer to all workers having
      exited, and no other step takes it back. With SomeWorkerMoves: the joins of
      threadPoolDestroy wait for at most two steps of each worker. */
  lemma ShutdownDrains(p: Pool, q: Pool, s: Step)
    requires Inv(p) && !p.running && Next(p, q, s)
    ensures !q.running
    ensures s.Check? || s.Lock? || s.Finish? ==> TotalRank(q.workers) < TotalRank(p.workers)
    ensures !(s.Check? || s.Lock? || s.Finish?) ==> q.workers == p.workers
    ensures TotalRank(p.workers) == 0 <==> forall w :: 0 <= w < |p.workers| ==> p.workers[w].Exited?
  {
    SomeAsleep(p.workers);
    RankZero(p.workers);
    match s
    case Check(w) => RankUpdate(p.workers, w, Exited);
    case Lock(w) => RankUpdate(p.workers, w, Exited);
    case Finish(w) => RankUpdate(p.workers, w, AtTop);
    case AddLock(a) => AddWakesNobody(p, q, a);
    case Shutdown => assert q.workers == p.workers;
    case _ =>
  }

  lemma AddWakesNobody(p: Pool, q: Pool, a: nat)
    requires AddStep(p, q, a) && forall w :: 0 <= w < |p.workers| ==> !p.workers[w].Asleep?
    ensures q.workers == p.workers
  {
  }

  lemma {:induction false} RankZero(ws: seq<Worker>)
    ensures TotalRank(ws) == 0 <==> forall w :: 0 <= w < |ws| ==> ws[w].Exited?
  {
    if ws != [] {
      RankZero(ws[1..]);
      assert forall w :: 0 <= w < |ws[1..]| ==> ws[1..][w] == ws[w + 1];
    }
  }

  /** Until every worker has exited, some worker can move. */
  lemma SomeWorkerMoves(p: Pool) returns (s: Step, q: Pool)
    requires Inv(p) && !p.running && TotalRank(p.workers) > 0
    ensures (s.Check? || s.Lock? || s.Finish?) && Next(p, q, s)
  {
    SomeAsleep(p.workers);
    RankZero(p.workers);
    var w: nat :| w < |p.workers| && !p.workers[w].Exited?;
    if p.workers[w].Busy? {
      s := Finish(w);
      q := p.(workers := p.workers[w := AtTop], ran := p.ran + multiset{p.workers[w].task});
    } else {
      s, q := if p.workers[w].AtTop? then Check(w) else Lock(w), p.(workers := p.workers[w := Exited]);
    }
  }

  // ----- Calls of threadPoolAdd that are waiting at shutdown -----

  /** Some continuation from p lets call a return 0. */
  ghost predicate CanReturn(p: Pool, a: nat) {
    exists ps, ss :: Path(ps, ss) && ps[0] == p && Returns(ps[|ss|], a)
  }

  ghost predicate Returns(p: Pool, a: nat) {
    a < |p.adders| && p.adders[a].Accepted?
  }

  /** A state in which call a waits for a place that nobody will make. */
  ghost predicate Stuck(p: Pool, a: nat) {
    && !p.running && |p.tasks| == p.capacity
    && a < |p.adders| && (p.adders[a].Blocked? || p.adders[a].Released?)
  }

  lemma StaysStuck(p: Pool, q: Pool, s: Step, a: nat)
    requires Stuck(p, a) && Next(p, q, s)
    ensures Stuck(q, a) && q.adders[a].task == p.adders[a].task && q.tasks == p.tasks
  {
  }

  /** When the stack is full at shutdown, a waiting call is still waiting in every later
      state, however often it wakes: no worker pops a task any more. */
  lemma {:induction false} StuckForEver(ps: seq<Pool>, ss: seq<Step>, i: nat, a: nat)
    requires Path(ps, ss) && Stuck(ps[0], a) && i < |ps|
    ensures Stuck(ps[i], a)
    decreases i
  {
    if i > 0 {
      StuckForEver(ps, ss, i - 1, a);
      assert StepAt(ps, ss, i - 1);
      StaysStuck(ps[i - 1], ps[i], ss[i - 1], a);
    }
  }

  /** When there is room, the call returns once it is awake; one spurious wakeup is enough. */
  lemma WakeupReturns(p: Pool, a: nat)
    requires a < |p.adders| && p.adders[a].Blocked? && !p.running && |p.tasks| < p.capacity
    requires forall w :: 0 <= w < |p.workers| ==> !p.workers[w].Asleep?
    ensures CanReturn(p, a)
  {
    var task := p.adders[a].task;
    var p1 := p.(adders := p.adders[a := Released(task)]);
    var p2 := p1.(tasks := p.tasks + [task], adders := p1.adders[a := Accepted(task)]);
    var ps, ss := [p, p1, p2], [WakeAdder(a), AddLock(a)];
    assert StepAt(ps, ss, 0) && StepAt(ps, ss, 1);
    assert Path(ps, ss) && Returns(ps[|ss|], a);
  }

  lemma AwakeReturns(p: Pool, a: nat)
    requires a < |p.adders| && p.adders[a].Released? && !p.running && |p.tasks| < p.capacity
    requires forall w :: 0 <= w < |p.workers| ==> !p.workers[w].Asleep?
    ensures CanReturn(p, a)
  {
    var task := p.adders[a].task;
    var q := p.(tasks := p.tasks + [task], adders := p.adders[a := Accepted(task)]);
    var ps, ss := [p, q], [AddLock(a)];
    assert StepAt(ps, ss, 0);
    assert Path(ps, ss) && Returns(ps[|ss|], a);
  }

  /** A call of threadPoolAdd that is still waiting when the pool has shut down can return if
      and only if the stack has room; the broadcast is for not_empty only. */
  lemma BlockedAdderReturnsIff(ps: seq<Pool>, ss: seq<Step>, i: nat, a: nat)
    requires Behaviour(ps, ss) && i < |ps|
    requires !ps[i].running && a < |ps[i].adders| && (ps[i].adders[a].Blocked? || ps[i].adders[a].Released?)
    ensures CanReturn(ps[i], a) <==> |ps[i].tasks| < ps[i].capacity
  {
    var p := ps[i];
    PoolSafety(ps, ss, i);
    if |p.tasks| < p.capacity {
      if p.adders[a].Blocked? {
        WakeupReturns(p, a);
      } else {
        AwakeReturns(p, a);
      }
    } else if CanReturn(p, a) {
      var qs, ts :| Path(qs, ts) && qs[0] == p && Returns(qs[|ts|], a);
      StuckForEver(qs, ts, |ts|, a);
      assert false;
    }
  }

  /** It happens: with one worker, two tasks pending and a third call waiting, shutdown
      leaves that call waiting for ever. */
  lemma StrandingHappens() returns (ps: seq<Pool>, ss: seq<Step>)
    ensures Behaviour(ps, ss) && |ps| == 5
    ensures !ps[4].running && |ps[4].adders| == 3 && ps[4].adders[2].Blocked?
    ensures !CanReturn(ps[4], 2)
  {
    var p0 := Pool(2, [], true, [AtTop], [Entering(0), Entering(1), Entering(2)], multiset{}, multiset{});
    var p1 := p0.(tasks := [0], adders := [Accepted(0), Entering(1), Entering(2)]);
    var p2 := p1.(tasks := [0, 1], adders := [Accepted(0), Accepted(1), Entering(2)]);
    var p3 := p2.(adders := [Accepted(0), Accepted(1), Blocked(2)]);
    var p4 := p3.(running := false);
    ps, ss := [p0, p1, p2, p3, p4], [AddLock(0), AddLock(1), AddLock(2), Shutdown];
    assert StepAt(ps, ss, 0) && StepAt(ps, ss, 1) && StepAt(ps, ss, 2);
    assert StepAt(ps, ss, 3);
    BlockedAdderReturnsIff(ps, ss, 4, 2);
  }

  /** Even with room, nothing but a spurious wakeup releases the call. */
  lemma {:induction false} BlockedAdderIsStranded(ps: seq<Pool>, ss: seq<Step>, i: nat, j: nat, a: nat)
    requires Behaviour(ps, ss) && i <= j < |ps|
    requires !ps[i].running && a < |ps[i].adders| && ps[i].adders[a].Blocked?
    requires forall k :: i <= k < j ==> ss[k] != WakeAdder(a)
    ensures !ps[j].running && a < |ps[j].adders| && ps[j].adders[a] == ps[i].adders[a]
    decreases j - i
  {
    if i < j {
      BlockedAdderIsStranded(ps, ss, i, j - 1, a);
      assert StepAt(ps, ss, j - 1);
      StillBlocked(ps[j - 1], ps[j], ss[j - 1], a);
    }
  }

  lemma StillBlocked(p: Pool, q: Pool, s: Step, a: nat)
    requires !p.running && a < |p.adders| && p.adders[a].Blocked? && Next(p, q, s) && s != WakeAdder(a)
    ensures !q.running && a < |q.adders| && q.adders[a] == p.adders[a]
  {
  }

  /** A call that reaches the lock only after shutdown is never accepted, and leaves the stack
      alone. */
  lemma {:induction false} LateCallIsRefused(ps: seq<Pool>, ss: seq<Step>, i: nat, j: nat, a: nat)
    requires Behaviour(ps, ss) && i <= j < |ps|
    requires !ps[i].running && a < |ps[i].adders| && ps[i].adders[a].Entering?
    ensures !ps[j].running && a < |ps[j].adders|
    ensures ps[j].adders[a] == ps[i].adders[a] || ps[j].adders[a] == Refused(ps[i].adders[a].task)
    ensures i < j && ss[j - 1] == AddLock(a) ==> ps[j].tasks == ps[j - 1].tasks && ps[j].adders[a].Refused?
    decreases j - i
  {
    if i < j {
      LateCallIsRefused(ps, ss, i, j - 1, a);
      assert StepAt(ps, ss, j - 1);
      LateStep(ps[j - 1], ps[j], ss[j - 1], a);
    }
  }

  lemma LateStep(p: Pool, q: Pool, s: Step, a: nat)
    requires !p.running && a < |p.adders| && (p.adders[a].Entering? || p.adders[a].Refused?) && Next(p, q, s)
    ensures !q.running && a < |q.adders|
    ensures q.adders[a] == p.adders[a] || q.adders[a] == Refused(p.adders[a].task)
    ensures s == AddLock(a) ==> q.tasks == p.tasks && q.adders[a].Refused?
  {
  }
}
