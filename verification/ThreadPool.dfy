/** The pool as a monitor: N workers, a queue, stop with draining, and the notifications between them. */
module ThreadPool {

  // A task is known by a number; what it does takes place between Take and Finish, outside the lock.
  type Task = nat

  datatype Worker = Ready | Asleep | Running(task: Task) | Exited

  // `notices` counts the enqueuers that have unlocked and not yet called notify_one.
  // `log`, `started` and `finished` record the history.
  datatype State = State(workers: seq<Worker>, queue: seq<Task>, stop: bool, notices: nat,
                         log: seq<Task>, started: seq<Task>, finished: seq<Task>)

  datatype Step =
    | Enqueue(task: Task)
    | Notify(w: nat)
    | NotifyNobody
    | Wake(w: nat)
    | Sleep(w: nat)
    | Take(w: nat)
    | Finish(w: nat)
    | Exit(w: nat)
    | Stop

  function Initial(n: nat): State {
    State(seq(n, _ => Ready), [], false, 0, [], [], [])
  }

  predicate Is(s: State, w: nat, worker: Worker) {
    w < |s.workers| && s.workers[w] == worker
  }

  /** One step per section under the mutex. A sleeping worker may wake for no reason; the wait condition is checked by a ready one. */
  predicate Enabled(s: State, step: Step) {
    match step
    case Enqueue(_) => true
    case Notify(w) => s.notices > 0 && Is(s, w, Asleep)
    case NotifyNobody => s.notices > 0 && Asleep !in s.workers
    case Wake(w) => Is(s, w, Asleep)
    case Sleep(w) => Is(s, w, Ready) && !s.stop && s.queue == []
    case Take(w) => Is(s, w, Ready) && s.queue != []
    case Finish(w) => w < |s.workers| && s.workers[w].Running?
    case Exit(w) => Is(s, w, Ready) && s.stop && s.queue == []
    case Stop => true
  }

  function Awake(w: Worker): Worker {
    if w.Asleep? then Ready else w
  }

  function AwakeAll(workers: seq<Worker>): (r: seq<Worker>)
    ensures |r| == |workers| && forall i | 0 <= i < |r| :: r[i] == Awake(workers[i])
  {
    if workers == [] then [] else [Awake(workers[0])] + AwakeAll(workers[1..])
  }

  function Next(s: State, step: Step): State
    requires Enabled(s, step)
  {
    match step
    case Enqueue(task) => s.(queue := s.queue + [task], notices := s.notices + 1, log := s.log + [task])
    case Notify(w) => s.(workers := s.workers[w := Ready], notices := s.notices - 1)
    case NotifyNobody => s.(notices := s.notices - 1)
    case Wake(w) => s.(workers := s.workers[w := Ready])
    case Sleep(w) => s.(workers := s.workers[w := Asleep])
    case Take(w) =>
      s.(workers := s.workers[w := Running(s.queue[0])], queue := s.queue[1..], started := s.started + [s.queue[0]])
    case Finish(w) => s.(workers := s.workers[w := Ready], finished := s.finished + [s.workers[w].task])
    case Exit(w) => s.(workers := s.workers[w := Exited])
    case Stop => s.(stop := true, workers := AwakeAll(s.workers))
  }

  predicate AllEnabled(s: State, steps: seq<Step>)
    decreases |steps|
  {
    steps == [] || (Enabled(s, steps[0]) && AllEnabled(Next(s, steps[0]), steps[1..]))
  }

  function Run(s: State, steps: seq<Step>): State
    requires AllEnabled(s, steps)
    decreases |steps|
  {
    if steps == [] then s else Run(Next(s, steps[0]), steps[1..])
  }

  // ----- counting workers -----

  function CountReady(workers: seq<Worker>): nat {
    if workers == [] then 0 else Idles(workers[0]) + CountReady(workers[1..])
  }

  function CountRunning(workers: seq<Worker>, task: Task): nat {
    if workers == [] then 0 else Runs(workers[0], task) + CountRunning(workers[1..], task)
  }

  function Runs(w: Worker, task: Task): nat {
    if w == Running(task) then 1 else 0
  }

  function Idles(w: Worker): nat {
    if w.Ready? then 1 else 0
  }

  lemma {:induction false} UpdateReady(workers: seq<Worker>, w: nat, worker: Worker)
    requires w < |workers|
    ensures CountReady(workers[w := worker]) + Idles(workers[w]) == CountReady(workers) + Idles(worker)
  {
    if w == 0 {
      assert workers[w := worker][1..] == workers[1..];
    } else {
      assert workers[w := worker][1..] == workers[1..][w - 1 := worker];
      UpdateReady(workers[1..], w - 1, worker);
    }
  }

  lemma {:induction false} UpdateRunning(workers: seq<Worker>, w: nat, worker: Worker, task: Task)
    requires w < |workers|
    ensures CountRunning(workers[w := worker], task) + Runs(workers[w], task)
            == CountRunning(workers, task) + Runs(worker, task)
  {
    if w == 0 {
      assert workers[w := worker][1..] == workers[1..];
    } else {
      assert workers[w := worker][1..] == workers[1..][w - 1 := worker];
      UpdateRunning(workers[1..], w - 1, worker, task);
    }
  }

  lemma {:induction false} AwakeReady(workers: seq<Worker>)
    ensures CountReady(AwakeAll(workers)) >= CountReady(workers)
  {
    if workers != [] {
      AwakeReady(workers[1..]);
      assert AwakeAll(workers)[1..] == AwakeAll(workers[1..]);
    }
  }

  lemma {:induction false} AwakeRunning(workers: seq<Worker>, task: Task)
    ensures CountRunning(AwakeAll(workers), task) == CountRunning(workers, task)
  {
    if workers != [] {
      AwakeRunning(workers[1..], task);
      assert AwakeAll(workers)[1..] == AwakeAll(workers[1..]);
    }
  }

  // ----- what every step keeps -----

  /** Each started task is finished or running. */
  ghost predicate Accounted(s: State, task: Task) {
    multiset(s.started)[task] == multiset(s.finished)[task] + CountRunning(s.workers, task)
  }

  /** Tasks start in the order of their enqueueing, none twice, and none is lost. */
  ghost predicate Conserved(s: State) {
    && s.log == s.started + s.queue
    && forall task :: Accounted(s, task)
  }

  /** While a worker sleeps, every queued task has a notification on its way or a worker awake for it. */
  ghost predicate NoLostWakeup(s: State) {
    Asleep in s.workers ==> |s.queue| <= s.notices + CountReady(s.workers)
  }

  /** Nobody sleeps once stopped, nobody leaves before, and a worker that leaves leaves nothing that was enqueued before. */
  ghost predicate Orderly(s: State) {
    && (s.stop ==> Asleep !in s.workers)
    && (!s.stop ==> Exited !in s.workers)
  }

  ghost predicate Invariant(s: State) {
    Conserved(s) && NoLostWakeup(s) && Orderly(s)
  }

  lemma TakeAccounted(s: State, w: nat, task: Task)
    requires Enabled(s, Take(w)) && Accounted(s, task)
    ensures Accounted(Next(s, Take(w)), task)
  {
    UpdateRunning(s.workers, w, Running(s.queue[0]), task);
  }

  lemma FinishAccounted(s: State, w: nat, task: Task)
    requires Enabled(s, Finish(w)) && Accounted(s, task)
    ensures Accounted(Next(s, Finish(w)), task)
  {
    UpdateRunning(s.workers, w, Ready, task);
  }

  lemma StepAccounted(s: State, step: Step, task: Task)
    requires Enabled(s, step) && Accounted(s, task)
    ensures Accounted(Next(s, step), task)
  {
    match step
    case Take(w) => TakeAccounted(s, w, task);
    case Finish(w) => FinishAccounted(s, w, task);
    case Enqueue(_) =>
    case NotifyNobody =>
    case Stop => AwakeRunning(s.workers, task);
    case _ => UpdateRunning(s.workers, step.w, Next(s, step).workers[step.w], task);
  }

  lemma StepConserved(s: State, step: Step)
    requires Enabled(s, step) && Conserved(s)
    ensures Conserved(Next(s, step))
  {
    assert step.Take? ==> s.queue == [s.queue[0]] + s.queue[1..];
    forall task ensures Accounted(Next(s, step), task) {
      assert Accounted(s, task);
      StepAccounted(s, step, task);
    }
  }

  lemma StepWakeup(s: State, step: Step)
    requires Enabled(s, step) && NoLostWakeup(s)
    ensures NoLostWakeup(Next(s, step))
  {
    match step
    case Enqueue(_) =>
    case NotifyNobody =>
    case Stop => AwakeReady(s.workers);
    case _ => UpdateReady(s.workers, step.w, Next(s, step).workers[step.w]);
  }

  lemma StepOrderly(s: State, step: Step)
    requires Enabled(s, step) && Orderly(s)
    ensures Orderly(Next(s, step))
  {
  }

  lemma {:induction false} RunInvariant(s: State, steps: seq<Step>)
    requires AllEnabled(s, steps) && Invariant(s)
    ensures Invariant(Run(s, steps))
    decreases |steps|
  {
    if steps != [] {
      StepConserved(s, steps[0]);
      StepWakeup(s, steps[0]);
      StepOrderly(s, steps[0]);
      RunInvariant(Next(s, steps[0]), steps[1..]);
    }
  }

  lemma {:induction false} NothingRuns(workers: seq<Worker>, task: Task)
    requires forall w | w in workers :: !w.Running?
    ensures CountRunning(workers, task) == 0
  {
    if workers != [] {
      NothingRuns(workers[1..], task);
    }
  }

  lemma InitialInvariant(n: nat)
    ensures Invariant(Initial(n))
  {
    forall task ensures CountRunning(Initial(n).workers, task) == 0 {
      NothingRuns(Initial(n).workers, task);
    }
  }

  /** Over every interleaving, what has started and what is queued is what was enqueued, in that order. */
  lemma {:induction false} PoolConserves(n: nat, steps: seq<Step>)
    requires AllEnabled(Initial(n), steps)
    ensures var r := Run(Initial(n), steps);
      && r.log == r.started + r.queue
      && (forall task :: Accounted(r, task))
      && (Asleep in r.workers ==> |r.queue| <= r.notices + CountReady(r.workers))
  {
    InitialInvariant(n);
    RunInvariant(Initial(n), steps);
  }

  // ----- stopping -----

  ghost predicate AllExited(s: State) {
    forall w | w in s.workers :: w.Exited?
  }

  /** When the last worker leaves, every task enqueued so far has finished, exactly once. */
  lemma {:induction false} LastExitFinishesAll(n: nat, steps: seq<Step>, w: nat)
    requires AllEnabled(Initial(n), steps) && Enabled(Run(Initial(n), steps), Exit(w))
    requires AllExited(Next(Run(Initial(n), steps), Exit(w)))
    ensures var r := Next(Run(Initial(n), steps), Exit(w)); multiset(r.finished) == multiset(r.log)
  {
    var s := Run(Initial(n), steps);
    InitialInvariant(n);
    RunInvariant(Initial(n), steps);
    StepConserved(s, Exit(w));
    AllFinished(Next(s, Exit(w)));
  }

  /** After that nothing runs any more: what is enqueued later stays in the queue for ever. */
  lemma {:induction false} LateTasksNeverRun(s: State, steps: seq<Step>)
    requires AllEnabled(s, steps) && AllExited(s) && s.log == s.started + s.queue
    ensures var r := Run(s, steps);
      && AllExited(r) && r.started == s.started && r.finished == s.finished
      && r.log == r.started + r.queue && |r.queue| >= |s.queue|
    decreases |steps|
  {
    if steps != [] {
      var t := Next(s, steps[0]);
      assert forall w | 0 <= w < |s.workers| :: s.workers[w] in s.workers;
      assert steps[0].Enqueue? || steps[0].NotifyNobody? || steps[0].Stop?;
      LateTasksNeverRun(t, steps[1..]);
    }
  }

  // ----- progress -----

  predicate IsWorkerStep(step: Step) {
    step.Take? || step.Finish? || step.Exit?
  }

  /** A queued task never waits for ever with nobody to wake, and a stopping pool always has a worker that can go on. */
  lemma NotStuck(s: State) returns (step: Step)
    requires Invariant(s) && !AllExited(s) && (s.queue != [] || s.stop)
    ensures Enabled(s, step) && (IsWorkerStep(step) || (step.Notify? && !s.stop))
  {
    if w :| 0 <= w < |s.workers| && s.workers[w].Running? {
      step := Finish(w);
    } else if w :| 0 <= w < |s.workers| && s.workers[w].Ready? {
      step := if s.queue != [] then Take(w) else Exit(w);
    } else {
      var busy :| busy in s.workers && !busy.Exited?;
      var w :| 0 <= w < |s.workers| && s.workers[w] == busy;
      NobodyReady(s.workers);
      step := Notify(w);
    }
  }

  lemma {:induction false} NobodyReady(workers: seq<Worker>)
    requires forall w | 0 <= w < |workers| :: !workers[w].Ready?
    ensures CountReady(workers) == 0
  {
    if workers != [] {
      NobodyReady(workers[1..]);
    }
  }

  function Weight(w: Worker): nat {
    match w
    case Exited => 0
    case Running(_) => 2
    case _ => 1
  }

  function Weights(workers: seq<Worker>): nat {
    if workers == [] then 0 else Weight(workers[0]) + Weights(workers[1..])
  }

  /** The number of worker steps that a stopping pool has left. */
  function Work(s: State): nat {
    2 * |s.queue| + Weights(s.workers)
  }

  lemma {:induction false} UpdateWeight(workers: seq<Worker>, w: nat, worker: Worker)
    requires w < |workers|
    ensures Weights(workers[w := worker]) + Weight(workers[w]) == Weights(workers) + Weight(worker)
  {
    if w == 0 {
      assert workers[w := worker][1..] == workers[1..];
    } else {
      assert workers[w := worker][1..] == workers[1..][w - 1 := worker];
      UpdateWeight(workers[1..], w - 1, worker);
    }
  }

  /** Every worker step uses up one unit of the work. */
  lemma {:induction false} WorkIsBound(s: State, steps: seq<Step>)
    requires AllEnabled(s, steps) && (forall step | step in steps :: IsWorkerStep(step))
    ensures |steps| + Work(Run(s, steps)) == Work(s)
    decreases |steps|
  {
    if steps != [] {
      var step := steps[0];
      assert IsWorkerStep(step);
      UpdateWeight(s.workers, step.w, Next(s, step).workers[step.w]);
      WorkIsBound(Next(s, step), steps[1..]);
    }
  }

  /** A stopping pool whose last worker leaves only when the queue is empty. */
  ghost predicate Stopping(s: State) {
    Invariant(s) && s.stop && (AllExited(s) ==> s.queue == [])
  }

  lemma {:induction false} WorkersStay(s: State, steps: seq<Step>)
    requires AllEnabled(s, steps)
    ensures |Run(s, steps).workers| == |s.workers|
    decreases |steps|
  {
    if steps != [] {
      WorkersStay(Next(s, steps[0]), steps[1..]);
    }
  }

  /** The first stop() of a pool with workers, whatever has happened before it, begins such a state. */
  lemma {:induction false} StopBegins(n: nat, steps: seq<Step>)
    requires n > 0 && AllEnabled(Initial(n), steps) && !Run(Initial(n), steps).stop
    ensures Stopping(Next(Run(Initial(n), steps), Stop))
  {
    var s := Run(Initial(n), steps);
    InitialInvariant(n);
    RunInvariant(Initial(n), steps);
    WorkersStay(Initial(n), steps);
    StepConserved(s, Stop);
    StepWakeup(s, Stop);
    StepOrderly(s, Stop);
    assert s.workers[0] in s.workers;
    assert Next(s, Stop).workers[0] in Next(s, Stop).workers;
  }

  lemma {:induction false} NoWeight(workers: seq<Worker>)
    ensures Weights(workers) == 0 <==> forall w | w in workers :: w.Exited?
  {
    if workers != [] {
      NoWeight(workers[1..]);
      assert forall w | w in workers :: w == workers[0] || w in workers[1..];
    }
  }

  lemma StoppingStep(s: State, step: Step)
    requires Stopping(s) && Enabled(s, step) && IsWorkerStep(step)
    ensures Stopping(Next(s, step)) && Work(Next(s, step)) + 1 == Work(s)
  {
    StepConserved(s, step);
    StepWakeup(s, step);
    StepOrderly(s, step);
    UpdateWeight(s.workers, step.w, Next(s, step).workers[step.w]);
    assert Next(s, step).workers[step.w] in Next(s, step).workers;
  }

  lemma {:induction false} StoppingRun(s: State, steps: seq<Step>)
    requires Stopping(s) && AllEnabled(s, steps) && (forall step | step in steps :: IsWorkerStep(step))
    ensures Stopping(Run(s, steps))
    decreases |steps|
  {
    if steps != [] {
      assert IsWorkerStep(steps[0]);
      StoppingStep(s, steps[0]);
      StoppingRun(Next(s, steps[0]), steps[1..]);
    }
  }

  /** From a stopping state worker steps are possible as long as there is work, and use it up. */
  lemma {:induction false} Drains(s: State) returns (steps: seq<Step>)
    requires Stopping(s)
    ensures AllEnabled(s, steps) && (forall step | step in steps :: IsWorkerStep(step))
    ensures Work(Run(s, steps)) == 0 && AllExited(Run(s, steps)) && Run(s, steps).queue == []
    decreases Work(s)
  {
    steps := [];
    NoWeight(s.workers);
    if !AllExited(s) {
      var step := NotStuck(s);
      StoppingStep(s, step);
      var rest := Drains(Next(s, step));
      steps := [step] + rest;
      assert steps[1..] == rest;
    }
  }

  lemma {:induction false} RunAppend(s: State, a: seq<Step>, b: seq<Step>)
    requires AllEnabled(s, a) && AllEnabled(Run(s, a), b)
    ensures AllEnabled(s, a + b) && Run(s, a + b) == Run(Run(s, a), b)
    decreases |a|
  {
    if a == [] {
      assert a + b == b;
    } else {
      assert (a + b)[1..] == a[1..] + b;
      RunAppend(Next(s, a[0]), a[1..], b);
    }
  }

  /**
   * Once stopping, stop() returns: whatever the workers have done since, they can go on, and after exactly Work(s)
   * worker steps in all, whatever their order, every worker has left, the queue is empty and every task has finished.
   */
  lemma {:induction false} StopReturns(s: State, steps: seq<Step>) returns (rest: seq<Step>)
    requires Stopping(s) && AllEnabled(s, steps) && (forall step | step in steps :: IsWorkerStep(step))
    ensures AllEnabled(s, steps + rest) && (forall step | step in rest :: IsWorkerStep(step))
    ensures |steps + rest| == Work(s)
    ensures var r := Run(s, steps + rest); AllExited(r) && r.queue == [] && multiset(r.finished) == multiset(s.log)
  {
    StoppingRun(s, steps);
    rest := Drains(Run(s, steps));
    RunAppend(s, steps, rest);
    WorkIsBound(s, steps + rest);
    StoppingRun(s, steps + rest);
    LogKept(s, steps + rest);
    AllFinished(Run(s, steps + rest));
  }

  lemma {:induction false} LogKept(s: State, steps: seq<Step>)
    requires AllEnabled(s, steps) && (forall step | step in steps :: IsWorkerStep(step))
    ensures Run(s, steps).log == s.log
    decreases |steps|
  {
    if steps != [] {
      assert IsWorkerStep(steps[0]);
      LogKept(Next(s, steps[0]), steps[1..]);
    }
  }

  lemma AllFinished(s: State)
    requires Conserved(s) && AllExited(s) && s.queue == []
    ensures multiset(s.finished) == multiset(s.log)
  {
    assert s.log == s.started;
    forall task ensures multiset(s.finished)[task] == multiset(s.log)[task] {
      assert Accounted(s, task);
      NothingRuns(s.workers, task);
    }
  }

  // ----- the code -----

  lemma FrontMoves(done: seq<Task>, queue: seq<Task>)
    ensures queue != [] ==> done + queue == done + [queue[0]] + queue[1..]
  {
    if queue != [] {
      assert queue == [queue[0]] + queue[1..];
    }
  }

  /** The pool as it is updated in place; each method but the last is one section under the mutex. */
  class Pool {
    var workers: seq<Worker>
    var tasks: seq<Task>
    var stopping: bool
    var notices: nat
    ghost var log: seq<Task>
    ghost var started: seq<Task>
    ghost var finished: seq<Task>

    ghost function Contents(): State
      reads this
    {
      State(workers, tasks, stopping, notices, log, started, finished)
    }

    constructor (threads: nat)
      ensures Contents() == Initial(threads)
    {
      workers := seq(threads, _ => Ready);
      tasks, stopping, notices := [], false, 0;
      log, started, finished := [], [], [];
    }

    method EnqueueTask(task: Task)
      modifies this
      ensures Contents() == Next(old(Contents()), Enqueue(task))
    {
      tasks := tasks + [task];
      notices := notices + 1;
      log := log + [task];
    }

    method RequestStop()
      modifies this
      ensures Contents() == Next(old(Contents()), Stop)
    {
      stopping := true;
      workers := AwakeAll(workers);
    }

    /** A worker that has the mutex: the wait condition, then leaving or the front of the queue. */
    method TakeOrLeave(w: nat) returns (running: bool)
      requires Is(Contents(), w, Ready)
      modifies this
      ensures var step := if old(tasks) != [] then Take(w) else if stopping then Exit(w) else Sleep(w);
        Enabled(old(Contents()), step) && Contents() == Next(old(Contents()), step)
      ensures running <==> old(tasks) != []
    {
      if !stopping && tasks == [] {
        workers := workers[w := Asleep];
        return false;
      }
      if stopping && tasks == [] {
        workers := workers[w := Exited];
        return false;
      }
      workers := workers[w := Running(tasks[0])];
      started := started + [tasks[0]];
      tasks := tasks[1..];
      running := true;
    }

    method FinishTask(w: nat)
      requires w < |workers| && workers[w].Running?
      modifies this
      ensures Contents() == Next(old(Contents()), Finish(w))
    {
      finished := finished + [workers[w].task];
      workers := workers[w := Ready];
    }

    /** The worker loop when no other thread interferes: it runs the whole queue in order, then leaves or sleeps. */
    method WorkerLoop(w: nat)
      requires Is(Contents(), w, Ready)
      modifies this
      ensures tasks == [] && started == old(started) + old(tasks) && finished == old(finished) + old(tasks)
      ensures workers == old(workers)[w := if stopping then Exited else Asleep]
      ensures stopping == old(stopping) && log == old(log) && notices == old(notices)
    {
      var running := true;
      while running
        invariant stopping == old(stopping) && log == old(log) && notices == old(notices)
        invariant |workers| == |old(workers)|
        invariant running ==> workers == old(workers)
        invariant !running ==> tasks == [] && workers == old(workers)[w := if stopping then Exited else Asleep]
        invariant started + tasks == old(started) + old(tasks)
        invariant finished + tasks == old(finished) + old(tasks)
        decreases running, |tasks|
      {
        FrontMoves(started, tasks);
        FrontMoves(finished, tasks);
        running := TakeOrLeave(w);
        if running {
          FinishTask(w);
        }
      }
    }
  }
}
