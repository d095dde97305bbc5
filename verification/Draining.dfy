/** How a shutdown ends: the steps it takes are counted beforehand, whatever the schedule. */
module Draining {

  import opened Common
  import opened Folds
  import opened Pool

  /** What of a valid pool's state shutting down depends on. */
  ghost predicate Ready(p: PoolState) {
    && p.workers != map[]
    && (p.closed <==> p.phase == Closing || p.phase == Stopped)
    && ((exists w :: w in p.workers && p.workers[w].Exited?) ==> p.closed && p.queue == [])
    && (p.phase == Stopped ==> AllExited(p.workers))
  }

  lemma ValidIsReady(pool: ThreadPool)
    requires pool.Valid()
    ensures Ready(pool.State())
  {
  }

  lemma StaysReady(p: PoolState, step: Step)
    requires Ready(p)
    ensures Ready(Next(p, step)) && (p.closed ==> Next(p, step).closed)
  {
    match step
    case Submit(_) =>
    case Shutdown =>
    case Work(w, throws) =>
      if w in p.workers {
        WorkerStaysReady(p, w, throws);
      }
  }

  lemma WorkerStaysReady(p: PoolState, w: nat, throws: bool)
    requires Ready(p) && w in p.workers
    ensures Ready(Worked(p, w, throws))
  {
    var q := Worked(p, w, throws);
    assert w in q.workers;
    if v :| v in q.workers && q.workers[v].Exited? {
      assert v != w ==> v in p.workers && p.workers[v].Exited?;
    }
  }

  // ---- the steps left ------------------------------------------------------

  /** The steps a worker has left apart from jobs still queued. */
  function Left(w: Worker): nat {
    match w
    case Exited => 0
    case Waiting => 1
    case Ended(_, _) => 2
    case Working(_) => 3
    case Took(_) => 4
  }

  function LeftOf(workers: map<nat, Worker>): nat -> nat {
    (w: nat) => if w in workers then Left(workers[w]) else 0
  }

  ghost function AllLeft(workers: map<nat, Worker>): nat {
    SumOf<nat>(multiset(workers.Keys), LeftOf(workers))
  }

  function Closes(phase: Phase): nat {
    match phase
    case Serving => 3
    case Stopping => 2
    case Closing => 1
    case Stopped => 0
  }

  /** How many steps of workers and of shutdown are left: four for each queued job, what each
      worker still has to do, and the steps of shutdown itself. */
  ghost function Remaining(p: PoolState): nat {
    4 * |p.queue| + AllLeft(p.workers) + Closes(p.phase)
  }

  /** A worker or the shutdown gets on with it. */
  predicate GetsOn(p: PoolState, step: Step) {
    !step.Submit? && Next(p, step) != p
  }

  /** How many steps of a schedule do. */
  function Progress(p: PoolState, schedule: seq<Step>): nat
    decreases |schedule|
  {
    if schedule == [] then 0
    else (if GetsOn(p, schedule[0]) then 1 else 0) + Progress(Next(p, schedule[0]), schedule[1..])
  }

  lemma WorkerMoves(workers: map<nat, Worker>, w: nat, to: Worker)
    requires w in workers
    ensures AllLeft(workers[w := to]) + Left(workers[w]) == AllLeft(workers) + Left(to)
  {
    var moved: map<nat, Worker> := workers[w := to];
    var keys: multiset<nat> := multiset(workers.Keys);
    assert moved.Keys == workers.Keys;
    SumOfRemove<nat>(keys, w, LeftOf(workers));
    SumOfRemove<nat>(keys, w, LeftOf(moved));
    SumOfAgree<nat>(keys - multiset{w}, LeftOf(workers), LeftOf(moved));
  }

  /** Once the queue is closed each step that gets on takes one off what remains, and no other
      step adds to it. */
  lemma OneStep(p: PoolState, step: Step)
    requires Ready(p) && p.closed
    ensures Remaining(p) == Remaining(Next(p, step)) + if GetsOn(p, step) then 1 else 0
  {
    match step
    case Submit(_) =>
    case Shutdown =>
    case Work(w, throws) =>
      if w in p.workers {
        OneWorkerStep(p, w, throws);
      }
  }

  lemma OneWorkerStep(p: PoolState, w: nat, throws: bool)
    requires Ready(p) && p.closed && w in p.workers
    ensures Remaining(p) == Remaining(Worked(p, w, throws)) + if p.workers[w].Exited? then 0 else 1
    ensures Worked(p, w, throws) == p <==> p.workers[w].Exited?
  {
    if !p.workers[w].Exited? {
      var q, to := Worked(p, w, throws), Moved(p, w, throws);
      assert q.workers == p.workers[w := to] && q.workers[w] == to;
      WorkerMoves(p.workers, w, to);
    }
  }

  /** What becomes of a worker that has not left when the queue is closed. */
  function Moved(p: PoolState, w: nat, throws: bool): (to: Worker)
    requires w in p.workers && !p.workers[w].Exited? && p.closed
    ensures to != p.workers[w]
    ensures Left(p.workers[w]) + (if p.workers[w].Waiting? && p.queue != [] then 4 else 0) == Left(to) + 1
  {
    match p.workers[w]
    case Waiting => if p.queue != [] then Took(p.queue[0]) else Exited
    case Took(job) => Working(job)
    case Working(job) => Ended(job, throws)
    case Ended(_, _) => Waiting
  }

  lemma {:induction false} StepsCounted(p: PoolState, schedule: seq<Step>)
    requires Ready(p) && p.closed
    ensures Remaining(p) == Remaining(After(p, schedule)) + Progress(p, schedule)
    ensures Ready(After(p, schedule)) && After(p, schedule).closed
    decreases |schedule|
  {
    if schedule != [] {
      OneStep(p, schedule[0]);
      StaysReady(p, schedule[0]);
      StepsCounted(Next(p, schedule[0]), schedule[1..]);
    }
  }

  /** Nothing remains exactly when shutdown has returned. */
  lemma NothingRemains(p: PoolState)
    requires Ready(p)
    ensures p.phase == Stopped <==> Remaining(p) == 0
  {
    if p.phase == Stopped {
      var w :| w in p.workers;
      assert p.workers[w].Exited?;
      SumOfZero<nat>(multiset(p.workers.Keys), LeftOf(p.workers));
    }
  }

  /** Until then some thread can get on. */
  lemma NeverStuck(p: PoolState) returns (step: Step)
    requires Ready(p) && p.phase != Stopped
    ensures GetsOn(p, step) && Closes(Next(p, step).phase) <= Closes(p.phase)
  {
    if p.phase == Closing && !AllExited(p.workers) {
      var w :| w in p.workers && !p.workers[w].Exited?;
      step := Work(w, false);
      OneWorkerStep(p, w, false);
    } else {
      step := Shutdown;
    }
  }

  /** Once the queue is closed, a schedule ends the shutdown exactly when as many of its steps
      get on as remained: no schedule takes more, and none can end it sooner. */
  lemma StopsExactly(p: PoolState, schedule: seq<Step>)
    requires Ready(p) && p.closed
    ensures Progress(p, schedule) <= Remaining(p)
    ensures After(p, schedule).phase == Stopped <==> Progress(p, schedule) == Remaining(p)
  {
    StepsCounted(p, schedule);
    NothingRemains(After(p, schedule));
  }

  /** From wherever a pool is, some schedule of workers and shutdown alone ends it. */
  lemma {:induction false} CanStop(p: PoolState) returns (schedule: seq<Step>)
    requires Ready(p)
    ensures After(p, schedule).phase == Stopped
    decreases Closes(p.phase), Remaining(p)
  {
    if p.phase == Stopped {
      schedule := [];
    } else {
      var step := Shutdown;
      if p.closed {
        step := NeverStuck(p);
        OneStep(p, step);
      }
      StaysReady(p, step);
      var rest := CanStop(Next(p, step));
      schedule := [step] + rest;
    }
  }
}
