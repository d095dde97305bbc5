/** A thread pool over a bounded queue, as interleaved atomic steps of submitters, workers and
    a draining shutdown. Jobs are numbered in the order they are accepted. */
module Pool {

  import opened Common

  datatype Worker = Waiting | Took(job: nat) | Working(job: nat) | Ended(job: nat, threw: bool) | Exited

  datatype Submitter = Resting | Admitted | Counted | TurnedAway

  datatype Phase = Serving | Stopping | Closing | Stopped

  // ---- counting threads ----------------------------------------------------

  function Those<V>(m: map<nat, V>, p: V -> bool): set<nat> {
    set k | k in m && p(m[k])
  }

  lemma ThoseMoved<V>(m: map<nat, V>, k: nat, v: V, p: V -> bool)
    requires k in m
    ensures |Those(m[k := v], p)| == |Those(m, p)| + (if p(v) then 1 else 0) - (if p(m[k]) then 1 else 0)
  {
    var others := Those(m, p) - {k};
    assert Those(m[k := v], p) == if p(v) then others + {k} else others;
    assert Those(m, p) == if p(m[k]) then others + {k} else others;
  }

  function IsWorking(w: Worker): bool { w.Working? }

  function HasEnded(w: Worker): bool { w.Ended? }

  function IsPending(s: Submitter): bool { s.Counted? || s.TurnedAway? }

  /** The job a worker has taken and not finished. */
  function JobOf(w: Worker): Option<nat> {
    if w.Took? || w.Working? then Some(w.job) else None
  }

  // ---- what every step keeps -----------------------------------------------

  /** The queue holds the accepted jobs not taken yet, in order. */
  ghost predicate InOrder(queue: seq<nat>, taken: nat, accepted: nat) {
    taken <= accepted && |queue| == accepted - taken && forall i | 0 <= i < |queue| :: queue[i] == taken + i
  }

  lemma OldestTaken(queue: seq<nat>, taken: nat, accepted: nat)
    requires InOrder(queue, taken, accepted) && queue != []
    ensures queue[0] == taken && InOrder(queue[1..], taken + 1, accepted)
  {
  }

  /** Every job taken is either held by exactly one worker or has run, never both. */
  ghost predicate Accounted(workers: map<nat, Worker>, taken: nat, ran: set<nat>) {
    && (forall job | job in ran :: job < taken)
    && (forall w | w in workers && JobOf(workers[w]).Some? ::
          JobOf(workers[w]).value < taken && JobOf(workers[w]).value !in ran)
    && (forall v, w | v in workers && w in workers && JobOf(workers[v]).Some? && JobOf(workers[v]) == JobOf(workers[w]) :: v == w)
    && (forall job: nat | job < taken :: job in ran || Held(workers, job))
  }

  ghost predicate Held(workers: map<nat, Worker>, job: nat) {
    exists w :: w in workers && JobOf(workers[w]) == Some(job)
  }

  lemma HeldMoved(workers: map<nat, Worker>, w: nat, to: Worker, job: nat)
    requires w in workers && Held(workers, job) && (JobOf(workers[w]) == Some(job) ==> JobOf(to) == Some(job))
    ensures Held(workers[w := to], job)
  {
    var v :| v in workers && JobOf(workers[v]) == Some(job);
    var moved := workers[w := to];
    assert v in moved && JobOf(moved[v]) == Some(job);
  }

  lemma JobTaken(workers: map<nat, Worker>, taken: nat, ran: set<nat>, w: nat)
    requires Accounted(workers, taken, ran) && w in workers && workers[w].Waiting?
    ensures Accounted(workers[w := Took(taken)], taken + 1, ran)
  {
    var moved := workers[w := Took(taken)];
    forall job: nat | job < taken + 1 ensures job in ran || Held(moved, job) {
      if job == taken {
        assert w in moved && JobOf(moved[w]) == Some(job);
      } else if job !in ran {
        HeldMoved(workers, w, Took(taken), job);
      }
    }
  }

  lemma JobMoved(workers: map<nat, Worker>, taken: nat, ran: set<nat>, w: nat, to: Worker)
    requires Accounted(workers, taken, ran) && w in workers
    requires JobOf(to) == JobOf(workers[w])
    ensures Accounted(workers[w := to], taken, ran)
  {
    var moved := workers[w := to];
    forall job: nat | job < taken ensures job in ran || Held(moved, job) {
      if job !in ran {
        HeldMoved(workers, w, to, job);
      }
    }
  }

  lemma JobRan(workers: map<nat, Worker>, taken: nat, ran: set<nat>, w: nat, threw: bool)
    requires Accounted(workers, taken, ran) && w in workers && workers[w].Working?
    ensures workers[w].job !in ran
    ensures Accounted(workers[w := Ended(workers[w].job, threw)], taken, ran + {workers[w].job})
  {
    var j := workers[w].job;
    assert JobOf(workers[w]) == Some(j);
    var moved := workers[w := Ended(j, threw)];
    forall job: nat | job < taken ensures job in ran + {j} || Held(moved, job) {
      if job !in ran + {j} {
        HeldMoved(workers, w, Ended(j, threw), job);
      }
    }
  }

  /** The workers agree with the counters: jobs tallied, jobs in flight; none has left before the
      queue was closed and drained. */
  ghost predicate Crew(workers: map<nat, Worker>, taken: nat, ran: set<nat>, tallied: nat, inFlight: nat, drained: bool) {
    && Accounted(workers, taken, ran)
    && tallied + |Those(workers, HasEnded)| == |ran| && inFlight == |Those(workers, IsWorking)|
    && ((exists w :: w in workers && workers[w].Exited?) ==> drained)
  }

  lemma CrewMoved(
    workers: map<nat, Worker>, taken: nat, ran: set<nat>, tallied: nat, inFlight: nat, drained: bool, w: nat, to: Worker)
    requires Crew(workers, taken, ran, tallied, inFlight, drained) && w in workers && !workers[w].Exited?
    requires JobOf(to) == JobOf(workers[w]) && (to.Exited? ==> drained) && !to.Ended?
    ensures var tallied' := tallied + if workers[w].Ended? then 1 else 0;
      var inFlight' := inFlight + if to.Working? && !workers[w].Working? then 1 else 0;
      !workers[w].Working? ==> Crew(workers[w := to], taken, ran, tallied', inFlight', drained)
  {
    JobMoved(workers, taken, ran, w, to);
    ThoseMoved(workers, w, to, HasEnded);
    ThoseMoved(workers, w, to, IsWorking);
  }

  lemma CrewTook(workers: map<nat, Worker>, taken: nat, ran: set<nat>, tallied: nat, inFlight: nat, w: nat, drained: bool)
    requires Crew(workers, taken, ran, tallied, inFlight, false) && w in workers && workers[w].Waiting?
    ensures Crew(workers[w := Took(taken)], taken + 1, ran, tallied, inFlight, drained)
  {
    JobTaken(workers, taken, ran, w);
    ThoseMoved(workers, w, Took(taken), HasEnded);
    ThoseMoved(workers, w, Took(taken), IsWorking);
  }

  lemma CrewRan(workers: map<nat, Worker>, taken: nat, ran: set<nat>, tallied: nat, inFlight: nat, drained: bool, w: nat, threw: bool)
    requires Crew(workers, taken, ran, tallied, inFlight, drained) && w in workers && workers[w].Working?
    ensures var job := workers[w].job;
      job !in ran && inFlight > 0 && Crew(workers[w := Ended(job, threw)], taken, ran + {job}, tallied, inFlight - 1, drained)
  {
    var to := Ended(workers[w].job, threw);
    JobRan(workers, taken, ran, w, threw);
    ThoseMoved(workers, w, to, HasEnded);
    ThoseMoved(workers, w, to, IsWorking);
    assert w in Those(workers, IsWorking);
  }

  /** When no worker holds a job, exactly the jobs taken have run. */
  lemma AllRan(workers: map<nat, Worker>, taken: nat, ran: set<nat>)
    requires Accounted(workers, taken, ran) && AllExited(workers)
    ensures ran == Numbers(taken) && |ran| == taken && |Those(workers, HasEnded)| == 0
  {
    forall job: nat | job < taken ensures job in ran {
      assert !Held(workers, job);
    }
    assert ran == Numbers(taken);
    assert Those(workers, HasEnded) == {};
  }

  function Numbers(n: nat): (s: set<nat>)
    ensures |s| == n && forall k: nat :: k in s <==> k < n
  {
    if n == 0 then {} else Numbers(n - 1) + {n - 1}
  }

  // ---- steps on states -----------------------------------------------------

  datatype Step =
    | Submit(s: nat)
    | Work(w: nat, throws: bool)
    | Shutdown

  /** Everything a pool holds. */
  datatype PoolState = PoolState(
    capacity: nat, queue: seq<nat>, closed: bool, running: bool, phase: Phase, workers: map<nat, Worker>,
    submitters: map<nat, Submitter>, submitted: int, rejected: int, completed: int, failed: int, inFlight: int,
    accepted: nat, taken: nat, ran: set<nat>)

  predicate AllExited(workers: map<nat, Worker>) {
    forall w | w in workers :: workers[w].Exited?
  }

  /** What a submitter does next. */
  function Submitted(p: PoolState, s: nat): PoolState
    requires s in p.submitters
  {
    match p.submitters[s]
    case Resting => if p.running then p.(submitters := p.submitters[s := Admitted]) else p.(rejected := p.rejected + 1)
    case Admitted => p.(submitters := p.submitters[s := Counted], submitted := p.submitted + 1)
    case Counted =>
      if p.closed || |p.queue| >= p.capacity then p.(submitters := p.submitters[s := TurnedAway])
      else p.(queue := p.queue + [p.accepted], accepted := p.accepted + 1, submitters := p.submitters[s := Resting])
    case TurnedAway =>
      p.(submitters := p.submitters[s := Resting], submitted := p.submitted - 1, rejected := p.rejected + 1)
  }

  /** What a worker does next; with nothing to take it waits. */
  function Worked(p: PoolState, w: nat, throws: bool): PoolState
    requires w in p.workers
  {
    match p.workers[w]
    case Waiting =>
      if p.queue != [] then
        p.(queue := p.queue[1..], taken := p.taken + 1, workers := p.workers[w := Took(p.queue[0])])
      else if p.closed then p.(workers := p.workers[w := Exited])
      else p
    case Took(job) => p.(workers := p.workers[w := Working(job)], inFlight := p.inFlight + 1)
    case Working(job) =>
      p.(workers := p.workers[w := Ended(job, throws)], inFlight := p.inFlight - 1, ran := p.ran + {job})
    case Ended(_, threw) =>
      p.(workers := p.workers[w := Waiting], completed := p.completed + (if threw then 0 else 1),
         failed := p.failed + (if threw then 1 else 0))
    case Exited => p
  }

  function ShutFurther(p: PoolState): PoolState {
    match p.phase
    case Serving => p.(running := false, phase := Stopping)
    case Stopping => p.(closed := true, phase := Closing)
    case Closing => if AllExited(p.workers) then p.(phase := Stopped) else p
    case Stopped => p
  }

  /** The next step of a thread, if it has one to take now. */
  function Next(p: PoolState, step: Step): PoolState {
    match step
    case Submit(s) => if s in p.submitters then Submitted(p, s) else p
    case Work(w, throws) => if w in p.workers then Worked(p, w, throws) else p
    case Shutdown => ShutFurther(p)
  }

  function After(p: PoolState, schedule: seq<Step>): PoolState
    decreases |schedule|
  {
    if schedule == [] then p else After(Next(p, schedule[0]), schedule[1..])
  }

  class ThreadPool {
    const capacity: nat

    var queue: seq<nat>
    var closed: bool
    var running: bool
    var phase: Phase
    var workers: map<nat, Worker>
    var submitters: map<nat, Submitter>
    var submitted: nat
    var rejected: nat
    var completed: nat
    var failed: nat
    var inFlight: nat
    var accepted: nat

    /** How many jobs have been taken from the queue, and which have run. */
    ghost var taken: nat
    ghost var ran: set<nat>

    ghost function State(): PoolState
      reads this
    {
      PoolState(capacity, queue, closed, running, phase, workers, submitters, submitted, rejected, completed, failed,
                inFlight, accepted, taken, ran)
    }

    ghost predicate Valid()
      reads this
    {
      && workers != map[]
      && |queue| <= capacity && InOrder(queue, taken, accepted)
      && Crew(workers, taken, ran, completed + failed, inFlight, closed && queue == [])
      && submitted == accepted + |Those(submitters, IsPending)|
      && (running <==> phase == Serving) && (closed <==> phase == Closing || phase == Stopped)
      && (phase == Stopped ==> AllExited(workers))
    }

    /** A started pool. */
    constructor (capacity: nat, workers: set<nat>, submitters: set<nat>)
      requires workers != {}
      ensures Valid() && running && accepted == 0 && queue == [] && this.capacity == (if capacity == 0 then 1 else capacity)
      ensures this.workers.Keys == workers && this.submitters.Keys == submitters
    {
      this.capacity := if capacity == 0 then 1 else capacity;
      queue, closed, running, phase := [], false, true, Serving;
      this.workers := map w | w in workers :: Waiting;
      this.submitters := map s | s in submitters :: Resting;
      submitted, rejected, completed, failed, inFlight, accepted, taken, ran := 0, 0, 0, 0, 0, 0, 0, {};
      new;
      assert Those(this.submitters, IsPending) == {} && Those(this.workers, HasEnded) == {} && Those(this.workers, IsWorking) == {};
      var w :| w in workers;
      assert w in this.workers;
    }

    // ---- submitting ---------------------------------------------------------

    method CheckRunning(s: nat)
      requires Valid() && s in submitters && submitters[s].Resting?
      modifies `submitters, `rejected
      ensures Valid() && submitters == if running then old(submitters)[s := Admitted] else old(submitters)
      ensures rejected == old(rejected) + if running then 0 else 1
    {
      if running {
        ThoseMoved(submitters, s, Admitted, IsPending);
        submitters := submitters[s := Admitted];
      } else {
        rejected := rejected + 1;
      }
    }

    /** Counted before a worker can see the job. */
    method CountSubmitted(s: nat)
      requires Valid() && s in submitters && submitters[s].Admitted?
      modifies `submitters, `submitted
      ensures Valid() && submitters == old(submitters)[s := Counted] && submitted == old(submitted) + 1
    {
      ThoseMoved(submitters, s, Counted, IsPending);
      submitters, submitted := submitters[s := Counted], submitted + 1;
    }

    method TryPush(s: nat) returns (r: Result<nat, ErrorCode>)
      requires Valid() && s in submitters && submitters[s].Counted?
      modifies `submitters, `queue, `accepted
      ensures Valid()
      ensures r == if closed then Err(QueueClosed) else if |old(queue)| >= capacity then Err(QueueFull) else Ok(old(accepted))
      ensures r.Ok? ==> queue == old(queue) + [r.value] && accepted == old(accepted) + 1 && submitters == old(submitters)[s := Resting]
      ensures r.Err? ==> queue == old(queue) && accepted == old(accepted) && submitters == old(submitters)[s := TurnedAway]
    {
      if closed || |queue| >= capacity {
        ThoseMoved(submitters, s, TurnedAway, IsPending);
        submitters := submitters[s := TurnedAway];
        return Err(if closed then QueueClosed else QueueFull);
      }
      ThoseMoved(submitters, s, Resting, IsPending);
      r := Ok(accepted);
      queue, accepted, submitters := queue + [accepted], accepted + 1, submitters[s := Resting];
    }

    method CountRejected(s: nat)
      requires Valid() && s in submitters && submitters[s].TurnedAway?
      modifies `submitters, `submitted, `rejected
      ensures Valid() && submitters == old(submitters)[s := Resting]
      ensures submitted == old(submitted) - 1 && rejected == old(rejected) + 1
    {
      ThoseMoved(submitters, s, Resting, IsPending);
      assert s in Those(submitters, IsPending);
      submitters, submitted, rejected := submitters[s := Resting], submitted - 1, rejected + 1;
    }

    // ---- working ------------------------------------------------------------

    /** Takes the oldest job, or ends when the queue is closed and drained; otherwise waits. */
    method Pop(w: nat)
      requires Valid() && w in workers && workers[w].Waiting?
      modifies `workers, `queue, `taken
      ensures Valid() && taken == old(taken) + if old(queue) == [] then 0 else 1
      ensures old(queue) != [] ==> queue == old(queue)[1..] && workers == old(workers)[w := Took(old(queue)[0])]
      ensures old(queue) == [] ==> queue == [] && workers == if closed then old(workers)[w := Exited] else old(workers)
    {
      if queue != [] {
        TakeJob(w);
      } else if closed {
        Retire(w);
      }
    }

    method TakeJob(w: nat)
      requires Valid() && w in workers && workers[w].Waiting? && queue != []
      modifies `workers, `queue, `taken
      ensures Valid() && taken == old(taken) + 1
      ensures queue == old(queue)[1..] && workers == old(workers)[w := Took(old(queue)[0])]
    {
      OldestTaken(queue, taken, accepted);
      CrewTook(workers, taken, ran, completed + failed, inFlight, w, closed && queue[1..] == []);
      var job, rest := queue[0], queue[1..];
      workers, queue, taken := workers[w := Took(job)], rest, taken + 1;
    }

    method Retire(w: nat)
      requires Valid() && w in workers && workers[w].Waiting? && queue == [] && closed
      modifies `workers
      ensures Valid() && workers == old(workers)[w := Exited]
    {
      CrewMoved(workers, taken, ran, completed + failed, inFlight, true, w, Exited);
      workers := workers[w := Exited];
    }

    method Begin(w: nat)
      requires Valid() && w in workers && workers[w].Took?
      modifies `workers, `inFlight
      ensures Valid() && workers == old(workers)[w := Working(old(workers)[w].job)] && inFlight == old(inFlight) + 1
    {
      var to := Working(workers[w].job);
      CrewMoved(workers, taken, ran, completed + failed, inFlight, closed && queue == [], w, to);
      workers, inFlight := workers[w := to], inFlight + 1;
    }

    /** The job runs; it had not run before. */
    method Finish(w: nat, threw: bool)
      requires Valid() && w in workers && workers[w].Working?
      modifies `workers, `inFlight, `ran
      ensures Valid() && workers == old(workers)[w := Ended(old(workers)[w].job, threw)] && inFlight == old(inFlight) - 1
      ensures old(workers)[w].job !in old(ran) && ran == old(ran) + {old(workers)[w].job}
    {
      var job := workers[w].job;
      CrewRan(workers, taken, ran, completed + failed, inFlight, closed && queue == [], w, threw);
      ran := ran + {job};
      workers, inFlight := workers[w := Ended(job, threw)], inFlight - 1;
    }

    method Tally(w: nat)
      requires Valid() && w in workers && workers[w].Ended?
      modifies `workers, `completed, `failed
      ensures Valid() && workers == old(workers)[w := Waiting] && ran == old(ran)
      ensures if old(workers)[w].threw then failed == old(failed) + 1 && completed == old(completed)
              else completed == old(completed) + 1 && failed == old(failed)
    {
      CrewMoved(workers, taken, ran, completed + failed, inFlight, closed && queue == [], w, Waiting);
      if workers[w].threw {
        failed := failed + 1;
      } else {
        completed := completed + 1;
      }
      workers := workers[w := Waiting];
    }

    // ---- shutting down ------------------------------------------------------

    method StopRunning()
      requires Valid() && phase == Serving
      modifies `running, `phase
      ensures Valid() && !running && phase == Stopping
    {
      running, phase := false, Stopping;
    }

    method CloseQueue()
      requires Valid() && phase == Stopping
      modifies `closed, `phase
      ensures Valid() && closed && phase == Closing
    {
      closed, phase := true, Closing;
    }

    /** Shutdown returns once every worker has ended; until then this step waits. */
    method Join()
      requires Valid() && phase == Closing
      modifies `phase
      ensures Valid() && phase == if AllExited(workers) then Stopped else Closing
    {
      if AllExited(workers) {
        phase := Stopped;
      }
    }

    /** Once shutdown has returned the queue is empty and every accepted job has run exactly
        once; once no submission is in progress either, the counters agree. */
    lemma Drained()
      requires Valid() && phase == Stopped
      ensures queue == [] && ran == Numbers(accepted) && completed + failed == accepted && inFlight == 0
      ensures (forall s | s in submitters :: submitters[s].Resting?) ==> submitted == completed + failed
    {
      AllRan(workers, taken, ran);
      var w :| w in workers;
      assert workers[w].Exited?;
      assert Those(workers, IsWorking) == {};
      if forall s | s in submitters :: submitters[s].Resting? {
        assert Those(submitters, IsPending) == {};
      }
    }
  }

  // ---- schedules -----------------------------------------------------------

  method StepPush(pool: ThreadPool, s: nat)
    requires pool.Valid() && s in pool.submitters && pool.submitters[s].Counted?
    modifies pool
    ensures pool.Valid() && pool.State() == Submitted(old(pool.State()), s)
  {
    var pushed := pool.TryPush(s);
  }

  method StepSubmitter(pool: ThreadPool, s: nat)
    requires pool.Valid() && s in pool.submitters
    modifies pool
    ensures pool.Valid() && pool.State() == Submitted(old(pool.State()), s)
  {
    match pool.submitters[s]
    case Resting => pool.CheckRunning(s);
    case Admitted => pool.CountSubmitted(s);
    case Counted => StepPush(pool, s);
    case TurnedAway => pool.CountRejected(s);
  }

  method StepIdle(pool: ThreadPool, w: nat, throws: bool)
    requires pool.Valid() && w in pool.workers && pool.workers[w].Waiting?
    modifies pool
    ensures pool.Valid() && pool.State() == Worked(old(pool.State()), w, throws)
  {
    pool.Pop(w);
  }

  method StepBegin(pool: ThreadPool, w: nat, throws: bool)
    requires pool.Valid() && w in pool.workers && pool.workers[w].Took?
    modifies pool
    ensures pool.Valid() && pool.State() == Worked(old(pool.State()), w, throws)
  {
    pool.Begin(w);
  }

  method StepFinish(pool: ThreadPool, w: nat, throws: bool)
    requires pool.Valid() && w in pool.workers && pool.workers[w].Working?
    modifies pool
    ensures pool.Valid() && pool.State() == Worked(old(pool.State()), w, throws)
  {
    pool.Finish(w, throws);
  }

  method StepTally(pool: ThreadPool, w: nat, throws: bool)
    requires pool.Valid() && w in pool.workers && pool.workers[w].Ended?
    modifies pool
    ensures pool.Valid() && pool.State() == Worked(old(pool.State()), w, throws)
  {
    pool.Tally(w);
  }

  method StepWorker(pool: ThreadPool, w: nat, throws: bool)
    requires pool.Valid() && w in pool.workers
    modifies pool
    ensures pool.Valid() && pool.State() == Worked(old(pool.State()), w, throws)
  {
    match pool.workers[w]
    case Waiting => StepIdle(pool, w, throws);
    case Took(_) => StepBegin(pool, w, throws);
    case Working(_) => StepFinish(pool, w, throws);
    case Ended(_, _) => StepTally(pool, w, throws);
    case Exited =>
  }

  method StepShutdown(pool: ThreadPool)
    requires pool.Valid()
    modifies pool
    ensures pool.Valid() && pool.State() == ShutFurther(old(pool.State()))
  {
    match pool.phase
    case Serving => pool.StopRunning();
    case Stopping => pool.CloseQueue();
    case Closing => pool.Join();
    case Stopped =>
  }

  /** The next step of a thread, if it has one to take now. */
  method Advance(pool: ThreadPool, step: Step)
    requires pool.Valid()
    modifies pool
    ensures pool.Valid() && pool.State() == Next(old(pool.State()), step)
  {
    match step
    case Submit(s) =>
      if s in pool.submitters {
        StepSubmitter(pool, s);
      }
    case Work(w, throws) =>
      if w in pool.workers {
        StepWorker(pool, w, throws);
      }
    case Shutdown => StepShutdown(pool);
  }

  /** Any interleaving takes the pool where its steps lead and keeps it valid; one after which
      shutdown has returned has run every accepted job exactly once. */
  method Run(pool: ThreadPool, schedule: seq<Step>)
    requires pool.Valid()
    modifies pool
    ensures pool.Valid() && |pool.queue| <= pool.capacity
    ensures pool.State() == After(old(pool.State()), schedule)
    ensures pool.phase == Stopped ==> pool.queue == [] && pool.ran == Numbers(pool.accepted)
                                      && pool.completed + pool.failed == pool.accepted
    ensures pool.phase == Stopped && (forall s | s in pool.submitters :: pool.submitters[s].Resting?)
            ==> pool.submitted == pool.completed + pool.failed
  {
    for i := 0 to |schedule|
      invariant pool.Valid() && After(pool.State(), schedule[i..]) == After(old(pool.State()), schedule)
    {
      assert schedule[i..][0] == schedule[i] && schedule[i..][1..] == schedule[i + 1..];
      Advance(pool, schedule[i]);
    }
    if pool.phase == Stopped {
      pool.Drained();
    }
  }
}
