/** The agent's worker pool together with its client, Execute, as a transition system.

    Every shared-memory or channel operation is one step: the client's wg.Add, the send inside
    Submit, wg.Wait and close; a worker's receive, the active counter, the handler, the back-off
    timer, the send that re-enqueues, the two halves of the after-hook (counters and failure list
    first, wg.Done last). The context may be cancelled at any step. */
module WorkerPool {
  import opened Handler
  import opened Sums

  datatype Config = Config(jobs: nat, workers: nat, capacity: nat, maxRetries: nat)

  predicate WellFormed(cfg: Config) { cfg.workers > 0 && cfg.capacity > 0 && cfg.maxRetries > 0 }

  /** NewWorkerPool replaces a non-positive worker count by 1 and a non-positive queue size by
      the worker count; retryPolicy replaces a non-positive retry limit by 3. */
  function NewPool(jobs: nat, workers: int, queueSize: int, maxRetries: int): Config {
    var w := if workers <= 0 then 1 else workers;
    Config(jobs, w, if queueSize <= 0 then w else queueSize, if maxRetries <= 0 then 3 else maxRetries)
  }

  /** Execute sizes the queue to the number of interfaces. */
  function ExecuteConfig(jobs: nat, maxConcurrentTasks: int, maxRetries: int): (cfg: Config)
    ensures WellFormed(cfg) && cfg.capacity >= cfg.jobs == jobs
  {
    NewPool(jobs, maxConcurrentTasks, jobs, maxRetries)
  }

  /** The settings Execute runs with: positive ones are kept, the others become 1 worker and 3 retries. */
  lemma ExecuteSettings(jobs: nat, maxConcurrentTasks: int, maxRetries: int)
    ensures var cfg := ExecuteConfig(jobs, maxConcurrentTasks, maxRetries);
            && (maxConcurrentTasks > 0 ==> cfg.workers == maxConcurrentTasks)
            && (maxConcurrentTasks <= 0 ==> cfg.workers == 1)
            && (maxRetries > 0 ==> cfg.maxRetries == maxRetries) && (maxRetries <= 0 ==> cfg.maxRetries == 3)
            && (jobs > 0 ==> cfg.capacity == jobs) && (jobs == 0 ==> cfg.capacity == cfg.workers)
  {
  }

  /** A queued job. `past` is the record of the handler runs this job has been through. */
  datatype Envelope = Envelope(job: nat, attempt: nat, past: seq<HandlerRun>)

  datatype Worker =
    | Idle
    | Taken(env: Envelope)                       // received, not yet counted as active
    | Handling(env: Envelope)                    // active, the handler has not returned
    | Sleeping(env: Envelope)                    // to be retried, back-off timer running
    | Sending(env: Envelope)                     // blocked in or about to do the re-enqueue send
    | Reporting(env: Envelope, outcome: Outcome) // terminal, after-hook not started
    | Counted(env: Envelope, outcome: Outcome)   // after-hook has counted, wg.Done outstanding
    | Leaving                                    // still active, holds no job
    | Exited

  datatype Client = AddNext | SendNext | AwaitAll | Close | Returned

  datatype Finished = Finished(job: nat, past: seq<HandlerRun>)

  datatype State = State(
    client: Client, submitted: nat, wg: int,
    queue: seq<Envelope>, closed: bool, cancelled: bool,
    workers: seq<Worker>, active: int,
    processed: nat, failed: nat, results: seq<nat>, failures: seq<nat>,
    done: seq<Finished>,      // jobs whose after-hook has run to its end
    dropped: seq<Envelope>)   // retried jobs given up because of cancellation

  function Init(cfg: Config): State {
    State(AddNext, 0, 0, [], false, false, seq(cfg.workers, _ => Idle), 0, 0, 0, [], [], [], [])
  }

  /** retryPolicy: the attempt limit, then the error type. */
  predicate Retries(cfg: Config, o: Outcome, attempt: nat) { attempt < cfg.maxRetries && Retryable(o) }

  /** A handler returns what Handle computes, or panics part of the way through. */
  datatype Attempt = Returns(probe: Probe) | Panics(probe: Probe, effects: nat)

  function RunOf(a: Attempt): HandlerRun {
    match a
    case Returns(probe) => Handle(probe)
    case Panics(probe, effects) =>
      var events := Handle(probe).events;
      HandlerRun(if effects < |events| then events[..effects] else events, Panicked)
  }

  datatype Move =
    | Dequeue | Activate | Finish(attempt: Attempt) | Wake | Requeue | RequeueClosed
    | Count | Done | Deactivate | ExitClosed | ExitCancelled

  datatype Action =
    | Add | Send | StartWait | WaitDone | CloseJobs | Cancel
    | Step(w: nat, move: Move)

  predicate MoveEnabled(cfg: Config, s: State, x: Worker, m: Move) {
    match m
    case Dequeue => x.Idle? && s.queue != []
    case Activate => x.Taken?
    case Finish(_) => x.Handling?
    case Wake => x.Sleeping?
    case Requeue => x.Sending? && |s.queue| < cfg.capacity && !s.closed
    case RequeueClosed => x.Sending? && s.closed
    case Count => x.Reporting?
    case Done => x.Counted?
    case Deactivate => x.Leaving?
    case ExitClosed => x.Idle? && s.closed && s.queue == []
    case ExitCancelled => x.Idle? && s.cancelled
  }

  predicate Enabled(cfg: Config, s: State, a: Action) {
    match a
    case Add => s.client.AddNext? && s.submitted < cfg.jobs
    case Send => s.client.SendNext? && |s.queue| < cfg.capacity && !s.closed
    case StartWait => s.client.AddNext? && s.submitted >= cfg.jobs
    case WaitDone => s.client.AwaitAll? && s.wg == 0
    case CloseJobs => s.client.Close?
    case Cancel => !s.cancelled
    case Step(w, m) => w < |s.workers| && MoveEnabled(cfg, s, s.workers[w], m)
  }

  /** The worker after its move. A send on a closed channel panics inside the recovered function. */
  function NextWorker(cfg: Config, s: State, x: Worker, m: Move): Worker
    requires MoveEnabled(cfg, s, x, m)
  {
    match m
    case Dequeue => Taken(s.queue[0])
    case Activate => Handling(x.env)
    case Finish(a) =>
      var e := x.env.(past := x.env.past + [RunOf(a)]);
      if Retries(cfg, RunOf(a).outcome, e.attempt) then Sleeping(e) else Reporting(e, RunOf(a).outcome)
    case Wake => if s.cancelled then Leaving else Sending(x.env.(attempt := x.env.attempt + 1))
    case Requeue => Leaving
    case RequeueClosed => Reporting(x.env, Panicked)
    case Count => Counted(x.env, x.outcome)
    case Done => Leaving
    case Deactivate => Idle
    case ExitClosed => Exited
    case ExitCancelled => Exited
  }

  function NextQueue(cfg: Config, s: State, x: Worker, m: Move): seq<Envelope>
    requires MoveEnabled(cfg, s, x, m)
  {
    if m.Dequeue? then s.queue[1..] else if m.Requeue? then s.queue + [x.env] else s.queue
  }

  function NextDone(cfg: Config, s: State, x: Worker, m: Move): seq<Finished>
    requires MoveEnabled(cfg, s, x, m)
  {
    if m.Done? then s.done + [Finished(x.env.job, x.env.past)] else s.done
  }

  function NextDropped(cfg: Config, s: State, x: Worker, m: Move): seq<Envelope>
    requires MoveEnabled(cfg, s, x, m)
  {
    if m.Wake? && s.cancelled then s.dropped + [x.env] else s.dropped
  }

  function NextResults(cfg: Config, s: State, x: Worker, m: Move): seq<nat>
    requires MoveEnabled(cfg, s, x, m)
  {
    if m.Finish? && RunOf(m.attempt).outcome.Succeeded? then s.results + [x.env.job] else s.results
  }

  function NextFailures(cfg: Config, s: State, x: Worker, m: Move): seq<nat>
    requires MoveEnabled(cfg, s, x, m)
  {
    if m.Count? && !x.outcome.Succeeded? then s.failures + [x.env.job] else s.failures
  }

  function DoMove(cfg: Config, s: State, w: nat, m: Move): State
    requires w < |s.workers| && MoveEnabled(cfg, s, s.workers[w], m)
  {
    var x := s.workers[w];
    s.(workers := s.workers[w := NextWorker(cfg, s, x, m)],
       queue := NextQueue(cfg, s, x, m),
       done := NextDone(cfg, s, x, m),
       dropped := NextDropped(cfg, s, x, m),
       results := NextResults(cfg, s, x, m),
       failures := NextFailures(cfg, s, x, m),
       processed := s.processed + (if m.Count? && x.outcome.Succeeded? then 1 else 0),
       failed := s.failed + (if m.Count? && !x.outcome.Succeeded? then 1 else 0),
       active := s.active + (if m.Activate? then 1 else if m.Deactivate? then -1 else 0),
       wg := s.wg - (if m.Done? then 1 else 0))
  }

  function Do(cfg: Config, s: State, a: Action): State
    requires Enabled(cfg, s, a)
  {
    match a
    case Add => s.(client := SendNext, wg := s.wg + 1)
    case Send => s.(client := AddNext, submitted := s.submitted + 1, queue := s.queue + [Envelope(s.submitted, 0, [])])
    case StartWait => s.(client := AwaitAll)
    case WaitDone => s.(client := Close)
    case CloseJobs => s.(client := Returned, closed := true)
    case Cancel => s.(cancelled := true)
    case Step(w, m) => DoMove(cfg, s, w, m)
  }

  predicate CanRun(cfg: Config, s: State, acts: seq<Action>)
    decreases |acts|
  {
    acts == [] || (Enabled(cfg, s, acts[0]) && CanRun(cfg, Do(cfg, s, acts[0]), acts[1..]))
  }

  function Run(cfg: Config, s: State, acts: seq<Action>): State
    requires CanRun(cfg, s, acts)
    decreases |acts|
  {
    if acts == [] then s else Run(cfg, Do(cfg, s, acts[0]), acts[1..])
  }

  // ---------------------------------------------------------------- invariant

  function OfEnvelope(e: Envelope, j: nat): nat { Is(e.job, j) }

  function OfFinished(f: Finished, j: nat): nat { Is(f.job, j) }

  predicate Holds(w: Worker) { !w.Idle? && !w.Leaving? && !w.Exited? }

  function OfWorker(w: Worker, j: nat): nat { if Holds(w) then Is(w.env.job, j) else 0 }

  function HoldsOne(w: Worker, j: nat): nat { if Holds(w) then 1 else 0 }

  /** A job whose handler succeeded and whose after-hook is still running. */
  function GoodHeld(w: Worker, j: nat): nat {
    if (w.Reporting? || w.Counted?) && w.outcome.Succeeded? then Is(w.env.job, j) else 0
  }

  function BadCounted(w: Worker, j: nat): nat {
    if w.Counted? && !w.outcome.Succeeded? then Is(w.env.job, j) else 0
  }

  function CountedGoodOne(w: Worker, j: nat): nat { if w.Counted? && w.outcome.Succeeded? then 1 else 0 }

  function CountedBadOne(w: Worker, j: nat): nat { if w.Counted? && !w.outcome.Succeeded? then 1 else 0 }

  function ActiveOne(w: Worker, j: nat): nat { if w.Idle? || w.Taken? || w.Exited? then 0 else 1 }

  predicate LastSucceeded(past: seq<HandlerRun>) { past != [] && past[|past| - 1].outcome.Succeeded? }

  function GoodDone(f: Finished, j: nat): nat { if LastSucceeded(f.past) then Is(f.job, j) else 0 }

  function BadDone(f: Finished, j: nat): nat { if LastSucceeded(f.past) then 0 else Is(f.job, j) }

  function GoodOne(f: Finished, j: nat): nat { if LastSucceeded(f.past) then 1 else 0 }

  /** How many places job j is in: queued, held by a worker, finished, given up. */
  function Places(s: State, j: nat): nat {
    Sum(s.queue, j, OfEnvelope) + Sum(s.workers, j, OfWorker) + Sum(s.done, j, OfFinished)
      + Sum(s.dropped, j, OfEnvelope)
  }

  /** A job between two handler runs: one run per attempt so far, each of them retried. */
  predicate Between(cfg: Config, e: Envelope) {
    && e.attempt <= cfg.maxRetries && |e.past| == e.attempt
    && AllRetried(cfg, e.past)
  }

  predicate AllRetried(cfg: Config, past: seq<HandlerRun>) {
    forall k | 0 <= k < |past| :: Retries(cfg, past[k].outcome, k)
  }

  /** A job at its end: every run but the last was retried, the last one was not. */
  predicate Ended(cfg: Config, past: seq<HandlerRun>) {
    var n := |past|;
    && 0 < n <= cfg.maxRetries + 1
    && AllRetried(cfg, past[..n - 1])
    && !Retries(cfg, past[n - 1].outcome, n - 1)
  }

  predicate WorkerOk(cfg: Config, w: Worker) {
    match w
    case Taken(e) => Between(cfg, e)
    case Handling(e) => Between(cfg, e)
    case Sending(e) => Between(cfg, e)
    case Sleeping(e) => e.attempt < cfg.maxRetries && |e.past| == e.attempt + 1 && AllRetried(cfg, e.past)
    case Reporting(e, o) => Ended(cfg, e.past) && |e.past| == e.attempt + 1 && o == e.past[e.attempt].outcome
    case Counted(e, o) => Ended(cfg, e.past) && |e.past| == e.attempt + 1 && o == e.past[e.attempt].outcome
    case _ => true
  }

  ghost predicate Records(cfg: Config, s: State) {
    && (forall i | 0 <= i < |s.queue| :: Between(cfg, s.queue[i]))
    && (forall i | 0 <= i < |s.workers| :: WorkerOk(cfg, s.workers[i]))
    && (forall i | 0 <= i < |s.done| :: Ended(cfg, s.done[i].past))
    && (forall i | 0 <= i < |s.dropped| :: WorkerOk(cfg, Sleeping(s.dropped[i])))
  }

  ghost predicate ClientOk(cfg: Config, s: State) {
    && s.submitted <= cfg.jobs
    && (s.client.SendNext? ==> s.submitted < cfg.jobs)
    && (s.client.AwaitAll? || s.client.Close? || s.client.Returned? ==> s.submitted == cfg.jobs)
    && (s.client.Close? || s.client.Returned? ==> |s.done| == cfg.jobs)
    && s.wg == s.submitted + (if s.client.SendNext? then 1 else 0) - |s.done|
    && (s.closed <==> s.client.Returned?)
    && (s.dropped != [] ==> s.cancelled)
    && (forall i | 0 <= i < |s.workers| && s.workers[i].Exited? :: s.closed || s.cancelled)
  }

  /** Every submitted job is in exactly one place, every other job is nowhere. */
  ghost predicate Conserved(s: State) {
    && (forall j: nat :: Places(s, j) == if j < s.submitted then 1 else 0)
    && |s.queue| + Sum(s.workers, 0, HoldsOne) + |s.done| + |s.dropped| == s.submitted
  }

  /** The lists behind the output: who is in Results, who is in Failures. */
  ghost predicate Lists(s: State) {
    && (forall j: nat :: Sum(s.results, j, Is) == Sum(s.done, j, GoodDone) + Sum(s.workers, j, GoodHeld))
    && (forall j: nat :: Sum(s.failures, j, Is) == Sum(s.done, j, BadDone) + Sum(s.workers, j, BadCounted))
  }

  ghost predicate Counters(s: State) {
    && s.processed == Sum(s.done, 0, GoodOne) + Sum(s.workers, 0, CountedGoodOne)
    && s.processed + s.failed == |s.done| + Sum(s.workers, 0, CountedGoodOne) + Sum(s.workers, 0, CountedBadOne)
    && s.failed == |s.failures|
    && s.active == Sum(s.workers, 0, ActiveOne)
  }

  ghost predicate Inv(cfg: Config, s: State) {
    && |s.workers| == cfg.workers
    && Conserved(s)
    && Records(cfg, s)
    && ClientOk(cfg, s)
    && Lists(s)
    && Counters(s)
  }

  lemma InitInv(cfg: Config)
    ensures Inv(cfg, Init(cfg))
  {
    var ws := Init(cfg).workers;
    forall j: nat ensures Sum(ws, j, OfWorker) == Sum(ws, j, GoodHeld) == Sum(ws, j, BadCounted) == 0 {
      SumConstant(ws, j, OfWorker, 0);
      SumConstant(ws, j, GoodHeld, 0);
      SumConstant(ws, j, BadCounted, 0);
    }
    SumConstant(ws, 0, HoldsOne, 0);
    SumConstant(ws, 0, CountedGoodOne, 0);
    SumConstant(ws, 0, CountedBadOne, 0);
    SumConstant(ws, 0, ActiveOne, 0);
  }

  lemma MoveKeepsPlace(cfg: Config, s: State, w: nat, m: Move, j: nat)
    requires w < |s.workers| && MoveEnabled(cfg, s, s.workers[w], m)
    ensures Places(DoMove(cfg, s, w, m), j) == Places(s, j)
  {
    var x := s.workers[w];
    SumUpdate(s.workers, w, NextWorker(cfg, s, x, m), j, OfWorker);
    if m.Requeue? {
      SumAppend(s.queue, x.env, j, OfEnvelope);
    } else if m.Wake? {
      SumAppend(s.dropped, x.env, j, OfEnvelope);
    } else if m.Done? {
      SumAppend(s.done, Finished(x.env.job, x.env.past), j, OfFinished);
    }
  }

  lemma StepKeepsConserved(cfg: Config, s: State, a: Action)
    requires Enabled(cfg, s, a) && Conserved(s)
    ensures Conserved(Do(cfg, s, a))
  {
    var s' := Do(cfg, s, a);
    forall j: nat ensures Places(s', j) == if j < s'.submitted then 1 else 0 {
      assert Places(s, j) == if j < s.submitted then 1 else 0;
      if a.Step? {
        MoveKeepsPlace(cfg, s, a.w, a.move, j);
      } else if a.Send? {
        SumAppend(s.queue, Envelope(s.submitted, 0, []), j, OfEnvelope);
      }
    }
    if a.Step? {
      SumUpdate(s.workers, a.w, NextWorker(cfg, s, s.workers[a.w], a.move), 0, HoldsOne);
    }
  }

  lemma MoveKeepsWorkerOk(cfg: Config, s: State, x: Worker, m: Move)
    requires MoveEnabled(cfg, s, x, m) && WorkerOk(cfg, x) && !m.RequeueClosed?
    requires s.queue != [] ==> Between(cfg, s.queue[0])
    ensures WorkerOk(cfg, NextWorker(cfg, s, x, m))
  {
  }

  lemma StepKeepsRecords(cfg: Config, s: State, a: Action)
    requires Enabled(cfg, s, a) && Records(cfg, s) && !(a.Step? && a.move.RequeueClosed?)
    ensures Records(cfg, Do(cfg, s, a))
  {
    if a.Step? {
      assert WorkerOk(cfg, s.workers[a.w]);
      MoveKeepsWorkerOk(cfg, s, s.workers[a.w], a.move);
    }
  }

  lemma StepKeepsClient(cfg: Config, s: State, a: Action)
    requires Enabled(cfg, s, a) && ClientOk(cfg, s)
    requires a.Step? && a.move.Done? ==> !s.client.Close? && !s.client.Returned?
    ensures ClientOk(cfg, Do(cfg, s, a))
  {
  }

  lemma MoveKeepsResults(cfg: Config, s: State, w: nat, m: Move, j: nat)
    requires w < |s.workers| && MoveEnabled(cfg, s, s.workers[w], m) && WorkerOk(cfg, s.workers[w]) && !m.RequeueClosed?
    requires Sum(s.results, j, Is) == Sum(s.done, j, GoodDone) + Sum(s.workers, j, GoodHeld)
    ensures var s' := DoMove(cfg, s, w, m);
            Sum(s'.results, j, Is) == Sum(s'.done, j, GoodDone) + Sum(s'.workers, j, GoodHeld)
  {
    var x := s.workers[w];
    SumUpdate(s.workers, w, NextWorker(cfg, s, x, m), j, GoodHeld);
    if m.Done? {
      SumAppend(s.done, Finished(x.env.job, x.env.past), j, GoodDone);
    } else if m.Finish? {
      SumAppend(s.results, x.env.job, j, Is);
    }
  }

  lemma MoveKeepsFailures(cfg: Config, s: State, w: nat, m: Move, j: nat)
    requires w < |s.workers| && MoveEnabled(cfg, s, s.workers[w], m) && WorkerOk(cfg, s.workers[w]) && !m.RequeueClosed?
    requires Sum(s.failures, j, Is) == Sum(s.done, j, BadDone) + Sum(s.workers, j, BadCounted)
    ensures var s' := DoMove(cfg, s, w, m);
            Sum(s'.failures, j, Is) == Sum(s'.done, j, BadDone) + Sum(s'.workers, j, BadCounted)
  {
    var x := s.workers[w];
    SumUpdate(s.workers, w, NextWorker(cfg, s, x, m), j, BadCounted);
    if m.Done? {
      SumAppend(s.done, Finished(x.env.job, x.env.past), j, BadDone);
    } else if m.Count? {
      SumAppend(s.failures, x.env.job, j, Is);
    }
  }

  lemma StepKeepsLists(cfg: Config, s: State, a: Action)
    requires Enabled(cfg, s, a) && Records(cfg, s) && Lists(s) && !(a.Step? && a.move.RequeueClosed?)
    ensures Lists(Do(cfg, s, a))
  {
    if a.Step? {
      forall j: nat
        ensures var s' := DoMove(cfg, s, a.w, a.move);
                && Sum(s'.results, j, Is) == Sum(s'.done, j, GoodDone) + Sum(s'.workers, j, GoodHeld)
                && Sum(s'.failures, j, Is) == Sum(s'.done, j, BadDone) + Sum(s'.workers, j, BadCounted)
      {
        assert WorkerOk(cfg, s.workers[a.w]);
        MoveKeepsResults(cfg, s, a.w, a.move, j);
        MoveKeepsFailures(cfg, s, a.w, a.move, j);
      }
    }
  }

  lemma MoveKeepsActive(cfg: Config, s: State, w: nat, m: Move)
    requires w < |s.workers| && MoveEnabled(cfg, s, s.workers[w], m) && s.active == Sum(s.workers, 0, ActiveOne)
    ensures DoMove(cfg, s, w, m).active == Sum(DoMove(cfg, s, w, m).workers, 0, ActiveOne)
  {
    SumUpdate(s.workers, w, NextWorker(cfg, s, s.workers[w], m), 0, ActiveOne);
  }

  lemma MoveKeepsCounters(cfg: Config, s: State, w: nat, m: Move)
    requires w < |s.workers| && MoveEnabled(cfg, s, s.workers[w], m) && WorkerOk(cfg, s.workers[w]) && !m.RequeueClosed?
    requires Counters(s)
    ensures Counters(DoMove(cfg, s, w, m))
  {
    var x := s.workers[w];
    var x' := NextWorker(cfg, s, x, m);
    MoveKeepsActive(cfg, s, w, m);
    SumUpdate(s.workers, w, x', 0, CountedGoodOne);
    SumUpdate(s.workers, w, x', 0, CountedBadOne);
    if m.Done? {
      SumAppend(s.done, Finished(x.env.job, x.env.past), 0, GoodOne);
    }
  }

  /** When every submitted job is done, no worker holds one. */
  lemma NothingHeld(cfg: Config, s: State, w: nat)
    requires Conserved(s) && |s.done| == s.submitted && w < |s.workers|
    ensures !Holds(s.workers[w]) && s.queue == [] && s.dropped == []
  {
    SumIncludes(s.workers, w, 0, HoldsOne);
  }

  lemma StepKeepsInv(cfg: Config, s: State, a: Action)
    requires Inv(cfg, s) && Enabled(cfg, s, a)
    ensures Inv(cfg, Do(cfg, s, a))
  {
    if a.Step? && (s.client.Close? || s.client.Returned?) {
      NothingHeld(cfg, s, a.w);
    }
    StepKeepsConserved(cfg, s, a);
    StepKeepsRecords(cfg, s, a);
    StepKeepsClient(cfg, s, a);
    StepKeepsLists(cfg, s, a);
    if a.Step? {
      assert WorkerOk(cfg, s.workers[a.w]);
      MoveKeepsCounters(cfg, s, a.w, a.move);
    }
  }

  lemma {:induction false} RunKeepsInv(cfg: Config, s: State, acts: seq<Action>)
    requires Inv(cfg, s) && CanRun(cfg, s, acts)
    ensures Inv(cfg, Run(cfg, s, acts))
    decreases |acts|
  {
    if acts != [] {
      StepKeepsInv(cfg, s, acts[0]);
      RunKeepsInv(cfg, Do(cfg, s, acts[0]), acts[1..]);
    }
  }
}
