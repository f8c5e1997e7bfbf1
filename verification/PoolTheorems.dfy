/** What holds of every run of the worker pool under Execute. */
module PoolTheorems {
  import opened Text
  import opened Handler
  import opened Sums
  import opened WorkerPool

  // ------------------------------------------------------------ conservation

  /** In every reachable state each submitted job is in exactly one place, so its after-hook has
      completed at most once; the active gauge counts the workers between receive and release; and no
      job, wherever it is, has been handled more than maxRetries + 1 times. */
  lemma JobsConserved(cfg: Config, acts: seq<Action>)
    requires CanRun(cfg, Init(cfg), acts)
    ensures var s := Run(cfg, Init(cfg), acts);
            && (forall j: nat :: Places(s, j) == if j < s.submitted then 1 else 0)
            && (forall j: nat :: Sum(s.done, j, OfFinished) <= 1)
            && s.wg >= 0 && s.active == Sum(s.workers, 0, ActiveOne)
            && (forall past :: Carries(s, past) ==> |past| <= cfg.maxRetries + 1)
  {
    InitInv(cfg);
    RunKeepsInv(cfg, Init(cfg), acts);
    var s := Run(cfg, Init(cfg), acts);
    forall j: nat ensures Sum(s.done, j, OfFinished) <= 1 {
      assert Places(s, j) <= 1;
    }
    assert |s.done| <= s.submitted;
    forall past | Carries(s, past) ensures |past| <= cfg.maxRetries + 1 {
      AttemptsBounded(cfg, acts, past);
    }
  }

  /** The record of some job, queued, held by a worker, finished or given up. */
  ghost predicate Carries(s: State, past: seq<HandlerRun>) {
    || (exists i :: 0 <= i < |s.queue| && s.queue[i].past == past)
    || (exists i :: 0 <= i < |s.workers| && Holds(s.workers[i]) && s.workers[i].env.past == past)
    || (exists i :: 0 <= i < |s.done| && s.done[i].past == past)
    || (exists i :: 0 <= i < |s.dropped| && s.dropped[i].past == past)
  }

  /** How many of a job's runs were followed by a retry decision: all, or all but the last. */
  function RetriesOf(cfg: Config, past: seq<HandlerRun>): nat {
    var n := |past|;
    if n > 0 && !Retries(cfg, past[n - 1].outcome, n - 1) then n - 1 else n
  }

  lemma RecordIsBounded(cfg: Config, past: seq<HandlerRun>)
    requires (|past| <= cfg.maxRetries && AllRetried(cfg, past)) || Ended(cfg, past)
    ensures |past| <= cfg.maxRetries + 1 && RetriesOf(cfg, past) <= cfg.maxRetries
    ensures forall k | 0 <= k < |past| :: Retries(cfg, past[k].outcome, k) <==> k < RetriesOf(cfg, past)
  {
    var n := |past|;
    if Ended(cfg, past) {
      assert forall k | 0 <= k < n - 1 :: past[..n - 1][k] == past[k];
    }
  }

  /** No job, wherever it is, has been handled more than maxRetries + 1 times or retried more than
      maxRetries times; its retried runs are exactly the ones the policy retries, and they come first. */
  lemma AttemptsBounded(cfg: Config, acts: seq<Action>, past: seq<HandlerRun>)
    requires CanRun(cfg, Init(cfg), acts) && Carries(Run(cfg, Init(cfg), acts), past)
    ensures |past| <= cfg.maxRetries + 1 && RetriesOf(cfg, past) <= cfg.maxRetries
    ensures forall k | 0 <= k < |past| :: Retries(cfg, past[k].outcome, k) <==> k < RetriesOf(cfg, past)
  {
    InitInv(cfg);
    RunKeepsInv(cfg, Init(cfg), acts);
    CarriedRecord(cfg, Run(cfg, Init(cfg), acts), past);
    RecordIsBounded(cfg, past);
  }

  lemma CarriedRecord(cfg: Config, s: State, past: seq<HandlerRun>)
    requires Records(cfg, s) && Carries(s, past)
    ensures (|past| <= cfg.maxRetries && AllRetried(cfg, past)) || Ended(cfg, past)
  {
    if i :| 0 <= i < |s.queue| && s.queue[i].past == past {
      assert Between(cfg, s.queue[i]);
    } else if i :| 0 <= i < |s.workers| && Holds(s.workers[i]) && s.workers[i].env.past == past {
      assert WorkerOk(cfg, s.workers[i]);
    } else if i :| 0 <= i < |s.dropped| && s.dropped[i].past == past {
      assert WorkerOk(cfg, Sleeping(s.dropped[i]));
    }
  }

  /** When Execute returns, every job has finished exactly once: Results and Failures partition
      the input and the counters are the lengths of the two lists. The channel was closed empty,
      with no worker holding a job and so none able to send. */
  lemma ReturnedOutput(cfg: Config, acts: seq<Action>)
    requires CanRun(cfg, Init(cfg), acts) && Run(cfg, Init(cfg), acts).client.Returned?
    ensures var s := Run(cfg, Init(cfg), acts);
            && s.processed + s.failed == cfg.jobs && s.processed == |s.results| && s.failed == |s.failures|
            && (forall j: nat :: multiset(s.results)[j] + multiset(s.failures)[j] == if j < cfg.jobs then 1 else 0)
            && s.queue == [] && s.dropped == []
            && (forall i | 0 <= i < |s.workers| :: !Holds(s.workers[i]))
  {
    InitInv(cfg);
    RunKeepsInv(cfg, Init(cfg), acts);
    var s := Run(cfg, Init(cfg), acts);
    forall i | 0 <= i < |s.workers| ensures !Holds(s.workers[i]) {
      NothingHeld(cfg, s, i);
    }
    SumConstant(s.workers, 0, CountedGoodOne, 0);
    SumConstant(s.workers, 0, CountedBadOne, 0);
    SumConstant(s.workers, 0, HoldsOne, 0);
    forall j: nat ensures multiset(s.results)[j] + multiset(s.failures)[j] == if j < cfg.jobs then 1 else 0 {
      assert Places(s, j) == if j < s.submitted then 1 else 0;
      SumConstant(s.workers, j, OfWorker, 0);
      SumConstant(s.workers, j, GoodHeld, 0);
      SumConstant(s.workers, j, BadCounted, 0);
      DoneSplits(s.done, j);
      SumIsMultiplicity(s.results, j);
      SumIsMultiplicity(s.failures, j);
    }
    SizeFromCounts(s.results, s.failures, cfg.jobs);
  }

  lemma {:induction false} DoneSplits(done: seq<Finished>, j: nat)
    ensures Sum(done, j, OfFinished) == Sum(done, j, GoodDone) + Sum(done, j, BadDone)
  {
    if done != [] {
      DoneSplits(done[1..], j);
    }
  }

  /** Two lists that together hold each number below n once have n elements. */
  lemma {:induction false} SizeFromCounts(xs: seq<nat>, ys: seq<nat>, n: nat)
    requires forall j: nat :: multiset(xs)[j] + multiset(ys)[j] == if j < n then 1 else 0
    ensures |xs| + |ys| == n
  {
    var all := multiset(xs) + multiset(ys);
    assert |all| == |xs| + |ys|;
    BelowSize(all, n);
  }

  lemma {:induction false} BelowSize(m: multiset<nat>, n: nat)
    requires forall j: nat :: m[j] == if j < n then 1 else 0
    ensures |m| == n
  {
    if n == 0 {
      assert m == multiset{};
    } else {
      var rest := m - multiset{n - 1};
      forall j: nat ensures rest[j] == if j < n - 1 then 1 else 0 {
        assert m[j] == if j < n then 1 else 0;
      }
      BelowSize(rest, n - 1);
      assert |rest| == |m| - 1;
    }
  }

  /** The Results and Failures lists say how each job's last handler run ended. */
  lemma ListsTellTheTruth(cfg: Config, acts: seq<Action>, i: nat)
    requires CanRun(cfg, Init(cfg), acts)
    requires i < |Run(cfg, Init(cfg), acts).done|
    ensures var s := Run(cfg, Init(cfg), acts);
            var f := s.done[i];
            && Ended(cfg, f.past)
            && (f.job in s.results <==> LastSucceeded(f.past))
            && (f.job in s.failures <==> !LastSucceeded(f.past))
  {
    InitInv(cfg);
    RunKeepsInv(cfg, Init(cfg), acts);
    var s := Run(cfg, Init(cfg), acts);
    var f := s.done[i];
    var j := f.job;
    assert Places(s, j) <= 1;
    SumIncludes(s.done, i, j, OfFinished);
    SumIncludes(s.done, i, j, GoodDone);
    SumIncludes(s.done, i, j, BadDone);
    DoneSplits(s.done, j);
    HeldBounds(s.workers, j);
    SumIsMultiplicity(s.results, j);
    SumIsMultiplicity(s.failures, j);
  }

  lemma {:induction false} HeldBounds(ws: seq<Worker>, j: nat)
    ensures Sum(ws, j, GoodHeld) + Sum(ws, j, BadCounted) <= Sum(ws, j, OfWorker)
  {
    if ws != [] {
      HeldBounds(ws[1..], j);
    }
  }

  // ---------------------------------------------------------- handler traces

  ghost predicate Genuine(run: HandlerRun) { exists a: Attempt :: run == RunOf(a) }

  ghost predicate GenuinePast(past: seq<HandlerRun>) { forall k | 0 <= k < |past| :: Genuine(past[k]) }

  ghost predicate GenuineState(s: State) {
    && (forall i | 0 <= i < |s.queue| :: GenuinePast(s.queue[i].past))
    && (forall i | 0 <= i < |s.workers| && Holds(s.workers[i]) :: GenuinePast(s.workers[i].env.past))
    && (forall i | 0 <= i < |s.done| :: GenuinePast(s.done[i].past))
    && (forall i | 0 <= i < |s.dropped| :: GenuinePast(s.dropped[i].past))
  }

  lemma GenuineAppend(past: seq<HandlerRun>, a: Attempt)
    requires GenuinePast(past)
    ensures GenuinePast(past + [RunOf(a)])
  {
  }

  lemma StepKeepsGenuine(cfg: Config, s: State, a: Action)
    requires Enabled(cfg, s, a) && GenuineState(s)
    ensures GenuineState(Do(cfg, s, a))
  {
    if a.Step? && a.move.Finish? {
      GenuineAppend(s.workers[a.w].env.past, a.move.attempt);
    }
  }

  lemma {:induction false} RunKeepsGenuine(cfg: Config, s: State, acts: seq<Action>)
    requires CanRun(cfg, s, acts) && GenuineState(s)
    ensures GenuineState(Run(cfg, s, acts))
    decreases |acts|
  {
    if acts != [] {
      StepKeepsGenuine(cfg, s, acts[0]);
      RunKeepsGenuine(cfg, Do(cfg, s, acts[0]), acts[1..]);
    }
  }

  lemma PrefixIsOrderly(events: seq<Event>, n: nat)
    requires Orderly(events) && n <= |events|
    ensures Orderly(events[..n])
  {
  }

  lemma GenuineIsOrderly(run: HandlerRun)
    requires Genuine(run)
    ensures Orderly(run.events) && (run.outcome.Panicked? || TraceSafe(run))
  {
    var a: Attempt :| run == RunOf(a);
    HandleIsTraceSafe(a.probe);
    if a.Panics? && a.effects < |Handle(a.probe).events| {
      PrefixIsOrderly(Handle(a.probe).events, a.effects);
    }
  }

  /** Over all runs and retries, for every handler run of every job wherever the job is: Configure
      only after a passed preflight and a rollback only after a failure of the same name, even when
      the handler panicked; and if it returned, one rollback after each failure and success only
      when up to date or configured and seen UP. */
  lemma TracesAreSafe(cfg: Config, acts: seq<Action>, past: seq<HandlerRun>, k: nat)
    requires CanRun(cfg, Init(cfg), acts) && Carries(Run(cfg, Init(cfg), acts), past) && k < |past|
    ensures Orderly(past[k].events) && (past[k].outcome.Panicked? || TraceSafe(past[k]))
  {
    RunKeepsGenuine(cfg, Init(cfg), acts);
    assert GenuinePast(past);
    GenuineIsOrderly(past[k]);
  }

  /** Every handler run of a finished job but the last was retried, and the last was not. */
  lemma RetriedIffNotLast(cfg: Config, acts: seq<Action>, i: nat, k: nat)
    requires CanRun(cfg, Init(cfg), acts)
    requires i < |Run(cfg, Init(cfg), acts).done| && k < |Run(cfg, Init(cfg), acts).done[i].past|
    ensures var past := Run(cfg, Init(cfg), acts).done[i].past;
            k < |past| - 1 <==> Retries(cfg, past[k].outcome, k)
  {
    InitInv(cfg);
    RunKeepsInv(cfg, Init(cfg), acts);
    var past := Run(cfg, Init(cfg), acts).done[i].past;
    assert Ended(cfg, past);
    if k < |past| - 1 {
      assert past[..|past| - 1][k] == past[k];
    }
  }

  /** A timeout, network, system or resource error. */
  predicate Transient(o: Outcome) {
    && o.Errored? && o.error.Domain?
    && var k := o.error.kind; k == Timeout || k == Network || k == System || k == Resource
  }

  /** How often a job is tried: a run that succeeded, panicked or ended in any other error is its
      last; every run before the last ended in a transient error; and a job gives up on a transient
      error only after exactly maxRetries + 1 runs. */
  lemma TriedUntilSettled(cfg: Config, acts: seq<Action>, i: nat)
    requires CanRun(cfg, Init(cfg), acts) && i < |Run(cfg, Init(cfg), acts).done|
    ensures var past := Run(cfg, Init(cfg), acts).done[i].past;
            && 0 < |past| <= cfg.maxRetries + 1
            && (forall k | 0 <= k < |past| - 1 :: Transient(past[k].outcome))
            && (forall k | 0 <= k < |past| && !Transient(past[k].outcome) :: k == |past| - 1)
            && (Transient(past[|past| - 1].outcome) ==> |past| == cfg.maxRetries + 1)
  {
    InitInv(cfg);
    RunKeepsInv(cfg, Init(cfg), acts);
    var past := Run(cfg, Init(cfg), acts).done[i].past;
    assert Ended(cfg, past);
    forall k | 0 <= k < |past| - 1 ensures Transient(past[k].outcome) {
      assert past[..|past| - 1][k] == past[k];
    }
  }

  /** A job that is queued, waiting to be queued again or given up has seen transient errors only. */
  lemma UnsettledIsTransient(cfg: Config, acts: seq<Action>, past: seq<HandlerRun>)
    requires CanRun(cfg, Init(cfg), acts)
    requires var s := Run(cfg, Init(cfg), acts);
             || (exists i :: 0 <= i < |s.queue| && s.queue[i].past == past)
             || (exists i :: 0 <= i < |s.dropped| && s.dropped[i].past == past)
    ensures |past| <= cfg.maxRetries && forall k | 0 <= k < |past| :: Transient(past[k].outcome)
  {
    InitInv(cfg);
    RunKeepsInv(cfg, Init(cfg), acts);
    var s := Run(cfg, Init(cfg), acts);
    if i :| 0 <= i < |s.queue| && s.queue[i].past == past {
      assert Between(cfg, s.queue[i]);
    } else {
      var i :| 0 <= i < |s.dropped| && s.dropped[i].past == past;
      assert WorkerOk(cfg, Sleeping(s.dropped[i]));
    }
  }

  // ------------------------------------------------------------- termination

  function Left(e: Envelope, r: nat): nat { if e.attempt <= r then 7 * (r - e.attempt) else 0 }

  function EnvelopeWeight(e: Envelope, r: nat): nat { Left(e, r) + 9 }

  function WorkerWeight(w: Worker, r: nat): nat {
    match w
    case Idle => 1
    case Taken(e) => Left(e, r) + 8
    case Handling(e) => Left(e, r) + 7
    case Sleeping(e) => Left(e, r) + 6
    case Sending(e) => Left(e, r) + 12
    case Reporting(_, _) => 5
    case Counted(_, _) => 4
    case Leaving => 2
    case Exited => 0
  }

  /** The weight of k jobs not yet sent. */
  function Unsent(k: int, r: nat): nat
    decreases k
  {
    if k <= 0 then 0 else 7 * r + 11 + Unsent(k - 1, r)
  }

  function ClientWeight(cfg: Config, s: State): nat {
    match s.client
    case AddNext => Unsent(cfg.jobs - s.submitted, cfg.maxRetries) + 4
    case SendNext => Unsent(cfg.jobs - s.submitted, cfg.maxRetries) + 3
    case AwaitAll => 2
    case Close => 1
    case Returned => 0
  }

  function Measure(cfg: Config, s: State): nat {
    ClientWeight(cfg, s) + Sum(s.queue, cfg.maxRetries, EnvelopeWeight) + Sum(s.workers, cfg.maxRetries, WorkerWeight)
    + if s.cancelled then 0 else 1
  }

  lemma MoveWeight(cfg: Config, s: State, x: Worker, m: Move)
    requires MoveEnabled(cfg, s, x, m) && WorkerOk(cfg, x)
    ensures var x' := NextWorker(cfg, s, x, m);
            WorkerWeight(x', cfg.maxRetries) + (if m.Requeue? then EnvelopeWeight(x.env, cfg.maxRetries) else 0)
            < WorkerWeight(x, cfg.maxRetries) + (if m.Dequeue? then EnvelopeWeight(s.queue[0], cfg.maxRetries) else 0)
  {
  }

  lemma QueueWeight(cfg: Config, s: State, x: Worker, m: Move)
    requires MoveEnabled(cfg, s, x, m)
    ensures Sum(NextQueue(cfg, s, x, m), cfg.maxRetries, EnvelopeWeight)
            + (if m.Dequeue? then EnvelopeWeight(s.queue[0], cfg.maxRetries) else 0)
            == Sum(s.queue, cfg.maxRetries, EnvelopeWeight)
              + (if m.Requeue? then EnvelopeWeight(x.env, cfg.maxRetries) else 0)
  {
    if m.Requeue? {
      SumAppend(s.queue, x.env, cfg.maxRetries, EnvelopeWeight);
    }
  }

  lemma MoveDecreases(cfg: Config, s: State, w: nat, m: Move)
    requires w < |s.workers| && MoveEnabled(cfg, s, s.workers[w], m) && WorkerOk(cfg, s.workers[w])
    ensures Measure(cfg, DoMove(cfg, s, w, m)) < Measure(cfg, s)
  {
    var x := s.workers[w];
    MoveWeight(cfg, s, x, m);
    QueueWeight(cfg, s, x, m);
    SumUpdate(s.workers, w, NextWorker(cfg, s, x, m), cfg.maxRetries, WorkerWeight);
  }

  lemma StepDecreases(cfg: Config, s: State, a: Action)
    requires Inv(cfg, s) && Enabled(cfg, s, a)
    ensures Measure(cfg, Do(cfg, s, a)) < Measure(cfg, s)
  {
    if a.Step? {
      assert WorkerOk(cfg, s.workers[a.w]);
      MoveDecreases(cfg, s, a.w, a.move);
    } else if a.Send? {
      SumAppend(s.queue, Envelope(s.submitted, 0, []), cfg.maxRetries, EnvelopeWeight);
    }
  }

  lemma {:induction false} RunDecreases(cfg: Config, s: State, acts: seq<Action>)
    requires Inv(cfg, s) && CanRun(cfg, s, acts)
    ensures |acts| + Measure(cfg, Run(cfg, s, acts)) <= Measure(cfg, s)
    decreases |acts|
  {
    if acts != [] {
      StepDecreases(cfg, s, acts[0]);
      StepKeepsInv(cfg, s, acts[0]);
      RunDecreases(cfg, Do(cfg, s, acts[0]), acts[1..]);
    }
  }

  lemma {:induction false} UnsentIsProduct(k: nat, r: nat)
    ensures Unsent(k, r) == k * (7 * r + 11)
  {
    if k > 0 {
      UnsentIsProduct(k - 1, r);
    }
  }

  /** Every run, in any interleaving and whatever the handlers return, is at most this long. */
  lemma RunsAreBounded(cfg: Config, acts: seq<Action>)
    requires CanRun(cfg, Init(cfg), acts)
    ensures |acts| <= cfg.jobs * (7 * cfg.maxRetries + 11) + cfg.workers + 5
  {
    InitInv(cfg);
    RunDecreases(cfg, Init(cfg), acts);
    SumConstant(Init(cfg).workers, cfg.maxRetries, WorkerWeight, 1);
    UnsentIsProduct(cfg.jobs, cfg.maxRetries);
  }

  // --------------------------------------------------------- deadlock freedom

  /** The client has returned and every worker has left its loop. */
  predicate AllFinished(s: State) {
    s.client.Returned? && forall i | 0 <= i < |s.workers| :: s.workers[i].Exited?
  }

  /** With the queue sized to the jobs, as Execute does, no send ever blocks or meets a closed channel. */
  lemma SendsNeverBlock(cfg: Config, acts: seq<Action>)
    requires WellFormed(cfg) && cfg.capacity >= cfg.jobs && CanRun(cfg, Init(cfg), acts)
    ensures var s := Run(cfg, Init(cfg), acts);
            && (s.client.SendNext? ==> Enabled(cfg, s, Send))
            && (forall w | 0 <= w < |s.workers| && s.workers[w].Sending? :: Enabled(cfg, s, Step(w, Requeue)))
  {
    InitInv(cfg);
    RunKeepsInv(cfg, Init(cfg), acts);
    var s := Run(cfg, Init(cfg), acts);
    forall w | 0 <= w < |s.workers| && s.workers[w].Sending? ensures Enabled(cfg, s, Step(w, Requeue)) {
      SumIncludes(s.workers, w, 0, HoldsOne);
      if s.closed {
        NothingHeld(cfg, s, w);
      }
    }
  }

  /** An attempt on a device that is not there. */
  const ABSENT := Probe(Missing, false, Option.None, false, false, false, Missing, Option.None)

  /** The move of a worker that is neither waiting for a job nor sending. */
  function OwnMove(x: Worker): Move
    requires !x.Idle? && !x.Exited? && !x.Sending?
  {
    match x
    case Taken(_) => Activate
    case Handling(_) => Finish(Returns(ABSENT))
    case Sleeping(_) => Wake
    case Reporting(_, _) => Count
    case Counted(_, _) => Done
    case Leaving => Deactivate
  }

  lemma ClientProgress(cfg: Config, s: State) returns (a: Action)
    requires Inv(cfg, s) && WellFormed(cfg) && !s.cancelled && !s.client.Returned?
    requires s.queue == [] && forall i | 0 <= i < |s.workers| :: !Holds(s.workers[i])
    ensures !a.Cancel? && Enabled(cfg, s, a)
  {
    SumConstant(s.workers, 0, HoldsOne, 0);
    a := match s.client
      case AddNext => if s.submitted < cfg.jobs then Add else StartWait
      case SendNext => Send
      case AwaitAll => WaitDone
      case Close => CloseJobs;
  }

  /** Fewer jobs than queue slots and workers together: some step other than cancellation is enabled. */
  lemma Progress(cfg: Config, s: State) returns (a: Action)
    requires Inv(cfg, s) && WellFormed(cfg) && !s.cancelled && !AllFinished(s)
    requires cfg.jobs < cfg.capacity + cfg.workers
    ensures !a.Cancel? && Enabled(cfg, s, a)
  {
    if w :| 0 <= w < |s.workers| && !s.workers[w].Idle? && !s.workers[w].Exited? && !s.workers[w].Sending? {
      a := Step(w, OwnMove(s.workers[w]));
    } else if s.client.Returned? {
      var w :| 0 <= w < |s.workers| && !s.workers[w].Exited?;
      NothingHeld(cfg, s, w);
      a := Step(w, ExitClosed);
    } else if w :| 0 <= w < |s.workers| && s.workers[w].Sending? && |s.queue| < cfg.capacity {
      a := Step(w, Requeue);
    } else if w :| 0 <= w < |s.workers| && s.workers[w].Idle? && s.queue != [] {
      a := Step(w, Dequeue);
    } else if w :| 0 <= w < |s.workers| && s.workers[w].Sending? {
      SumConstant(s.workers, 0, HoldsOne, 1);
      assert false;
    } else {
      assert s.workers[0].Idle?;
      a := ClientProgress(cfg, s);
    }
  }
}
