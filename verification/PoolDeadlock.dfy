/** Exactly which queue sizes keep the pool free of deadlock, and what cancellation costs. */
module PoolDeadlock {
  import opened Text
  import opened Handler
  import opened WorkerPool
  import opened PoolTheorems

  /** No run without cancellation gets stuck before Execute has returned and the workers have left. */
  ghost predicate DeadlockFree(cfg: Config) {
    forall acts: seq<Action> | CanRun(cfg, Init(cfg), acts) && !Run(cfg, Init(cfg), acts).cancelled ::
      AllFinished(Run(cfg, Init(cfg), acts)) || Live(cfg, Run(cfg, Init(cfg), acts))
  }

  ghost predicate Live(cfg: Config, s: State) { exists a: Action :: !a.Cancel? && Enabled(cfg, s, a) }

  lemma {:induction false} RunAppend(cfg: Config, s: State, acts: seq<Action>, a: Action)
    requires CanRun(cfg, s, acts) && Enabled(cfg, Run(cfg, s, acts), a)
    ensures CanRun(cfg, s, acts + [a]) && Run(cfg, s, acts + [a]) == Do(cfg, Run(cfg, s, acts), a)
    decreases |acts|
  {
    if acts == [] {
      assert acts + [a] == [a] && [a][1..] == [];
      assert CanRun(cfg, Do(cfg, s, a), []);
    } else {
      RunAppend(cfg, Do(cfg, s, acts[0]), acts[1..], a);
      assert (acts + [a])[1..] == acts[1..] + [a];
    }
  }

  /** An attempt whose Configure fails: a network error, so it is retried. */
  const NET_FAIL := Returns(Probe(Present("multinic0", false, false, false, false, false), false,
                                 Some("multinic0"), true, false, true, Missing, None))

  lemma NetFailIsRetried(cfg: Config)
    requires WellFormed(cfg)
    ensures Retries(cfg, RunOf(NET_FAIL).outcome, 0) && !RunOf(NET_FAIL).outcome.Succeeded?
  {
  }

  function Retried(j: nat): Envelope { Envelope(j, 1, [RunOf(NET_FAIL)]) }

  function Fresh(lo: nat, n: nat): seq<Envelope> { seq(n, (i: nat) => Envelope(lo + i, 0, [])) }

  /** The first i workers wait to re-enqueue their job, the others are idle, q jobs are queued. */
  function Parked(cfg: Config, i: nat, q: nat): State {
    State(AddNext, i + q, i + q, Fresh(i, q), false, false,
          seq(cfg.workers, k => if 0 <= k < i then Sending(Retried(k)) else Idle), i,
          0, 0, [], [], [], [])
  }

  /** One more job is submitted, picked up, handled and due for its retry. */
  function ParkOne(i: nat): seq<Action> {
    [Add, Send, Step(i, Dequeue), Step(i, Activate), Step(i, Finish(NET_FAIL)), Step(i, Wake)]
  }

  lemma ParkSubmit(cfg: Config, i: nat)
    requires WellFormed(cfg) && i < cfg.workers && i < cfg.jobs
    ensures var s := Parked(cfg, i, 0);
            && Enabled(cfg, s, Add) && Enabled(cfg, Do(cfg, s, Add), Send)
            && var s2 := Do(cfg, Do(cfg, s, Add), Send);
               s2 == s.(submitted := i + 1, wg := i + 1, queue := [Envelope(i, 0, [])])
  {
  }

  lemma ParkReceive(cfg: Config, s: State, i: nat)
    requires WellFormed(cfg) && i < |s.workers| && s.workers[i].Idle? && s.queue == [Envelope(i, 0, [])]
    ensures var a, b := Step(i, Dequeue), Step(i, Activate);
            && Enabled(cfg, s, a) && Enabled(cfg, Do(cfg, s, a), b)
            && Do(cfg, Do(cfg, s, a), b) ==
               s.(workers := s.workers[i := Handling(Envelope(i, 0, []))], queue := [], active := s.active + 1)
  {
  }

  lemma ParkRetry(cfg: Config, s: State, i: nat)
    requires WellFormed(cfg) && i < |s.workers| && s.workers[i] == Handling(Envelope(i, 0, [])) && !s.cancelled
    ensures var c, d := Step(i, Finish(NET_FAIL)), Step(i, Wake);
            && Enabled(cfg, s, c) && Enabled(cfg, Do(cfg, s, c), d)
            && Do(cfg, Do(cfg, s, c), d) == s.(workers := s.workers[i := Sending(Retried(i))])
  {
    NetFailIsRetried(cfg);
    assert [] + [RunOf(NET_FAIL)] == [RunOf(NET_FAIL)];
    var s3 := Do(cfg, s, Step(i, Finish(NET_FAIL)));
    assert s3 == s.(workers := s.workers[i := Sleeping(Envelope(i, 0, [RunOf(NET_FAIL)]))]);
  }

  lemma ParkWork(cfg: Config, i: nat)
    requires WellFormed(cfg) && i < cfg.workers && i < cfg.jobs
    ensures var s := Parked(cfg, i, 0).(submitted := i + 1, wg := i + 1, queue := [Envelope(i, 0, [])]);
            var acts := ParkOne(i)[2..];
            CanRun(cfg, s, acts) && Run(cfg, s, acts) == Parked(cfg, i + 1, 0)
  {
    var s := Parked(cfg, i, 0).(submitted := i + 1, wg := i + 1, queue := [Envelope(i, 0, [])]);
    ParkReceive(cfg, s, i);
    ParkRetry(cfg, s.(workers := s.workers[i := Handling(Envelope(i, 0, []))], queue := [], active := s.active + 1), i);
    ParkedWorkers(cfg, i);
    RunFour(cfg, s, Step(i, Dequeue), Step(i, Activate), Step(i, Finish(NET_FAIL)), Step(i, Wake));
    assert ParkOne(i)[2..] == [Step(i, Dequeue), Step(i, Activate), Step(i, Finish(NET_FAIL)), Step(i, Wake)];
  }

  lemma ParkedWorkers(cfg: Config, i: nat)
    requires i < cfg.workers
    ensures Parked(cfg, i, 0).workers[i := Sending(Retried(i))] == Parked(cfg, i + 1, 0).workers
    ensures Fresh(i, 0) == [] && Fresh(i + 1, 0) == []
  {
  }

  lemma RunFour(cfg: Config, s: State, a: Action, b: Action, c: Action, d: Action)
    requires Enabled(cfg, s, a) && Enabled(cfg, Do(cfg, s, a), b)
    requires Enabled(cfg, Do(cfg, Do(cfg, s, a), b), c)
    requires Enabled(cfg, Do(cfg, Do(cfg, Do(cfg, s, a), b), c), d)
    ensures CanRun(cfg, s, [a, b, c, d])
    ensures Run(cfg, s, [a, b, c, d]) == Do(cfg, Do(cfg, Do(cfg, Do(cfg, s, a), b), c), d)
  {
    assert CanRun(cfg, s, []);
    RunAppend(cfg, s, [], a);
    RunAppend(cfg, s, [] + [a], b);
    RunAppend(cfg, s, [] + [a] + [b], c);
    RunAppend(cfg, s, [] + [a] + [b] + [c], d);
    assert [] + [a] + [b] + [c] + [d] == [a, b, c, d];
  }

  lemma {:induction false} RunConcat(cfg: Config, s: State, xs: seq<Action>, ys: seq<Action>)
    requires CanRun(cfg, s, xs) && CanRun(cfg, Run(cfg, s, xs), ys)
    ensures CanRun(cfg, s, xs + ys) && Run(cfg, s, xs + ys) == Run(cfg, Run(cfg, s, xs), ys)
    decreases |xs|
  {
    if xs == [] {
      assert xs + ys == ys;
    } else {
      RunConcat(cfg, Do(cfg, s, xs[0]), xs[1..], ys);
      assert (xs + ys)[1..] == xs[1..] + ys;
    }
  }

  /** Any number of workers can all be made to wait for the same full queue. */
  lemma {:induction false} CanPark(cfg: Config, i: nat) returns (acts: seq<Action>)
    requires WellFormed(cfg) && i <= cfg.workers && i <= cfg.jobs
    ensures CanRun(cfg, Init(cfg), acts) && Run(cfg, Init(cfg), acts) == Parked(cfg, i, 0)
  {
    if i == 0 {
      acts := [];
      assert Parked(cfg, 0, 0) == Init(cfg);
    } else {
      acts := CanPark(cfg, i - 1);
      ParkSubmit(cfg, i - 1);
      ParkWork(cfg, i - 1);
      RunAppend(cfg, Init(cfg), acts, Add);
      RunAppend(cfg, Init(cfg), acts + [Add], Send);
      RunConcat(cfg, Init(cfg), acts + [Add] + [Send], ParkOne(i - 1)[2..]);
      acts := acts + [Add] + [Send] + ParkOne(i - 1)[2..];
    }
  }

  lemma {:induction false} CanFill(cfg: Config, q: nat) returns (acts: seq<Action>)
    requires WellFormed(cfg) && q <= cfg.capacity && cfg.workers + q <= cfg.jobs
    ensures CanRun(cfg, Init(cfg), acts) && Run(cfg, Init(cfg), acts) == Parked(cfg, cfg.workers, q)
  {
    if q == 0 {
      acts := CanPark(cfg, cfg.workers);
    } else {
      acts := CanFill(cfg, q - 1);
      assert Fresh(cfg.workers, q) == Fresh(cfg.workers, q - 1) + [Envelope(cfg.workers + q - 1, 0, [])];
      RunAppend(cfg, Init(cfg), acts, Add);
      RunAppend(cfg, Init(cfg), acts + [Add], Send);
      acts := acts + [Add] + [Send];
    }
  }

  /** The state in which every worker and the client wait for each other. */
  lemma ReachesDeadlock(cfg: Config) returns (acts: seq<Action>)
    requires WellFormed(cfg) && cfg.jobs >= cfg.capacity + cfg.workers
    ensures CanRun(cfg, Init(cfg), acts)
    ensures var s := Run(cfg, Init(cfg), acts); !s.cancelled && !s.client.Returned? && !Live(cfg, s)
  {
    acts := CanFill(cfg, cfg.capacity);
    var s := Parked(cfg, cfg.workers, cfg.capacity);
    var last := if cfg.jobs == cfg.capacity + cfg.workers then StartWait else Add;
    RunAppend(cfg, Init(cfg), acts, last);
    acts := acts + [last];
    var stuck := Do(cfg, s, last);
    forall a: Action ensures a.Cancel? || !Enabled(cfg, stuck, a) {
      if a.Step? && a.w < cfg.workers {
        assert stuck.workers[a.w] == Sending(Retried(a.w));
      }
    }
  }

  /** The pool is free of deadlock exactly when the jobs are fewer than the queue slots and the
      workers together. Execute's queue has a slot for every job, so it always qualifies; a queue
      sized by the worker count alone would not. */
  lemma DeadlockFreeIff(cfg: Config)
    requires WellFormed(cfg)
    ensures DeadlockFree(cfg) <==> cfg.jobs < cfg.capacity + cfg.workers
  {
    if cfg.jobs < cfg.capacity + cfg.workers {
      forall acts: seq<Action> | CanRun(cfg, Init(cfg), acts) && !Run(cfg, Init(cfg), acts).cancelled
        ensures AllFinished(Run(cfg, Init(cfg), acts)) || Live(cfg, Run(cfg, Init(cfg), acts))
      {
        InitInv(cfg);
        RunKeepsInv(cfg, Init(cfg), acts);
        if !AllFinished(Run(cfg, Init(cfg), acts)) {
          var a := Progress(cfg, Run(cfg, Init(cfg), acts));
        }
      }
    } else {
      var acts := ReachesDeadlock(cfg);
    }
  }

  /** Execute's wg.Wait returns in every uncancelled run that is continued until nothing more can happen. */
  lemma ExecuteReturns(jobs: nat, maxConcurrentTasks: int, maxRetries: int, acts: seq<Action>)
    requires var cfg := ExecuteConfig(jobs, maxConcurrentTasks, maxRetries);
             && CanRun(cfg, Init(cfg), acts) && !Run(cfg, Init(cfg), acts).cancelled
             && !Live(cfg, Run(cfg, Init(cfg), acts))
    ensures var cfg := ExecuteConfig(jobs, maxConcurrentTasks, maxRetries);
            var s := Run(cfg, Init(cfg), acts);
            AllFinished(s) && s.processed + s.failed == jobs
  {
    var cfg := ExecuteConfig(jobs, maxConcurrentTasks, maxRetries);
    DeadlockFreeIff(cfg);
    ReturnedOutput(cfg, acts);
  }

  // ------------------------------------------------------------- cancellation

  /** Every run that cannot go on has returned, cancelled or not. */
  ghost predicate AlwaysReturns(cfg: Config) {
    forall acts: seq<Action> | CanRun(cfg, Init(cfg), acts) && !Live(cfg, Run(cfg, Init(cfg), acts)) ::
      Run(cfg, Init(cfg), acts).client.Returned?
  }

  /** A run that cannot go on has returned exactly when every job's after-hook has run. */
  lemma StuckReturnedIff(cfg: Config, acts: seq<Action>)
    requires CanRun(cfg, Init(cfg), acts) && !Live(cfg, Run(cfg, Init(cfg), acts))
    ensures var s := Run(cfg, Init(cfg), acts); s.client.Returned? <==> |s.done| == cfg.jobs
  {
    InitInv(cfg);
    RunKeepsInv(cfg, Init(cfg), acts);
    var s := Run(cfg, Init(cfg), acts);
    if !s.client.Returned? && |s.done| == cfg.jobs {
      var a := if s.client.AddNext? then StartWait else if s.client.AwaitAll? then WaitDone else CloseJobs;
      assert Enabled(cfg, s, a);
    }
  }

  /** A job whose back-off ends under cancellation is given up; otherwise it goes back with one more
      attempt on its count. */
  lemma WakeGivesUpIff(cfg: Config, s: State, w: nat)
    requires Enabled(cfg, s, Step(w, Wake))
    ensures var s', e := Do(cfg, s, Step(w, Wake)), s.workers[w].env;
            && (s.cancelled ==> s'.dropped == s.dropped + [e] && s'.workers[w] == Leaving && s'.queue == s.queue)
            && (!s.cancelled ==> s'.dropped == s.dropped && s'.workers[w] == Sending(e.(attempt := e.attempt + 1)))
  {
  }

  lemma {:induction false} DroppedStays(cfg: Config, s: State, acts: seq<Action>)
    requires CanRun(cfg, s, acts)
    ensures |s.dropped| <= |Run(cfg, s, acts).dropped|
    decreases |acts|
  {
    if acts != [] {
      DroppedStays(cfg, Do(cfg, s, acts[0]), acts[1..]);
    }
  }

  /** Once a job has been given up no continuation of the run returns from wg.Wait. */
  lemma GivenUpNeverReturns(cfg: Config, acts: seq<Action>, more: seq<Action>)
    requires CanRun(cfg, Init(cfg), acts) && Run(cfg, Init(cfg), acts).dropped != []
    requires CanRun(cfg, Run(cfg, Init(cfg), acts), more)
    ensures !Run(cfg, Run(cfg, Init(cfg), acts), more).client.Returned?
  {
    RunConcat(cfg, Init(cfg), acts, more);
    DroppedStays(cfg, Run(cfg, Init(cfg), acts), more);
    if Run(cfg, Init(cfg), acts + more).client.Returned? {
      ReturnedOutput(cfg, acts + more);
    }
  }

  /** Cancelled; the first i workers have left, the others are idle, q jobs are queued. */
  function Deserted(cfg: Config, i: nat, q: nat): State {
    Init(cfg).(cancelled := true, submitted := q, wg := q, queue := Fresh(0, q),
               workers := seq(cfg.workers, k => if 0 <= k < i then Exited else Idle))
  }

  lemma {:induction false} CanLeave(cfg: Config, i: nat) returns (acts: seq<Action>)
    requires WellFormed(cfg) && i <= cfg.workers
    ensures CanRun(cfg, Init(cfg), acts) && Run(cfg, Init(cfg), acts) == Deserted(cfg, i, 0)
  {
    if i == 0 {
      acts := [Cancel];
      assert CanRun(cfg, Init(cfg), []);
      RunAppend(cfg, Init(cfg), [], Cancel);
      assert [] + [Cancel] == [Cancel];
      assert Deserted(cfg, 0, 0) == Do(cfg, Init(cfg), Cancel);
    } else {
      acts := CanLeave(cfg, i - 1);
      var s := Deserted(cfg, i - 1, 0);
      RunAppend(cfg, Init(cfg), acts, Step(i - 1, ExitCancelled));
      assert s.workers[i - 1 := Exited] == Deserted(cfg, i, 0).workers;
      acts := acts + [Step(i - 1, ExitCancelled)];
    }
  }

  lemma {:induction false} CanFillDeserted(cfg: Config, q: nat) returns (acts: seq<Action>)
    requires WellFormed(cfg) && q <= cfg.capacity && q <= cfg.jobs
    ensures CanRun(cfg, Init(cfg), acts) && Run(cfg, Init(cfg), acts) == Deserted(cfg, cfg.workers, q)
  {
    if q == 0 {
      acts := CanLeave(cfg, cfg.workers);
    } else {
      acts := CanFillDeserted(cfg, q - 1);
      assert Fresh(0, q) == Fresh(0, q - 1) + [Envelope(q - 1, 0, [])];
      RunAppend(cfg, Init(cfg), acts, Add);
      RunAppend(cfg, Init(cfg), acts + [Add], Send);
      acts := acts + [Add] + [Send];
    }
  }

  /** Any pool with a job can be made to hang: the context is cancelled, the workers leave, and the
      client waits for jobs that nobody takes. */
  lemma CancellationCanHang(cfg: Config) returns (acts: seq<Action>)
    requires WellFormed(cfg) && cfg.jobs > 0
    ensures CanRun(cfg, Init(cfg), acts)
    ensures var s := Run(cfg, Init(cfg), acts); s.cancelled && s.wg > 0 && forall a: Action :: !Enabled(cfg, s, a)
  {
    var q := if cfg.jobs <= cfg.capacity then cfg.jobs else cfg.capacity;
    acts := CanFillDeserted(cfg, q);
    var s := Deserted(cfg, cfg.workers, q);
    var last := if q == cfg.jobs then StartWait else Add;
    RunAppend(cfg, Init(cfg), acts, last);
    acts := acts + [last];
    var stuck := Do(cfg, s, last);
    forall a: Action ensures !Enabled(cfg, stuck, a) {
      if a.Step? && a.w < cfg.workers {
        assert stuck.workers[a.w] == Exited;
      }
    }
  }

  /** When cancellation is allowed, Execute is sure to return exactly when there is nothing to do. */
  lemma AlwaysReturnsIff(cfg: Config)
    requires WellFormed(cfg)
    ensures AlwaysReturns(cfg) <==> cfg.jobs == 0
  {
    if cfg.jobs > 0 {
      var acts := CancellationCanHang(cfg);
      assert !Live(cfg, Run(cfg, Init(cfg), acts));
      StuckReturnedIff(cfg, acts);
      InitInv(cfg);
      RunKeepsInv(cfg, Init(cfg), acts);
    } else {
      forall acts: seq<Action> | CanRun(cfg, Init(cfg), acts) && !Live(cfg, Run(cfg, Init(cfg), acts))
        ensures Run(cfg, Init(cfg), acts).client.Returned?
      {
        InitInv(cfg);
        RunKeepsInv(cfg, Init(cfg), acts);
        StuckReturnedIff(cfg, acts);
      }
    }
  }
}
