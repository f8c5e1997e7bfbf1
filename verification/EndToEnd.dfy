/** The whole path: resource spec, loaded interfaces, a run of the worker pool, exit status,
    termination summary, resource state and per-interface statuses. */
module EndToEnd {
  import opened Sums
  import opened WorkerPool
  import opened PoolTheorems
  import opened Loader
  import opened ResultPath
  import Controller
  import Listing
  import CR = ControllerRuns
  import CC = ControllerConvergence

  lemma {:induction false} SumPositive<T>(xs: seq<T>, j: nat, f: (T, nat) -> nat) returns (i: nat)
    requires Sum(xs, j, f) > 0
    ensures i < |xs| && f(xs[i], j) > 0
  {
    if f(xs[0], j) > 0 {
      i := 0;
    } else {
      i := SumPositive(xs[1..], j, f);
      i := i + 1;
    }
  }

  /** The pool of an agent whose spec is loaded. */
  function PoolFor(spec: seq<SpecEntry>, ck: Checks, tasks: int, retries: int): Config {
    ExecuteConfig(|Kept(spec, ck)|, tasks, retries)
  }

  /** Execute has returned after the run acts. */
  predicate Completes(cfg: Config, acts: seq<Action>) {
    CanRun(cfg, Init(cfg), acts) && Run(cfg, Init(cfg), acts).client.Returned?
  }

  /** The last handler run of interface k did not succeed. */
  ghost predicate JobFailed(s: State, k: nat) {
    exists i :: 0 <= i < |s.done| && s.done[i].job == k && !LastSucceeded(s.done[i].past)
  }

  /** The failure list names exactly the interfaces whose last handler run did not succeed. */
  lemma FailuresAreTheFailed(cfg: Config, acts: seq<Action>, k: nat)
    requires Completes(cfg, acts)
    ensures var s := Run(cfg, Init(cfg), acts);
            && (k in s.failures ==> k < cfg.jobs)
            && (k in s.failures <==> JobFailed(s, k))
  {
    var s := Run(cfg, Init(cfg), acts);
    ReturnedOutput(cfg, acts);
    if k in s.failures {
      assert multiset(s.results)[k] + multiset(s.failures)[k] == if k < cfg.jobs then 1 else 0;
      InitInv(cfg);
      RunKeepsInv(cfg, Init(cfg), acts);
      SumIsMultiplicity(s.failures, k);
      SumConstant(s.workers, k, BadCounted, 0);
      var i := SumPositive(s.done, k, BadDone);
    }
    if JobFailed(s, k) {
      var i :| 0 <= i < |s.done| && s.done[i].job == k && !LastSucceeded(s.done[i].past);
      ListsTellTheTruth(cfg, acts, i);
    }
  }

  /** The Job after the agent has run, its summary having reached the controller. */
  function Outcome(job: Controller.Job, s: State, env: string): Ended {
    JobAfter(job, s.processed, s.failed, |s.failures|, env, true)
  }

  /** The resource becomes Configured exactly when every loaded interface's last handler run
      succeeded, and Failed otherwise, whatever the partial-failure setting. */
  lemma StateIsTrue(cfg: Config, acts: seq<Action>, job: Controller.Job, env: string)
    requires Completes(cfg, acts) && job.succeeded == 0
    ensures var s := Run(cfg, Init(cfg), acts);
            && (StateAfter(Outcome(job, s, env)).Configured? <==> forall k: nat :: !JobFailed(s, k))
            && (StateAfter(Outcome(job, s, env)).Failed? <==> exists k: nat :: JobFailed(s, k))
  {
    var s := Run(cfg, Init(cfg), acts);
    ReturnedOutput(cfg, acts);
    VerdictIff(job, s.processed, s.failed, env, true);
    forall k: nat ensures JobFailed(s, k) <==> k in s.failures {
      FailuresAreTheFailed(cfg, acts, k);
    }
    if s.failures != [] {
      assert JobFailed(s, s.failures[0]);
    }
  }

  /** From the workers to the stored resource: a completed run of the pool ends the Job, the Job is
      listed, and the list is worked off in any interleaving that leaves this Job and its pods
      alone. Then the stored resource is Configured if no interface failed, and Failed otherwise. */
  lemma StoredStateIsTrue(
      cfg: Config, acts: seq<Action>, setting: string,
      env: CR.Env, w: CR.World, name: string, js: seq<string>, work: seq<CR.Action>)
    requires Completes(cfg, acts)
    requires env.delay <= 0 && CR.Shape(w) && w.phase == CR.Reconciling([])
    requires name in w.c.jobs && w.c.jobs[name].succeeded == 0
    requires var o := Outcome(w.c.jobs[name], Run(cfg, Init(cfg), acts), setting);
             var ok := o.job.succeeded > 0;
             && Listing.Lists(CR.DoFinish(w, name, ok, o.reported).c.jobs, js)
             && var w' := CC.ListedAfter(w, name, ok, o.reported, js);
                CR.CanRun(env, w', work) && CR.Run(env, w', work).phase == CR.Processing([])
    requires (forall a | a in work :: !a.StartCycle?) && CC.Untouched(work, name)
    ensures var s, n := Run(cfg, Init(cfg), acts), w.c.jobs[name].node;
            var o := Outcome(w.c.jobs[name], s, setting);
            var crs := CR.Run(env, CC.ListedAfter(w, name, o.job.succeeded > 0, o.reported, js), work).c.crs;
            && n in crs
            && (crs[n].state.Configured? <==> forall k: nat :: !JobFailed(s, k))
            && (crs[n].state.Failed? <==> exists k: nat :: JobFailed(s, k))
  {
    var o := Outcome(w.c.jobs[name], Run(cfg, Init(cfg), acts), setting);
    StateIsTrue(cfg, acts, w.c.jobs[name], setting);
    CC.FinishedJobDecides(env, w, name, o.job.succeeded > 0, o.reported, js, work);
  }

  /** Entry p was loaded and the last handler run of its interface did not succeed. */
  ghost predicate EntryFailed(spec: seq<SpecEntry>, ck: Checks, s: State, p: nat) {
    exists k: nat :: k < |Kept(spec, ck)| && Kept(spec, ck)[k] == p && JobFailed(s, k)
  }

  lemma FailuresInRange(spec: seq<SpecEntry>, ck: Checks, tasks: int, retries: int, acts: seq<Action>)
    requires Completes(PoolFor(spec, ck, tasks, retries), acts)
    ensures var cfg := PoolFor(spec, ck, tasks, retries);
            InRange(spec, ck, Run(cfg, Init(cfg), acts).failures)
  {
    var cfg := PoolFor(spec, ck, tasks, retries);
    var s := Run(cfg, Init(cfg), acts);
    forall i | 0 <= i < |s.failures| ensures s.failures[i] < |Kept(spec, ck)| {
      FailuresAreTheFailed(cfg, acts, s.failures[i]);
    }
  }

  lemma OwnFailedIffEntryFailed(spec: seq<SpecEntry>, ck: Checks, tasks: int, retries: int, acts: seq<Action>, p: nat)
    requires Completes(PoolFor(spec, ck, tasks, retries), acts)
    ensures var cfg := PoolFor(spec, ck, tasks, retries);
            var s := Run(cfg, Init(cfg), acts);
            InRange(spec, ck, s.failures) && (OwnFailed(spec, ck, s.failures, p) <==> EntryFailed(spec, ck, s, p))
  {
    var cfg := PoolFor(spec, ck, tasks, retries);
    var s := Run(cfg, Init(cfg), acts);
    FailuresInRange(spec, ck, tasks, retries, acts);
    if OwnFailed(spec, ck, s.failures, p) {
      var i :| 0 <= i < |s.failures| && Kept(spec, ck)[s.failures[i]] == p;
      FailuresAreTheFailed(cfg, acts, s.failures[i]);
    }
    if EntryFailed(spec, ck, s, p) {
      var k: nat :| k < |Kept(spec, ck)| && Kept(spec, ck)[k] == p && JobFailed(s, k);
      FailuresAreTheFailed(cfg, acts, k);
    }
  }

  /** When no failure can be charged to a foreign entry, an entry is marked Failed in the resource
      exactly when its own interface's last handler run did not succeed: for every schedule of the
      workers, every retry pattern and every order in which the failures were recorded. */
  lemma StatusesAreTrue(
      spec: seq<SpecEntry>, ck: Checks, tasks: int, retries: int, acts: seq<Action>,
      reason: nat -> string, job: Controller.Job, env: string, p: nat)
    requires CrossTalkFree(spec, ck) && p < |spec| && job.succeeded == 0
    requires Completes(PoolFor(spec, ck, tasks, retries), acts)
    ensures var cfg := PoolFor(spec, ck, tasks, retries);
            var s := Run(cfg, Init(cfg), acts);
            && InRange(spec, ck, s.failures)
            && (MarkedFailed(Outcome(job, s, env).job, spec, Report(spec, ck, s.failures, reason), p)
                <==> EntryFailed(spec, ck, s, p))
  {
    var cfg := PoolFor(spec, ck, tasks, retries);
    var s := Run(cfg, Init(cfg), acts);
    ReturnedOutput(cfg, acts);
    OwnFailedIffEntryFailed(spec, ck, tasks, retries, acts, p);
    MarkedIffOwnFailed(spec, ck, s.failures, reason, p);
    assert |Report(spec, ck, s.failures, reason)| == |s.failures|;
  }

  /** The same for specs written after the documented convention. */
  lemma ConventionalStatusesAreTrue(
      spec: seq<SpecEntry>, ck: Checks, tasks: int, retries: int, acts: seq<Action>,
      reason: nat -> string, job: Controller.Job, env: string, p: nat)
    requires Conventional(spec) && p < |spec| && job.succeeded == 0
    requires Completes(PoolFor(spec, ck, tasks, retries), acts)
    ensures var cfg := PoolFor(spec, ck, tasks, retries);
            var s := Run(cfg, Init(cfg), acts);
            && InRange(spec, ck, s.failures)
            && (MarkedFailed(Outcome(job, s, env).job, spec, Report(spec, ck, s.failures, reason), p)
                <==> EntryFailed(spec, ck, s, p))
  {
    ConventionSuffices(spec, ck);
    StatusesAreTrue(spec, ck, tasks, retries, acts, reason, job, env, p);
  }
}
