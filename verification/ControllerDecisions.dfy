/** Only a finished Job decides: what the controller leaves alone while a Job is still running. */
module ControllerDecisions {
  import opened Listing
  import opened Controller
  import opened ControllerRuns
  import opened ControllerConvergence

  /** The state that a finished Job of this kind does not touch again. */
  predicate AlreadySays(s: CrState, j: Job) {
    (j.succeeded > 0 && s.Configured?) || (j.succeeded == 0 && j.failed > 0 && s.Failed?)
  }

  /** A listed Job has an effect exactly when it has finished, its resource exists and does not say so
      already; then only the state of that resource changes and only that Job is deleted or doomed. */
  lemma ProcessActsIff(delay: int, c: Cluster, it: Item)
    ensures var n, c' := it.job.node, ProcessItem(delay, c, it);
            var acts := n in c.crs && Over(it.job) && !AlreadySays(c.crs[n].state, it.job);
            && (!acts ==> c' == c)
            && (acts ==>
                  && c'.crs.Keys == c.crs.Keys && (forall m | m in c.crs && m != n :: c'.crs[m] == c.crs[m])
                  && c'.crs[n] == c.crs[n].(state := c'.crs[n].state)
                  && (c'.crs[n].state.Configured? <==> it.job.succeeded > 0 && Reported(c, it.name) == 0)
                  && Final(c'.crs[n].state)
                  && (delay <= 0 ==> c'.jobs == c.jobs - {it.name} && c'.doomed == c.doomed)
                  && (delay > 0 ==> c'.jobs == c.jobs && c'.doomed == c.doomed + {it.name}))
  {
  }

  /** In any environment a resource becomes Configured or Failed only when a listed Job of its node
      with a success or a failure is processed. */
  lemma DecisionNeedsFinishedJob(env: Env, w: World, a: Action, n: string)
    requires Enabled(env, w, a) && n in w.c.crs && n in Do(env, w, a).c.crs
    requires Final(Do(env, w, a).c.crs[n].state) && Do(env, w, a).c.crs[n].state != w.c.crs[n].state
    ensures a.ProcessNext? && w.phase.items[0].job.node == n
    ensures w.phase.items[0].job.succeeded > 0 || w.phase.items[0].job.failed > 0
  {
  }

  /** In any environment the status of a stored Job changes only when it finishes: a Job that is there
      is never created again over itself. */
  lemma StatusChangesByFinish(env: Env, w: World, a: Action, k: string)
    requires Enabled(env, w, a) && k in w.c.jobs && k in Do(env, w, a).c.jobs
    requires Do(env, w, a).c.jobs[k] != w.c.jobs[k]
    ensures a.Finish? && a.job == k
  {
  }

  /** A Job appears only as the Job of the current generation of an undecided resource on a valid
      node, and starts with no success and no failure. */
  lemma JobAppearsByReconcile(env: Env, w: World, a: Action, k: string)
    requires Enabled(env, w, a) && k !in w.c.jobs && k in Do(env, w, a).c.jobs
    ensures a.ReconcileNext? && w.phase.todo != []
    ensures var n := w.phase.todo[0];
            && n in w.c.crs && n in a.nodes && k == JobName(n, w.c.crs[n].generation)
            && Do(env, w, a).c.jobs[k] == Job(n, w.c.crs[n].generation, 0, 0)
            && !(Final(w.c.crs[n].state) && w.c.crs[n].observed == w.c.crs[n].generation >= 1)
  {
  }

  /** A generation is taken up only by reconciling: observed becomes the generation, the state
      InProgress, and the last Job that generation's. */
  lemma ObservedByReconcile(env: Env, w: World, a: Action, n: string)
    requires Enabled(env, w, a) && n in w.c.crs && Do(env, w, a).c.crs[n].observed != w.c.crs[n].observed
    ensures a.ReconcileNext? && w.phase.todo[0] == n && n in a.nodes
    ensures var g := w.c.crs[n].generation; Do(env, w, a).c.crs[n] == CR(g, g, InProgress, JobName(n, g))
  {
  }

  /** An error leaves the store alone. */
  lemma ErrorChangesNothing(delay: int, nodes: set<string>, c: Cluster, n: string)
    requires !Reconcile(delay, nodes, c, n).1
    ensures Reconcile(delay, nodes, c, n).0 == c
  {
  }

  // ------------------------------------------------------- a cycle is such a run

  /** ProcessAll is a run of reconcile steps that ends the pass, or the cycle at the first error. */
  lemma {:induction false} PassIsRun(env: Env, w: World, nodes: set<string>) returns (acts: seq<Action>)
    requires w.phase.Reconciling?
    ensures CanRun(env, w, acts) && (forall a | a in acts :: a == ReconcileNext(nodes))
    ensures var (c, ok) := ReconcileAll(env.delay, nodes, w.c, w.phase.todo);
            Run(env, w, acts) == w.(c := c, phase := if ok then Reconciling([]) else Processing([]))
    decreases |w.phase.todo|
  {
    if w.phase.todo == [] {
      acts := [];
    } else {
      var w1 := DoReconcile(env, w, nodes);
      if w1.phase.Reconciling? {
        var rest := PassIsRun(env, w1, nodes);
        acts := [ReconcileNext(nodes)] + rest;
        assert acts[1..] == rest;
      } else {
        acts := [ReconcileNext(nodes)];
        assert acts[1..] == [] && CanRun(env, w1, []);
      }
    }
  }

  /** ProcessJobs is a run that works off the whole list. */
  lemma {:induction false} ListIsRun(env: Env, w: World) returns (acts: seq<Action>)
    requires w.phase.Processing?
    ensures CanRun(env, w, acts) && |acts| == |w.phase.items| && (forall a | a in acts :: a == ProcessNext)
    ensures Run(env, w, acts) == w.(c := ProcessItems(env.delay, w.c, w.phase.items), phase := Processing([]))
    decreases |w.phase.items|
  {
    if w.phase.items == [] {
      acts := [];
    } else {
      var rest := ListIsRun(env, DoProcess(env, w));
      acts := [ProcessNext] + rest;
      assert acts[1..] == rest;
    }
  }

  /** A pass that meets an error has done exactly what the resources before it required. */
  lemma {:induction false} StopsAtFirstError(
      delay: int, nodes: set<string>, c: Cluster, before: seq<string>, n: string, after: seq<string>)
    requires ReconcileAll(delay, nodes, c, before).1
    requires !Reconcilable(ReconcileAll(delay, nodes, c, before).0, nodes, n)
    ensures ReconcileAll(delay, nodes, c, before + [n] + after) == (ReconcileAll(delay, nodes, c, before).0, false)
    decreases |before|
  {
    var order := before + [n] + after;
    if before == [] {
      assert order[0] == n;
    } else {
      assert order[0] == before[0] && order[1..] == before[1..] + [n] + after;
      StopsAtFirstError(delay, nodes, Reconcile(delay, nodes, c, before[0]).0, before[1..], n, after);
    }
  }

  // -------------------------------------------------------------- running Jobs

  /** A listed Job that is still stored has at least the counts it was listed with. */
  predicate Follows(c: Cluster, it: Item) {
    it.name in c.jobs ==> it.job.succeeded <= c.jobs[it.name].succeeded && it.job.failed <= c.jobs[it.name].failed
  }

  ghost predicate Followed(w: World) {
    w.phase.Processing? ==> forall i | 0 <= i < |w.phase.items| :: Follows(w.c, w.phase.items[i])
  }

  lemma StepKeepsFollowed(env: Env, w: World, a: Action)
    requires Enabled(env, w, a) && Followed(w)
    ensures Followed(Do(env, w, a))
  {
    var w' := Do(env, w, a);
    if w'.phase.Processing? && w.phase.Processing? {
      forall i | 0 <= i < |w'.phase.items| ensures Follows(w'.c, w'.phase.items[i]) {
        assert Follows(w.c, w.phase.items[if a.ProcessNext? then i + 1 else i]);
      }
    }
  }

  lemma {:induction false} RunKeepsFollowed(env: Env, w: World, acts: seq<Action>)
    requires CanRun(env, w, acts) && Followed(w)
    ensures Followed(Run(env, w, acts))
    decreases |acts|
  {
    if acts != [] {
      StepKeepsFollowed(env, w, acts[0]);
      RunKeepsFollowed(env, Do(env, w, acts[0]), acts[1..]);
    }
  }

  /** In every run of every environment a Job that is still running leaves the store only because it
      expires, a delayed deletion fires, or it is not the Job of its node's current generation. */
  lemma RunningJobLeavesOnly(env: Env, past: seq<Action>, a: Action, k: string)
    requires CanRun(env, INIT, past) && Enabled(env, Run(env, INIT, past), a)
    requires k in Run(env, INIT, past).c.jobs && !Over(Run(env, INIT, past).c.jobs[k])
    requires k !in Do(env, Run(env, INIT, past), a).c.jobs
    ensures var w := Run(env, INIT, past);
            || a == Expire(k) || a == FireDelete(k)
            || (a.ReconcileNext? && w.c.jobs[k].node == w.phase.todo[0] && w.phase.todo[0] in w.c.crs
                && k != JobName(w.phase.todo[0], w.c.crs[w.phase.todo[0]].generation))
  {
    var w := Run(env, INIT, past);
    RunKeepsFollowed(env, INIT, past);
    if a.ProcessNext? {
      assert Follows(w.c, w.phase.items[0]);
      ProcessActsIff(env.delay, w.c, w.phase.items[0]);
    }
  }

  /** The current generation of n is in progress, and no finished Job of n is stored or listed. */
  ghost predicate Running(w: World, n: string) {
    && n in w.c.crs && w.c.crs[n].state.InProgress? && w.c.crs[n].observed == w.c.crs[n].generation
    && (forall k | k in w.c.jobs && w.c.jobs[k].node == n :: !Over(w.c.jobs[k]))
    && (w.phase.Processing? ==>
          forall i | 0 <= i < |w.phase.items| && w.phase.items[i].job.node == n :: !Over(w.phase.items[i].job))
  }

  lemma JobOfNode(w: World, k: string)
    requires Shape(w) && k in w.c.jobs
    ensures w.c.jobs[k].node in w.c.crs && k == JobName(w.c.jobs[k].node, w.c.crs[w.c.jobs[k].node].observed)
  {
    assert Waiting(w.c, k);
  }

  lemma ReconcileKeepsRunning(env: Env, w: World, nodes: set<string>, n: string)
    requires env.delay <= 0 && Shape(w) && Running(w, n) && w.phase.Reconciling? && w.phase.todo != []
    ensures var w', name := DoReconcile(env, w, nodes), JobName(n, w.c.crs[n].generation);
            && Running(w', n) && w'.c.crs[n] == w.c.crs[n]
            && (name in w.c.jobs ==> name in w'.c.jobs && w'.c.jobs[name] == w.c.jobs[name])
  {
    var m, name := w.phase.todo[0], JobName(n, w.c.crs[n].generation);
    assert CrOk(w.c, n);
    if name in w.c.jobs {
      CurrentJobExists(w.c, n);
    }
    if m in w.c.crs && m != n && JobName(m, w.c.crs[m].generation) == name {
      JobNameInjective(m, w.c.crs[m].generation, n, w.c.crs[n].generation);
    }
  }

  lemma ProcessKeepsRunning(env: Env, w: World, n: string)
    requires env.delay <= 0 && Shape(w) && Running(w, n) && w.phase.Processing? && w.phase.items != []
    ensures var w', name := DoProcess(env, w), JobName(n, w.c.crs[n].generation);
            && Running(w', n) && w'.c.crs[n] == w.c.crs[n]
            && (name in w.c.jobs ==> name in w'.c.jobs && w'.c.jobs[name] == w.c.jobs[name])
  {
    var it, w' := w.phase.items[0], DoProcess(env, w);
    assert ItemOk(w.c, it);
    if it.job.node != n && it.name == JobName(n, w.c.crs[n].generation) {
      JobNameInjective(it.job.node, it.job.generation, n, w.c.crs[n].generation);
    }
    forall i | 0 <= i < |w'.phase.items| && w'.phase.items[i].job.node == n ensures !Over(w'.phase.items[i].job) {
      assert w'.phase.items[i] == w.phase.items[i + 1];
    }
  }

  lemma FinishKeepsRunning(w: World, k: string, ok: bool, reported: nat, n: string)
    requires Shape(w) && Running(w, n) && k in w.c.jobs && k != JobName(n, w.c.crs[n].generation)
    ensures Running(DoFinish(w, k, ok, reported), n)
  {
    JobOfNode(w, k);
  }

  lemma StepKeepsRunning(env: Env, w: World, a: Action, n: string)
    requires env.delay <= 0 && Shape(w) && Enabled(env, w, a) && Running(w, n) && a != Edit(n)
    requires !(a.Finish? && a.job == JobName(n, w.c.crs[n].generation))
    ensures var w', name := Do(env, w, a), JobName(n, w.c.crs[n].generation);
            && Running(w', n) && w'.c.crs[n] == w.c.crs[n]
            && (name in w.c.jobs && a != Expire(name) ==> name in w'.c.jobs && w'.c.jobs[name] == w.c.jobs[name])
  {
    if a.ReconcileNext? {
      ReconcileKeepsRunning(env, w, a.nodes, n);
    } else if a.ProcessNext? {
      ProcessKeepsRunning(env, w, n);
    } else if a.Finish? {
      FinishKeepsRunning(w, a.job, a.ok, a.reported, n);
    }
  }

  /** Without a finish of its Job an unedited resource in progress stays in progress over every run,
      and its Job stays as it is unless it expires. */
  lemma {:induction false} InProgressStays(env: Env, w: World, acts: seq<Action>, n: string)
    requires env.delay <= 0 && Shape(w) && CanRun(env, w, acts) && Running(w, n) && Edit(n) !in acts
    requires forall a | a in acts && a.Finish? :: a.job != JobName(n, w.c.crs[n].generation)
    ensures var c, name := Run(env, w, acts).c, JobName(n, w.c.crs[n].generation);
            && n in c.crs && c.crs[n] == w.c.crs[n] && c.crs[n].state.InProgress?
            && (name in w.c.jobs && Expire(name) !in acts ==> name in c.jobs && c.jobs[name] == w.c.jobs[name])
    decreases |acts|
  {
    if acts != [] {
      assert acts[0] in acts && forall a | a in acts[1..] :: a in acts;
      StepKeepsRunning(env, w, acts[0], n);
      StepKeepsShape(env, w, acts[0]);
      InProgressStays(env, Do(env, w, acts[0]), acts[1..], n);
    }
  }

  /** The Job that Reconcile has just created is such a running Job. */
  lemma CreatedJobRuns(env: Env, w: World, nodes: set<string>)
    requires env.delay <= 0 && Shape(w) && w.phase.Reconciling? && w.phase.todo != []
    requires var n := w.phase.todo[0];
             n in w.c.crs && n in nodes && !Decided(w.c, n) && JobName(n, w.c.crs[n].generation) !in w.c.jobs
    ensures Running(DoReconcile(env, w, nodes), w.phase.todo[0])
    ensures JobName(w.phase.todo[0], w.c.crs[w.phase.todo[0]].generation) in DoReconcile(env, w, nodes).c.jobs
  {
    assert CrOk(w.c, w.phase.todo[0]);
  }
}
