/** Over every run the poll loop settles each resource on its own: a lost Job comes back, a
    finished Job decides its resource whatever the other Jobs do, and a decision lasts. */
module ControllerConvergence {
  import opened Listing
  import opened Controller
  import opened ControllerRuns

  /** The current generation is decided. */
  predicate Decided(c: Cluster, n: string) {
    n in c.crs && Final(c.crs[n].state) && c.crs[n].observed == c.crs[n].generation >= 1
  }

  /** The current generation has been taken up: it is decided, or its Job is there. */
  predicate Settled(c: Cluster, n: string) {
    Decided(c, n) ||
    (n in c.crs &&
     var cr := c.crs[n];
     var name := JobName(n, cr.generation);
     && cr.observed == cr.generation && cr.state.InProgress? && cr.lastJob == name
     && name in c.jobs && c.jobs[name].node == n)
  }

  // -------------------------------------------------------------- decisions last

  lemma DecidedHasNoJob(w: World, n: string)
    requires Shape(w) && Decided(w.c, n)
    ensures forall k | k in w.c.jobs :: w.c.jobs[k].node != n
  {
    forall k | k in w.c.jobs ensures w.c.jobs[k].node != n {
      assert Waiting(w.c, k);
    }
  }

  lemma DecidedStep(env: Env, w: World, a: Action, n: string)
    requires Shape(w) && Enabled(env, w, a) && Decided(w.c, n) && a != Edit(n)
    ensures var w' := Do(env, w, a); n in w'.c.crs && w'.c.crs[n] == w.c.crs[n]
  {
    if a.ProcessNext? {
      assert ItemOk(w.c, w.phase.items[0]);
    }
  }

  /** While its spec is not edited a decided resource never changes and never gets a Job. */
  lemma {:induction false} DecidedStays(env: Env, w: World, acts: seq<Action>, n: string)
    requires env.delay <= 0 && Shape(w) && CanRun(env, w, acts) && Decided(w.c, n) && Edit(n) !in acts
    ensures var c := Run(env, w, acts).c;
            n in c.crs && c.crs[n] == w.c.crs[n] && forall k | k in c.jobs :: c.jobs[k].node != n
    decreases |acts|
  {
    if acts == [] {
      DecidedHasNoJob(w, n);
    } else {
      DecidedStep(env, w, acts[0], n);
      StepKeepsShape(env, w, acts[0]);
      DecidedStays(env, Do(env, w, acts[0]), acts[1..], n);
    }
  }

  // ------------------------------------------------------- the pass over resources

  /** Can Reconcile deal with this resource? */
  predicate Reconcilable(c: Cluster, nodes: set<string>, n: string) {
    n in c.crs && (n in nodes || (Final(c.crs[n].state) && c.crs[n].observed == c.crs[n].generation != 0))
  }

  /** The pass over the resources has no error exactly when each listed resource is there and is
      decided or has a valid node; a single invalid node ends the cycle for all of them. */
  lemma {:induction false} PassSucceedsIff(delay: int, nodes: set<string>, c: Cluster, order: seq<string>)
    ensures ReconcileAll(delay, nodes, c, order).1 <==> forall i | 0 <= i < |order| :: Reconcilable(c, nodes, order[i])
    decreases |order|
  {
    if order != [] && Reconcilable(c, nodes, order[0]) {
      var c' := Reconcile(delay, nodes, c, order[0]).0;
      PassSucceedsIff(delay, nodes, c', order[1..]);
      assert forall n :: Reconcilable(c', nodes, n) <==> Reconcilable(c, nodes, n);
      assert forall i | 0 < i < |order| :: order[i] == order[1..][i - 1];
    }
  }

  lemma ReconcileSettles(env: Env, w: World, nodes: set<string>)
    requires env.delay <= 0 && Shape(w) && w.phase.Reconciling? && w.phase.todo != []
    requires DoReconcile(env, w, nodes).phase.Reconciling?
    ensures Settled(DoReconcile(env, w, nodes).c, w.phase.todo[0])
  {
    var n := w.phase.todo[0];
    assert CrOk(w.c, n);
    if JobName(n, w.c.crs[n].generation) in w.c.jobs {
      CurrentJobExists(w.c, n);
    }
  }

  /** Actions that neither change n's spec nor take its current Job away nor begin a new cycle. */
  predicate Sparing(a: Action, n: string, generation: nat) {
    !a.StartCycle? && a != Edit(n) && a != Expire(JobName(n, generation))
  }

  lemma ReconcileKeepsSettled(delay: int, nodes: set<string>, c: Cluster, m: string, n: string)
    requires delay <= 0 && Settled(c, n)
    ensures var c' := Reconcile(delay, nodes, c, m).0;
            Settled(c', n) && c'.crs[n].generation == c.crs[n].generation
  {
  }

  lemma SettledStep(env: Env, w: World, a: Action, n: string)
    requires env.delay <= 0 && Shape(w) && Enabled(env, w, a) && Settled(w.c, n)
    requires w.phase.Reconciling? && Sparing(a, n, w.c.crs[n].generation)
    ensures Settled(Do(env, w, a).c, n) && Do(env, w, a).c.crs[n].generation == w.c.crs[n].generation
  {
    if a.ReconcileNext? {
      ReconcileKeepsSettled(env.delay, a.nodes, w.c, w.phase.todo[0], n);
    }
  }

  lemma PassStep(env: Env, w: World, a: Action, n: string)
    requires env.delay <= 0 && Shape(w) && Enabled(env, w, a) && n in w.c.crs
    requires w.phase.Reconciling? && Do(env, w, a).phase.Reconciling? && (Settled(w.c, n) || n in w.phase.todo)
    requires Sparing(a, n, w.c.crs[n].generation)
    ensures var w' := Do(env, w, a);
            && n in w'.c.crs && w'.c.crs[n].generation == w.c.crs[n].generation
            && (Settled(w'.c, n) || n in w'.phase.todo)
  {
    if Settled(w.c, n) {
      SettledStep(env, w, a, n);
    } else if a.ReconcileNext? && w.phase.todo[0] == n {
      ReconcileSettles(env, w, a.nodes);
    }
  }

  /** In the reconciling phase a run stays there or leaves it until a new cycle begins. */
  lemma {:induction false} LeavesForGood(env: Env, w: World, acts: seq<Action>)
    requires CanRun(env, w, acts) && w.phase.Processing? && forall a | a in acts :: !a.StartCycle?
    ensures Run(env, w, acts).phase.Processing?
    decreases |acts|
  {
    if acts != [] {
      LeavesForGood(env, Do(env, w, acts[0]), acts[1..]);
    }
  }

  /** A pass over the resources, interleaved with anything users and cluster do to others, leaves
      each resource on its list decided or with the Job of its generation: a lost Job is created again. */
  lemma {:induction false} PassSettles(env: Env, w: World, acts: seq<Action>, n: string)
    requires env.delay <= 0 && Shape(w) && CanRun(env, w, acts) && n in w.c.crs
    requires w.phase.Reconciling? && (Settled(w.c, n) || n in w.phase.todo)
    requires forall a | a in acts :: Sparing(a, n, w.c.crs[n].generation)
    requires Run(env, w, acts).phase == Reconciling([])
    ensures Settled(Run(env, w, acts).c, n)
    decreases |acts|
  {
    if acts != [] {
      var w' := Do(env, w, acts[0]);
      assert forall a | a in acts[1..] :: a in acts && Sparing(a, n, w.c.crs[n].generation);
      if w'.phase.Processing? {
        LeavesForGood(env, w', acts[1..]);
      }
      PassStep(env, w, acts[0], n);
      StepKeepsShape(env, w, acts[0]);
      PassSettles(env, w', acts[1..], n);
    }
  }

  // ------------------------------------------------------------ the pass over Jobs

  predicate Over(j: Job) { j.succeeded > 0 || j.failed > 0 }

  /** Nothing happens to the Job or its pods. */
  predicate Untouched(acts: seq<Action>, name: string) {
    forall a | a in acts :: a != Expire(name) && a != LosePods(name) && !(a.Finish? && a.job == name)
  }

  lemma UntouchedSplit(acts: seq<Action>, name: string)
    requires acts != []
    ensures Untouched(acts, name) <==> Untouched([acts[0]], name) && Untouched(acts[1..], name)
    ensures forall a | a in acts[1..] :: a in acts
  {
    assert acts == [acts[0]] + acts[1..];
  }

  lemma ProcessedDecides(env: Env, w: World)
    requires env.delay <= 0 && Shape(w) && w.phase.Processing? && w.phase.items != [] && Over(w.phase.items[0].job)
    ensures var it := w.phase.items[0];
            var c := DoProcess(env, w).c;
            && it.job.node in w.c.crs && it.job.node in c.crs
            && c.crs[it.job.node] == w.c.crs[it.job.node].(state := Verdict(it.job, Reported(w.c, it.name)))
  {
    assert ItemOk(w.c, w.phase.items[0]);
  }

  lemma OtherProcessed(env: Env, w: World, i: nat)
    requires env.delay <= 0 && Shape(w) && w.phase.Processing? && 0 < i < |w.phase.items|
    ensures var it, w' := w.phase.items[i], DoProcess(env, w);
            && w'.phase.items[i - 1] == it && it.job.node in w'.c.crs && w'.c.crs[it.job.node] == w.c.crs[it.job.node]
            && Reported(w'.c, it.name) == Reported(w.c, it.name)
  {
    var items := w.phase.items;
    assert ItemOk(w.c, items[0]) && ItemOk(w.c, items[i]) && items[0].name != items[i].name;
  }

  lemma BetweenItems(env: Env, w: World, a: Action, n: string)
    requires env.delay <= 0 && Shape(w) && Enabled(env, w, a) && w.phase.Processing?
    requires !a.StartCycle? && !a.ProcessNext? && n in w.c.crs
    ensures var w' := Do(env, w, a);
            && w'.phase == w.phase && n in w'.c.crs && w'.c.crs[n].state == w.c.crs[n].state
            && w'.c.crs[n].observed == w.c.crs[n].observed
            && (a != Edit(n) ==> w'.c.crs[n].generation == w.c.crs[n].generation)
  {
  }

  /** Once decided, a resource keeps its state while the rest of the list is worked off. */
  lemma {:induction false} KeepsState(env: Env, w: World, acts: seq<Action>, n: string)
    requires env.delay <= 0 && Shape(w) && CanRun(env, w, acts) && w.phase.Processing?
    requires n in w.c.crs && Final(w.c.crs[n].state) && forall a | a in acts :: !a.StartCycle?
    ensures var c := Run(env, w, acts).c;
            && n in c.crs && c.crs[n].state == w.c.crs[n].state && c.crs[n].observed == w.c.crs[n].observed
            && (Edit(n) !in acts ==> c.crs[n].generation == w.c.crs[n].generation)
    decreases |acts|
  {
    if acts != [] {
      StepKeepsShape(env, w, acts[0]);
      if acts[0].ProcessNext? {
        assert ItemOk(w.c, w.phase.items[0]);
      } else {
        BetweenItems(env, w, acts[0], n);
      }
      KeepsState(env, Do(env, w, acts[0]), acts[1..], n);
    }
  }

  /** A finished Job that has been listed decides its own resource by the time the list is worked
      off, whatever becomes of the other Jobs and resources in between; the verdict is that of the
      Job and of the summary it had when listed, unless something happens to it. */
  lemma {:induction false} ListedJobDecides(env: Env, w: World, acts: seq<Action>, i: nat)
    requires env.delay <= 0 && Shape(w) && CanRun(env, w, acts)
    requires w.phase.Processing? && i < |w.phase.items| && Over(w.phase.items[i].job)
    requires (forall a | a in acts :: !a.StartCycle?) && Run(env, w, acts).phase == Processing([])
    ensures var it, c := w.phase.items[i], Run(env, w, acts).c;
            var n := it.job.node;
            && n in w.c.crs && n in c.crs && Final(c.crs[n].state) && c.crs[n].observed == w.c.crs[n].observed
            && (Edit(n) !in acts ==> c.crs[n].generation == w.c.crs[n].generation)
            && (Untouched(acts, it.name) ==> c.crs[n].state == Verdict(it.job, Reported(w.c, it.name)))
    decreases |acts|
  {
    assert acts != [];
    var a, it, w' := acts[0], w.phase.items[i], Do(env, w, acts[0]);
    assert ItemOk(w.c, it);
    StepKeepsShape(env, w, a);
    UntouchedSplit(acts, it.name);
    if a.ProcessNext? && i == 0 {
      ProcessedDecides(env, w);
      KeepsState(env, w', acts[1..], it.job.node);
    } else if a.ProcessNext? {
      OtherProcessed(env, w, i);
      ListedJobDecides(env, w', acts[1..], i - 1);
    } else {
      BetweenItems(env, w, a, it.job.node);
      SummaryStays(env, w, a, it.name);
      ListedJobDecides(env, w', acts[1..], i);
    }
  }

  lemma SummaryStays(env: Env, w: World, a: Action, name: string)
    requires env.delay <= 0 && Shape(w) && Enabled(env, w, a) && w.phase.Processing?
    requires !a.StartCycle? && !a.ProcessNext?
    ensures Untouched([a], name) ==> Reported(Do(env, w, a).c, name) == Reported(w.c, name)
  {
    if Untouched([a], name) {
      assert a in [a];
    }
  }

  /** The world after a Job has finished and the Jobs have been listed. */
  function ListedAfter(w: World, name: string, ok: bool, reported: nat, js: seq<string>): World
    requires name in w.c.jobs && Lists(DoFinish(w, name, ok, reported).c.jobs, js)
  {
    var w1 := DoFinish(w, name, ok, reported);
    w1.(phase := Processing(Snapshot(w1.c.jobs, js)))
  }

  /** A Job that finishes and is listed, and whose pods are left alone, decides its resource by its
      exit and its report. */
  lemma FinishedJobDecides(
      env: Env, w: World, name: string, ok: bool, reported: nat, js: seq<string>, work: seq<Action>)
    requires env.delay <= 0 && Shape(w) && w.phase == Reconciling([])
    requires name in w.c.jobs && w.c.jobs[name].succeeded == 0
    requires Lists(DoFinish(w, name, ok, reported).c.jobs, js)
    requires CanRun(env, ListedAfter(w, name, ok, reported, js), work)
    requires Run(env, ListedAfter(w, name, ok, reported, js), work).phase == Processing([])
    requires (forall a | a in work :: !a.StartCycle?) && Untouched(work, name)
    ensures var n, crs := w.c.jobs[name].node, Run(env, ListedAfter(w, name, ok, reported, js), work).c.crs;
            n in crs && crs[n].state == if ok && reported == 0 then Configured else Failed
  {
    var w1, w' := DoFinish(w, name, ok, reported), ListedAfter(w, name, ok, reported, js);
    FinishKeepsShape(w, name, ok, reported);
    ListKeepsShape(w1, js);
    assert name in w1.c.jobs && name in js;
    var i :| 0 <= i < |js| && js[i] == name;
    assert w'.phase.items[i] == Item(name, w1.c.jobs[name]);
    ListedJobDecides(env, w', work, i);
  }

  // -------------------------------------------------------------------- together

  /** From any reachable state: a cycle whose pass over the resources is completed, whose listing
      shows n's Job finished and whose list is worked off decides n, in every interleaving in which
      n's spec is not edited and its Job is not taken away before the listing; and then no run
      without an edit changes n or gives it a Job again. The other resources are free to hang. */
  lemma Converges(
      env: Env, past: seq<Action>, order: seq<string>, pass: seq<Action>, js: seq<string>,
      work: seq<Action>, later: seq<Action>, n: string)
    requires env.delay <= 0 && CanRun(env, INIT, past) && Run(env, INIT, past).phase == Processing([])
    requires n in Run(env, INIT, past).c.crs && n in order
    requires var w1 := Run(env, INIT, past).(phase := Reconciling(order));
             && CanRun(env, w1, pass) && Run(env, w1, pass).phase == Reconciling([])
             && (forall a | a in pass :: Sparing(a, n, w1.c.crs[n].generation))
             && var w2 := Run(env, w1, pass);
                && Lists(w2.c.jobs, js) && (forall k | k in w2.c.jobs && w2.c.jobs[k].node == n :: Over(w2.c.jobs[k]))
                && var w3 := w2.(phase := Processing(Snapshot(w2.c.jobs, js)));
                   && CanRun(env, w3, work) && Run(env, w3, work).phase == Processing([])
                   && (forall a | a in work :: !a.StartCycle? && a != Edit(n))
                   && CanRun(env, Run(env, w3, work), later) && Edit(n) !in later
    ensures var w1 := Run(env, INIT, past).(phase := Reconciling(order));
            var w2 := Run(env, w1, pass);
            var w4 := Run(env, w2.(phase := Processing(Snapshot(w2.c.jobs, js))), work);
            var end := Run(env, w4, later);
            && Decided(w4.c, n) && n in end.c.crs && end.c.crs[n] == w4.c.crs[n]
            && forall k | k in end.c.jobs :: end.c.jobs[k].node != n
  {
    RunKeepsShape(env, INIT, past);
    var w1 := Run(env, INIT, past).(phase := Reconciling(order));
    PassSettles(env, w1, pass, n);
    RunKeepsShape(env, w1, pass);
    var w2 := Run(env, w1, pass);
    ListKeepsShape(w2, js);
    WorkDecides(env, w2, js, work, n);
    var w3 := w2.(phase := Processing(Snapshot(w2.c.jobs, js)));
    RunKeepsShape(env, w3, work);
    DecidedStays(env, Run(env, w3, work), later, n);
  }

  lemma WorkDecides(env: Env, w2: World, js: seq<string>, work: seq<Action>, n: string)
    requires env.delay <= 0 && Shape(w2) && w2.phase == Reconciling([]) && Lists(w2.c.jobs, js) && Settled(w2.c, n)
    requires forall k | k in w2.c.jobs && w2.c.jobs[k].node == n :: Over(w2.c.jobs[k])
    requires var w3 := w2.(phase := Processing(Snapshot(w2.c.jobs, js)));
             && Shape(w3) && CanRun(env, w3, work) && Run(env, w3, work).phase == Processing([])
             && (forall a | a in work :: !a.StartCycle? && a != Edit(n))
    ensures Decided(Run(env, w2.(phase := Processing(Snapshot(w2.c.jobs, js))), work).c, n)
  {
    var w3 := w2.(phase := Processing(Snapshot(w2.c.jobs, js)));
    if Decided(w2.c, n) {
      DecidedStays(env, w3, work, n);
    } else {
      var name := JobName(n, w2.c.crs[n].generation);
      var i :| 0 <= i < |js| && js[i] == name;
      assert w3.phase.items[i] == Item(name, w2.c.jobs[name]);
      assert CrOk(w2.c, n);
      ListedJobDecides(env, w3, work, i);
    }
  }

  /** Nothing left to do. */
  ghost predicate Quiescent(c: Cluster) { c.jobs == map[] && forall n | n in c.crs :: Decided(c, n) }

  /** In a quiescent store a poll cycle changes neither resources nor Jobs. */
  lemma {:induction false} QuiescentIsFixed(delay: int, nodes: set<string>, c: Cluster, order: seq<string>)
    requires Quiescent(c) && forall i | 0 <= i < |order| :: order[i] in c.crs
    ensures ReconcileAll(delay, nodes, c, order) == (c, true)
    ensures forall js :: Lists(c.jobs, js) ==> ProcessItems(delay, c, Snapshot(c.jobs, js)) == c
    decreases |order|
  {
    if order != [] {
      assert Decided(c, order[0]);
      QuiescentIsFixed(delay, nodes, c, order[1..]);
    }
    forall js | Lists(c.jobs, js) ensures ProcessItems(delay, c, Snapshot(c.jobs, js)) == c {
      assert forall k :: k in js ==> k in c.jobs;
    }
  }
}
