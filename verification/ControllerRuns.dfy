/** Every run of the poll loop against a cluster that finishes, expires and deletes Jobs, loses
    their pods, and a user who creates and edits resources at any moment. */
module ControllerRuns {
  import opened Listing
  import opened Controller

  /** What a deployment allows: the delete delay, whether Jobs vanish with their pods (a TTL is
      configured), whether pods vanish while their Job stays. */
  datatype Env = Env(delay: int, jobsExpire: bool, podsVanish: bool)

  /** Where the sequential controller is: resources still to reconcile, or listed Jobs still to process. */
  datatype Phase = Reconciling(todo: seq<string>) | Processing(items: seq<Item>)

  /** `told` is history: how many failures the latest success under a Job name reported, whether or
      not that can still be read. */
  datatype World = World(c: Cluster, phase: Phase, told: map<string, nat>)

  const INIT := World(Cluster(map[], map[], {}, map[]), Processing([]), map[])

  datatype Action =
    | StartCycle(order: seq<string>)
    | ReconcileNext(nodes: set<string>)
    | ListJobs(order: seq<string>)
    | ProcessNext
    | Create(node: string)
    | Edit(node: string)
    | Finish(job: string, ok: bool, reported: nat)
    | Expire(job: string)
    | LosePods(job: string)
    | FireDelete(job: string)

  predicate Enabled(env: Env, w: World, a: Action) {
    match a
    case StartCycle(_) => w.phase == Processing([])
    case ReconcileNext(_) => w.phase.Reconciling? && w.phase.todo != []
    case ListJobs(order) => w.phase == Reconciling([]) && Lists(w.c.jobs, order)
    case ProcessNext => w.phase.Processing? && w.phase.items != []
    case Create(node) => node !in w.c.crs
    case Edit(node) => node in w.c.crs
    case Finish(job, _, _) => job in w.c.jobs && w.c.jobs[job].succeeded == 0
    case Expire(job) => env.jobsExpire && job in w.c.jobs
    case LosePods(job) => env.podsVanish && job in w.c.summaries
    case FireDelete(job) => job in w.c.doomed
  }

  function DoReconcile(env: Env, w: World, nodes: set<string>): World
    requires w.phase.Reconciling? && w.phase.todo != []
  {
    var (c, ok) := Reconcile(env.delay, nodes, w.c, w.phase.todo[0]);
    w.(c := c, phase := if ok then Reconciling(w.phase.todo[1..]) else Processing([]))
  }

  function DoProcess(env: Env, w: World): World
    requires w.phase.Processing? && w.phase.items != []
  {
    w.(c := ProcessItem(env.delay, w.c, w.phase.items[0]), phase := Processing(w.phase.items[1..]))
  }

  function DoFinish(w: World, k: string, ok: bool, reported: nat): World
    requires k in w.c.jobs
  {
    var j := w.c.jobs[k];
    var j' := if ok then j.(succeeded := j.succeeded + 1) else j.(failed := j.failed + 1);
    w.(c := w.c.(jobs := w.c.jobs[k := j'], summaries := w.c.summaries[k := reported]),
       told := if ok then w.told[k := reported] else w.told)
  }

  function Do(env: Env, w: World, a: Action): World
    requires Enabled(env, w, a)
  {
    match a
    case StartCycle(order) => w.(phase := Reconciling(order))
    case ReconcileNext(nodes) => DoReconcile(env, w, nodes)
    case ListJobs(order) => w.(phase := Processing(Snapshot(w.c.jobs, order)))
    case ProcessNext => DoProcess(env, w)
    case Create(node) => w.(c := w.c.(crs := w.c.crs[node := CR(1, 0, Unset, "")]))
    case Edit(node) => w.(c := w.c.(crs := w.c.crs[node := w.c.crs[node].(generation := w.c.crs[node].generation + 1)]))
    case Finish(job, ok, reported) => DoFinish(w, job, ok, reported)
    case Expire(job) => w.(c := Remove(w.c, {job}))
    case LosePods(job) => w.(c := w.c.(summaries := w.c.summaries - {job}))
    case FireDelete(job) => w.(c := Remove(w.c, {job}).(doomed := w.c.doomed - {job}))
  }

  predicate CanRun(env: Env, w: World, acts: seq<Action>)
    decreases |acts|
  {
    acts == [] || (Enabled(env, w, acts[0]) && CanRun(env, Do(env, w, acts[0]), acts[1..]))
  }

  function Run(env: Env, w: World, acts: seq<Action>): World
    requires CanRun(env, w, acts)
    decreases |acts|
  {
    if acts == [] then w else Run(env, Do(env, w, acts[0]), acts[1..])
  }

  /** Each node has at most the one Job of its observed generation, and a resource says Configured
      only if the latest success of that generation's Job reported no failures. */
  ghost predicate Safe(w: World) {
    && (forall k | k in w.c.jobs :: w.c.jobs[k].node in w.c.crs &&
          k == JobName(w.c.jobs[k].node, w.c.crs[w.c.jobs[k].node].observed))
    && Honest(w)
  }

  ghost predicate Honest(w: World) {
    forall n | n in w.c.crs && w.c.crs[n].state.Configured? :: ToldClean(w, JobName(n, w.c.crs[n].observed))
  }

  predicate ToldClean(w: World, name: string) { name in w.told && w.told[name] == 0 }

  // ------------------------------------------------------------------- shape

  /** A Job, stored or listed, belongs to the generation its resource has observed. */
  predicate Current(c: Cluster, k: string, j: Job) {
    j.node in c.crs && j.generation == c.crs[j.node].observed >= 1 && k == JobName(j.node, j.generation)
  }

  predicate Waiting(c: Cluster, k: string)
    requires k in c.jobs
  {
    Current(c, k, c.jobs[k]) && !Final(c.crs[c.jobs[k].node].state)
  }

  predicate CrOk(c: Cluster, n: string)
    requires n in c.crs
  {
    var cr := c.crs[n];
    && cr.observed <= cr.generation && cr.generation >= 1
    && (cr.state.Unset? <==> cr.observed == 0)
    && (cr.state.InProgress? ==> cr.lastJob == JobName(n, cr.observed))
  }

  /** A listed Job not yet processed: its resource is undecided, and if it is still stored it has
      not lost a success since. */
  predicate ItemOk(c: Cluster, it: Item) {
    && Current(c, it.name, it.job) && !Final(c.crs[it.job.node].state)
    && (it.name in c.jobs ==> it.job.succeeded <= c.jobs[it.name].succeeded)
  }

  ghost predicate ItemsOk(c: Cluster, items: seq<Item>) {
    && (forall i | 0 <= i < |items| :: ItemOk(c, items[i]))
    && (forall i, j | 0 <= i < j < |items| :: items[i].name != items[j].name)
  }

  ghost predicate StoreOk(c: Cluster) {
    && (forall k | k in c.jobs :: Waiting(c, k))
    && (forall n | n in c.crs :: CrOk(c, n))
    && c.doomed == {}
  }

  /** Jobs, listed or stored, belong to the observed generation of an undecided resource. */
  ghost predicate Shape(w: World) {
    StoreOk(w.c) && (w.phase.Processing? ==> ItemsOk(w.c, w.phase.items))
  }

  lemma ShapeIsSafe(w: World)
    requires Shape(w)
    ensures Safe(w) <==> Honest(w)
  {
    forall k | k in w.c.jobs ensures w.c.jobs[k].node in w.c.crs &&
      k == JobName(w.c.jobs[k].node, w.c.crs[w.c.jobs[k].node].observed)
    {
      assert Waiting(w.c, k);
    }
  }

  /** A Job with the current generation's name is the node's only Job, and that generation is observed. */
  lemma CurrentJobExists(c: Cluster, node: string)
    requires StoreOk(c) && node in c.crs && JobName(node, c.crs[node].generation) in c.jobs
    ensures c.crs[node].generation == c.crs[node].observed
    ensures c.jobs[JobName(node, c.crs[node].generation)].node == node
  {
    var name := JobName(node, c.crs[node].generation);
    assert Waiting(c, name);
    JobNameInjective(node, c.crs[node].generation, c.jobs[name].node, c.jobs[name].generation);
  }

  lemma ReconcileKeepsJobs(delay: int, nodes: set<string>, c: Cluster, node: string, k: string)
    requires delay <= 0 && StoreOk(c) && k in Reconcile(delay, nodes, c, node).0.jobs
    ensures Waiting(Reconcile(delay, nodes, c, node).0, k)
  {
    var c' := Reconcile(delay, nodes, c, node).0;
    if k in c.jobs {
      assert Waiting(c, k);
    }
    if c' != c {
      assert CrOk(c, node);
      if JobName(node, c.crs[node].generation) in c.jobs {
        CurrentJobExists(c, node);
      }
    }
  }

  lemma ReconcileKeepsStore(delay: int, nodes: set<string>, c: Cluster, node: string)
    requires delay <= 0 && StoreOk(c)
    ensures StoreOk(Reconcile(delay, nodes, c, node).0)
  {
    var c' := Reconcile(delay, nodes, c, node).0;
    forall k | k in c'.jobs ensures Waiting(c', k) {
      ReconcileKeepsJobs(delay, nodes, c, node, k);
    }
    forall n | n in c'.crs ensures CrOk(c', n) {
      assert n in c.crs && CrOk(c, n);
    }
  }

  lemma ProcessKeepsStore(delay: int, c: Cluster, it: Item)
    requires delay <= 0 && StoreOk(c) && ItemOk(c, it)
    ensures StoreOk(ProcessItem(delay, c, it))
  {
    var c' := ProcessItem(delay, c, it);
    assert CrOk(c, it.job.node);
    forall k | k in c'.jobs ensures Waiting(c', k) {
      assert k in c.jobs && Waiting(c, k);
    }
    forall n | n in c'.crs ensures CrOk(c', n) {
      assert CrOk(c, n);
    }
  }

  lemma ProcessKeepsItems(delay: int, c: Cluster, items: seq<Item>)
    requires delay <= 0 && items != [] && ItemsOk(c, items)
    ensures ItemsOk(ProcessItem(delay, c, items[0]), items[1..])
  {
    var c' := ProcessItem(delay, c, items[0]);
    forall i | 0 <= i < |items| - 1 ensures ItemOk(c', items[1..][i]) {
      assert ItemOk(c, items[0]) && ItemOk(c, items[i + 1]) && items[0].name != items[i + 1].name;
    }
  }

  lemma FinishKeepsShape(w: World, k: string, ok: bool, reported: nat)
    requires Shape(w) && k in w.c.jobs
    ensures Shape(DoFinish(w, k, ok, reported))
  {
    var w' := DoFinish(w, k, ok, reported);
    forall l | l in w'.c.jobs ensures Waiting(w'.c, l) {
      assert Waiting(w.c, l);
    }
    forall n | n in w'.c.crs ensures CrOk(w'.c, n) {
      assert CrOk(w.c, n);
    }
    if w.phase.Processing? {
      forall i | 0 <= i < |w.phase.items| ensures ItemOk(w'.c, w.phase.items[i]) {
        assert ItemOk(w.c, w.phase.items[i]);
      }
    }
  }

  lemma ListKeepsShape(w: World, order: seq<string>)
    requires Shape(w) && Lists(w.c.jobs, order)
    ensures ItemsOk(w.c, Snapshot(w.c.jobs, order))
  {
    forall i | 0 <= i < |order| ensures ItemOk(w.c, Snapshot(w.c.jobs, order)[i]) {
      assert Waiting(w.c, order[i]);
    }
  }

  /** Steps of the user and the cluster that touch neither a Job's status nor a decision. */
  predicate Outside(a: Action) { a.Create? || a.Edit? || a.Expire? || a.LosePods? }

  lemma OutsideKeepsShape(env: Env, w: World, a: Action)
    requires Shape(w) && Enabled(env, w, a) && Outside(a)
    ensures Shape(Do(env, w, a))
  {
    var w' := Do(env, w, a);
    forall n | n in w'.c.crs ensures CrOk(w'.c, n) {
      if n in w.c.crs {
        assert CrOk(w.c, n);
      }
    }
    forall k | k in w'.c.jobs ensures Waiting(w'.c, k) {
      assert k in w.c.jobs && Waiting(w.c, k);
    }
    if w.phase.Processing? {
      forall i | 0 <= i < |w.phase.items| ensures ItemOk(w'.c, w.phase.items[i]) {
        assert ItemOk(w.c, w.phase.items[i]);
      }
    }
  }

  lemma StepKeepsShape(env: Env, w: World, a: Action)
    requires env.delay <= 0 && Shape(w) && Enabled(env, w, a)
    ensures Shape(Do(env, w, a))
  {
    if a.ReconcileNext? {
      ReconcileKeepsStore(env.delay, a.nodes, w.c, w.phase.todo[0]);
    } else if a.ProcessNext? {
      assert ItemOk(w.c, w.phase.items[0]);
      ProcessKeepsStore(env.delay, w.c, w.phase.items[0]);
      ProcessKeepsItems(env.delay, w.c, w.phase.items);
    } else if a.Finish? {
      FinishKeepsShape(w, a.job, a.ok, a.reported);
    } else if a.ListJobs? {
      ListKeepsShape(w, a.order);
    } else if Outside(a) {
      OutsideKeepsShape(env, w, a);
    }
  }

  lemma {:induction false} RunKeepsShape(env: Env, w: World, acts: seq<Action>)
    requires env.delay <= 0 && Shape(w) && CanRun(env, w, acts)
    ensures Shape(Run(env, w, acts))
    decreases |acts|
  {
    if acts != [] {
      StepKeepsShape(env, w, acts[0]);
      RunKeepsShape(env, Do(env, w, acts[0]), acts[1..]);
    }
  }

  // -------------------------------------------------------------- run by run

  /** A succeeded Job's report is on record. */
  predicate OnRecord(w: World, name: string, j: Job) { j.succeeded > 0 ==> name in w.told }

  ghost predicate Recorded(w: World) {
    && (forall k | k in w.c.jobs :: OnRecord(w, k, w.c.jobs[k]))
    && (w.phase.Processing? ==>
          forall i | 0 <= i < |w.phase.items| :: OnRecord(w, w.phase.items[i].name, w.phase.items[i].job))
  }

  lemma StepKeepsRecorded(env: Env, w: World, a: Action)
    requires Recorded(w) && Enabled(env, w, a)
    ensures Recorded(Do(env, w, a))
  {
    var w' := Do(env, w, a);
    forall k | k in w'.c.jobs ensures OnRecord(w', k, w'.c.jobs[k]) {
      if k in w.c.jobs {
        assert OnRecord(w, k, w.c.jobs[k]);
      }
    }
    if w'.phase.Processing? {
      forall i | 0 <= i < |w'.phase.items|
        ensures OnRecord(w', w'.phase.items[i].name, w'.phase.items[i].job)
      {
        if a.ListJobs? {
          assert OnRecord(w, a.order[i], w.c.jobs[a.order[i]]);
        } else if a.ProcessNext? {
          assert OnRecord(w, w.phase.items[i + 1].name, w.phase.items[i + 1].job);
        } else if w.phase.Processing? {
          assert OnRecord(w, w.phase.items[i].name, w.phase.items[i].job);
        }
      }
    }
  }

  /** The next listed Job has succeeded and reported failures, and none of them can be read now. */
  predicate Misled(w: World, a: Action) {
    && a.ProcessNext? && w.phase.Processing? && w.phase.items != []
    && var it := w.phase.items[0];
       it.job.succeeded > 0 && it.name in w.told && w.told[it.name] > 0 && Reported(w.c, it.name) == 0
  }

  lemma ProcessIsHonestIff(env: Env, w: World)
    requires env.delay <= 0 && Shape(w) && Recorded(w) && Honest(w) && w.phase.Processing? && w.phase.items != []
    ensures Honest(DoProcess(env, w)) <==> !Misled(w, ProcessNext)
  {
    var w', it := DoProcess(env, w), w.phase.items[0];
    assert ItemOk(w.c, it) && OnRecord(w, it.name, it.job);
    var n := it.job.node;
    assert forall m | m in w.c.crs && m != n :: m in w'.c.crs && w'.c.crs[m] == w.c.crs[m];
    assert w'.c.crs[n].observed == w.c.crs[n].observed;
    assert w'.c.crs.Keys == w.c.crs.Keys;
    assert forall m :: ToldClean(w', m) <==> ToldClean(w, m);
  }

  /** A Job that finishes belongs to an undecided resource, so it takes nobody's word back. */
  lemma FinishKeepsHonest(w: World, k: string, ok: bool, reported: nat)
    requires Shape(w) && Honest(w) && k in w.c.jobs
    ensures Honest(DoFinish(w, k, ok, reported))
  {
    var w' := DoFinish(w, k, ok, reported);
    assert Waiting(w.c, k);
    forall n | n in w'.c.crs && w'.c.crs[n].state.Configured? ensures ToldClean(w', JobName(n, w'.c.crs[n].observed)) {
      assert ToldClean(w, JobName(n, w.c.crs[n].observed));
      if JobName(n, w.c.crs[n].observed) == k {
        JobNameInjective(n, w.c.crs[n].observed, w.c.jobs[k].node, w.c.jobs[k].generation);
      }
    }
  }

  lemma ReconcileKeepsHonest(env: Env, w: World, nodes: set<string>)
    requires Honest(w) && w.phase.Reconciling? && w.phase.todo != []
    ensures Honest(DoReconcile(env, w, nodes))
  {
    var w' := DoReconcile(env, w, nodes);
    forall n | n in w'.c.crs && w'.c.crs[n].state.Configured? ensures ToldClean(w', JobName(n, w'.c.crs[n].observed)) {
      assert ToldClean(w, JobName(n, w.c.crs[n].observed));
    }
  }

  lemma StepIsHonestIff(env: Env, w: World, a: Action)
    requires env.delay <= 0 && Shape(w) && Recorded(w) && Honest(w) && Enabled(env, w, a)
    ensures Honest(Do(env, w, a)) <==> !Misled(w, a)
  {
    if a.ProcessNext? {
      ProcessIsHonestIff(env, w);
    } else if a.Finish? {
      FinishKeepsHonest(w, a.job, a.ok, a.reported);
    } else if a.ReconcileNext? {
      ReconcileKeepsHonest(env, w, a.nodes);
    } else {
      var w' := Do(env, w, a);
      forall n | n in w'.c.crs && w'.c.crs[n].state.Configured?
        ensures ToldClean(w', JobName(n, w'.c.crs[n].observed))
      {
        assert ToldClean(w, JobName(n, w.c.crs[n].observed));
      }
    }
  }

  predicate NeverMisled(env: Env, w: World, acts: seq<Action>)
    requires CanRun(env, w, acts)
    decreases |acts|
  {
    acts == [] || (!Misled(w, acts[0]) && NeverMisled(env, Do(env, w, acts[0]), acts[1..]))
  }

  ghost predicate SafeThroughout(env: Env, w: World, acts: seq<Action>)
    requires CanRun(env, w, acts)
    decreases |acts|
  {
    Safe(w) && (acts == [] || SafeThroughout(env, Do(env, w, acts[0]), acts[1..]))
  }

  /** Without delayed deletion a run stays safe exactly as long as no succeeded Job is processed
      after the failures it reported have become unreadable. */
  lemma {:induction false} RunIsSafeIff(env: Env, w: World, acts: seq<Action>)
    requires env.delay <= 0 && Shape(w) && Recorded(w) && Honest(w) && CanRun(env, w, acts)
    ensures SafeThroughout(env, w, acts) <==> NeverMisled(env, w, acts)
    decreases |acts|
  {
    ShapeIsSafe(w);
    if acts != [] {
      var w' := Do(env, w, acts[0]);
      StepKeepsShape(env, w, acts[0]);
      StepKeepsRecorded(env, w, acts[0]);
      StepIsHonestIff(env, w, acts[0]);
      ShapeIsSafe(w');
      if Honest(w') {
        RunIsSafeIff(env, w', acts[1..]);
      }
    }
  }

  // ------------------------------------------------------- nothing gets lost

  /** What a succeeded Job reported is on record and is what can be read now. */
  predicate Readable(w: World, k: string, j: Job) {
    j.succeeded > 0 ==> k in w.told && Reported(w.c, k) == w.told[k]
  }

  predicate ItemReadable(w: World, it: Item) {
    && Readable(w, it.name, it.job)
    && (it.job.succeeded > 0 && it.name in w.c.jobs ==> w.c.jobs[it.name].succeeded > 0)
  }

  ghost predicate Informed(w: World) {
    && (forall k | k in w.c.jobs :: Readable(w, k, w.c.jobs[k]))
    && (w.phase.Processing? ==> forall i | 0 <= i < |w.phase.items| :: ItemReadable(w, w.phase.items[i]))
  }

  ghost predicate Inv(w: World) { Shape(w) && Recorded(w) && Honest(w) && Informed(w) }

  lemma ReconcileKeepsInformed(env: Env, w: World, nodes: set<string>)
    requires env.delay <= 0 && Informed(w) && w.phase.Reconciling? && w.phase.todo != []
    ensures Informed(DoReconcile(env, w, nodes))
  {
    var w' := DoReconcile(env, w, nodes);
    forall k | k in w'.c.jobs ensures Readable(w', k, w'.c.jobs[k]) {
      if k in w.c.jobs {
        assert Readable(w, k, w.c.jobs[k]);
      }
    }
  }

  lemma ProcessKeepsInformed(env: Env, w: World)
    requires env.delay <= 0 && Shape(w) && Informed(w) && w.phase.Processing? && w.phase.items != []
    ensures Informed(DoProcess(env, w))
  {
    var w', items := DoProcess(env, w), w.phase.items;
    forall k | k in w'.c.jobs ensures Readable(w', k, w'.c.jobs[k]) {
      assert Readable(w, k, w.c.jobs[k]);
    }
    forall i | 0 <= i < |items| - 1 ensures ItemReadable(w', items[1..][i]) {
      assert items[1..][i] == items[i + 1] && ItemReadable(w, items[i + 1]) && items[i + 1].name != items[0].name;
    }
  }

  lemma FinishKeepsInformed(w: World, k: string, ok: bool, reported: nat)
    requires Informed(w) && k in w.c.jobs && w.c.jobs[k].succeeded == 0
    ensures Informed(DoFinish(w, k, ok, reported))
  {
    var w' := DoFinish(w, k, ok, reported);
    forall l | l in w'.c.jobs ensures Readable(w', l, w'.c.jobs[l]) {
      assert Readable(w, l, w.c.jobs[l]);
    }
    if w.phase.Processing? {
      forall i | 0 <= i < |w.phase.items| ensures ItemReadable(w', w.phase.items[i]) {
        assert ItemReadable(w, w.phase.items[i]);
      }
    }
  }

  lemma ListKeepsInformed(env: Env, w: World, order: seq<string>)
    requires Informed(w) && Enabled(env, w, ListJobs(order))
    ensures Informed(Do(env, w, ListJobs(order)))
  {
    var w' := Do(env, w, ListJobs(order));
    forall k | k in w.c.jobs ensures Readable(w', k, w.c.jobs[k]) {
      assert Readable(w, k, w.c.jobs[k]);
    }
    forall i | 0 <= i < |order| ensures ItemReadable(w', w'.phase.items[i]) {
      assert Readable(w, order[i], w.c.jobs[order[i]]);
    }
  }

  lemma UserKeepsInformed(env: Env, w: World, a: Action)
    requires Informed(w) && Enabled(env, w, a) && (a.Create? || a.Edit? || a.StartCycle?)
    ensures Informed(Do(env, w, a))
  {
    var w' := Do(env, w, a);
    forall k | k in w.c.jobs ensures Readable(w', k, w.c.jobs[k]) {
      assert Readable(w, k, w.c.jobs[k]);
    }
    if w'.phase.Processing? {
      forall i | 0 <= i < |w.phase.items| ensures ItemReadable(w', w.phase.items[i]) {
        assert ItemReadable(w, w.phase.items[i]);
      }
    }
  }

  lemma StepKeepsInformed(env: Env, w: World, a: Action)
    requires env.delay <= 0 && Shape(w) && Informed(w) && Enabled(env, w, a) && !a.Expire? && !a.LosePods?
    ensures Informed(Do(env, w, a)) && !Misled(w, a)
  {
    if a.ReconcileNext? {
      ReconcileKeepsInformed(env, w, a.nodes);
    } else if a.ProcessNext? {
      assert ItemReadable(w, w.phase.items[0]);
      ProcessKeepsInformed(env, w);
    } else if a.Finish? {
      FinishKeepsInformed(w, a.job, a.ok, a.reported);
    } else if a.ListJobs? {
      ListKeepsInformed(env, w, a.order);
    } else if a.Create? || a.Edit? || a.StartCycle? {
      UserKeepsInformed(env, w, a);
    }
  }

  /** Without delay and without losses every run keeps the whole invariant. */
  lemma {:induction false} RunKeepsInv(env: Env, w: World, acts: seq<Action>)
    requires env.delay <= 0 && !env.jobsExpire && !env.podsVanish && Inv(w) && CanRun(env, w, acts)
    ensures Inv(Run(env, w, acts)) && NeverMisled(env, w, acts)
    decreases |acts|
  {
    if acts != [] {
      StepKeepsShape(env, w, acts[0]);
      StepKeepsRecorded(env, w, acts[0]);
      StepKeepsInformed(env, w, acts[0]);
      StepIsHonestIff(env, w, acts[0]);
      RunKeepsInv(env, Do(env, w, acts[0]), acts[1..]);
    }
  }
}
