/** Exactly which deployments keep the controller safe, with a run against each of the others. */
module ControllerSafety {
  import opened Controller
  import opened ControllerRuns

  ghost predicate AlwaysSafe(env: Env) {
    forall acts: seq<Action> | CanRun(env, INIT, acts) :: Safe(Run(env, INIT, acts))
  }

  lemma {:induction false} RunAppend(env: Env, w: World, acts: seq<Action>, a: Action)
    requires CanRun(env, w, acts) && Enabled(env, Run(env, w, acts), a)
    ensures CanRun(env, w, acts + [a]) && Run(env, w, acts + [a]) == Do(env, Run(env, w, acts), a)
    decreases |acts|
  {
    if acts == [] {
      assert acts + [a] == [a] && [a][1..] == [];
      assert CanRun(env, Do(env, w, a), []);
    } else {
      RunAppend(env, Do(env, w, acts[0]), acts[1..], a);
      assert (acts + [a])[1..] == acts[1..] + [a];
    }
  }

  lemma Extend(env: Env, acts: seq<Action>, w: World, a: Action, next: World) returns (more: seq<Action>)
    requires CanRun(env, INIT, acts) && Run(env, INIT, acts) == w && Enabled(env, w, a) && Do(env, w, a) == next
    ensures CanRun(env, INIT, more) && Run(env, INIT, more) == next
  {
    RunAppend(env, INIT, acts, a);
    more := acts + [a];
  }

  function Name1(): string { JobName("n", 1) }
  function Name2(): string { JobName("n", 2) }

  /** Generation 1 of node n is in progress and its Job stored. */
  function Created(): World {
    World(Cluster(map["n" := CR(1, 1, InProgress, Name1())], map[Name1() := Job("n", 1, 0, 0)], {}, map[]),
          Reconciling([]), map[])
  }

  lemma ReachesCreated(env: Env) returns (acts: seq<Action>)
    ensures CanRun(env, INIT, acts) && Run(env, INIT, acts) == Created()
  {
    var w := INIT.(c := INIT.c.(crs := map["n" := CR(1, 0, Unset, "")]));
    acts := Extend(env, [], INIT, Create("n"), w);
    acts := Extend(env, acts, w, StartCycle(["n"]), w.(phase := Reconciling(["n"])));
    assert Stale(Created().c.jobs, "n", Name1()) == {};
    assert ["n"][1..] == [];
    acts := Extend(env, acts, w.(phase := Reconciling(["n"])), ReconcileNext({"n"}), Created());
  }

  /** Its Job has exited with status 0 reporting r failures, and has been listed. */
  function Listed(r: nat): World {
    var done := Job("n", 1, 1, 0);
    World(Cluster(map["n" := CR(1, 1, InProgress, Name1())], map[Name1() := done], {}, map[Name1() := r]),
          Processing([Item(Name1(), done)]), map[Name1() := r])
  }

  lemma ReachesListed(env: Env, r: nat) returns (acts: seq<Action>)
    ensures CanRun(env, INIT, acts) && Run(env, INIT, acts) == Listed(r)
  {
    acts := ReachesCreated(env);
    var w := Listed(r).(phase := Reconciling([]));
    acts := Extend(env, acts, Created(), Finish(Name1(), true, r), w);
    assert Snapshot(w.c.jobs, [Name1()]) == Listed(r).phase.items;
    acts := Extend(env, acts, w, ListJobs([Name1()]), Listed(r));
  }

  /** Summaries that can get lost: a partial failure that exits with status 0 is listed, its
      summary vanishes with the expired Job or with the pods alone, and the resource becomes Configured. */
  lemma LossIsUnsafe(env: Env) returns (acts: seq<Action>)
    requires env.jobsExpire || env.podsVanish
    ensures CanRun(env, INIT, acts) && !Safe(Run(env, INIT, acts))
  {
    acts := ReachesListed(env, 1);
    var w := Listed(1);
    var lost := if env.jobsExpire then Expire(Name1()) else LosePods(Name1());
    var w1 := Do(env, w, lost);
    acts := Extend(env, acts, w, lost, w1);
    assert Reported(w1.c, Name1()) == 0;
    acts := Extend(env, acts, w1, ProcessNext, DoProcess(env, w1));
    assert DoProcess(env, w1).c.crs["n"] == CR(1, 1, Configured, Name1());
  }

  /** The first generation is applied: its Job waits for its delayed deletion. */
  function Applied(): World {
    World(Cluster(map["n" := CR(1, 1, Configured, Name1())],
                  map[Name1() := Job("n", 1, 1, 0)], {Name1()}, map[Name1() := 0]),
          Processing([]), map[Name1() := 0])
  }

  lemma ReachesApplied(env: Env) returns (acts: seq<Action>)
    requires env.delay > 0
    ensures CanRun(env, INIT, acts) && Run(env, INIT, acts) == Applied()
  {
    acts := ReachesListed(env, 0);
    assert Listed(0).phase.items[1..] == [];
    acts := Extend(env, acts, Listed(0), ProcessNext, Applied());
  }

  /** The second generation is in progress beside the finished Job of the first. */
  function Beside(): World {
    World(Cluster(map["n" := CR(2, 2, InProgress, Name2())],
                  map[Name1() := Job("n", 1, 1, 0), Name2() := Job("n", 2, 0, 0)], {Name1()}, map[Name1() := 0]),
          Reconciling([]), map[Name1() := 0])
  }

  lemma ReachesBeside(env: Env) returns (acts: seq<Action>)
    requires env.delay > 0
    ensures CanRun(env, INIT, acts) && Run(env, INIT, acts) == Beside()
  {
    acts := ReachesApplied(env);
    var w := Applied();
    var w1 := w.(c := w.c.(crs := map["n" := CR(2, 1, Configured, Name1())]));
    acts := Extend(env, acts, w, Edit("n"), w1);
    var w2 := w1.(phase := Reconciling(["n"]));
    acts := Extend(env, acts, w1, StartCycle(["n"]), w2);
    if Name1() == Name2() {
      JobNameInjective("n", 1, "n", 2);
    }
    assert Stale(Beside().c.jobs, "n", Name2()) == {Name1()};
    assert ["n"][1..] == [];
    acts := Extend(env, acts, w2, ReconcileNext({"n"}), Beside());
  }

  /** With a delay, the finished Job of an older generation can complete a newer one. */
  lemma DelayIsUnsafe(env: Env) returns (acts: seq<Action>)
    requires env.delay > 0
    ensures CanRun(env, INIT, acts) && !Safe(Run(env, INIT, acts))
  {
    acts := ReachesBeside(env);
    var w := Beside();
    if Name1() == Name2() {
      JobNameInjective("n", 1, "n", 2);
    }
    var order := [Name1(), Name2()];
    var items := [Item(Name1(), Job("n", 1, 1, 0)), Item(Name2(), Job("n", 2, 0, 0))];
    assert Snapshot(w.c.jobs, order) == items;
    var w1 := w.(phase := Processing(items));
    acts := Extend(env, acts, w, ListJobs(order), w1);
    acts := Extend(env, acts, w1, ProcessNext, DoProcess(env, w1));
    assert DoProcess(env, w1).c.crs["n"] == CR(2, 2, Configured, Name2());
  }

  /** The controller is safe over all runs exactly in a deployment that deletes Jobs without delay,
      configures no TTL and keeps the pods of a finished Job until it has been processed. */
  lemma SafeIff(env: Env)
    ensures AlwaysSafe(env) <==> env.delay <= 0 && !env.jobsExpire && !env.podsVanish
  {
    if env.delay > 0 {
      var acts := DelayIsUnsafe(env);
    } else if env.jobsExpire || env.podsVanish {
      var acts := LossIsUnsafe(env);
    } else {
      forall acts: seq<Action> | CanRun(env, INIT, acts) ensures Safe(Run(env, INIT, acts)) {
        RunKeepsInv(env, INIT, acts);
        ShapeIsSafe(Run(env, INIT, acts));
      }
    }
  }
}
