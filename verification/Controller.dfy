/** The controller's poll mode: Reconcile, ProcessJobs and RunOnce over the stored objects. */
module Controller {
  import opened Text
  import opened Listing

  datatype CrState = Unset | InProgress | Configured | Failed

  predicate Final(s: CrState) { s.Configured? || s.Failed? }

  /** A MultiNicNodeConfig: metadata.generation and the status fields the controller decides on.
      The resource is named after its node. */
  datatype CR = CR(generation: nat, observed: nat, state: CrState, lastJob: string)

  /** An apply Job: its node label, the generation in its name and the pod counts of its status. */
  datatype Job = Job(node: string, generation: nat, succeeded: nat, failed: nat)

  /** `doomed` are the Jobs whose delayed deletion has been scheduled. `summaries` holds, for each
      Job whose pods can still be read, the number of failures in the latest termination message. */
  datatype Cluster = Cluster(
    crs: map<string, CR>, jobs: map<string, Job>, doomed: set<string>, summaries: map<string, nat>)

  datatype Item = Item(name: string, job: Job)

  function JobName(node: string, generation: nat): string {
    "multinic-agent-" + node + "-g" + Decimal(generation)
  }

  /** Job names tell node and generation apart, whatever characters the node name has. */
  lemma JobNameInjective(a: string, g: nat, b: string, h: nat)
    requires JobName(a, g) == JobName(b, h)
    ensures a == b && g == h
  {
    var s := JobName(a, g);
    var p, x, y := |"multinic-agent-"|, Decimal(g), Decimal(h);
    DecimalRoundTrip(g);
    DecimalRoundTrip(h);
    assert s[|s| - |x| - 1] == 'g' && s[|s| - |y| - 1] == 'g';
    assert s[|s| - |x|..] == x && s[|s| - |y|..] == y;
    assert |x| == |y|;
    assert s[p..|s| - |x| - 2] == a && s[p..|s| - |y| - 2] == b;
  }

  /** A Job goes together with its pods. */
  function Remove(c: Cluster, names: set<string>): Cluster {
    c.(jobs := c.jobs - names, summaries := c.summaries - names)
  }

  /** scheduleJobDeletion: at once, or by a timer when a delay is configured. */
  function Delete(delay: int, c: Cluster, names: set<string>): Cluster {
    if delay <= 0 then Remove(c, names) else c.(doomed := c.doomed + names)
  }

  /** getJobTerminationMessage: the failures that can be read at this moment, none without pods. */
  function Reported(c: Cluster, name: string): nat { if name in c.summaries then c.summaries[name] else 0 }

  function Stale(jobs: map<string, Job>, node: string, current: string): set<string> {
    set k | k in jobs && jobs[k].node == node && k != current
  }

  /** Reconcile for one resource. `nodes` are the nodes that exist and pass the instance-id check. */
  function Reconcile(delay: int, nodes: set<string>, c: Cluster, node: string): (Cluster, bool) {
    if node !in c.crs then (c, false)
    else
      var cr := c.crs[node];
      var specChanged := cr.observed == 0 || cr.generation != cr.observed;
      if Final(cr.state) && !specChanged then (c, true)
      else if node !in nodes then (c, false)
      else
        var name := JobName(node, cr.generation);
        var c1 := c.(crs := c.crs[node := CR(cr.generation, cr.generation, InProgress, name)]);
        if name in c.jobs then (c1, true)
        else
          var c2 := c1.(jobs := c.jobs[name := Job(node, cr.generation, 0, 0)]);
          (Delete(delay, c2, Stale(c2.jobs, node, name)), true)
  }

  /** ProcessAll: stops at the first error. */
  function ReconcileAll(delay: int, nodes: set<string>, c: Cluster, order: seq<string>): (Cluster, bool)
    decreases |order|
  {
    if order == [] then (c, true)
    else
      var (c1, ok) := Reconcile(delay, nodes, c, order[0]);
      if ok then ReconcileAll(delay, nodes, c1, order[1..]) else (c1, false)
  }

  function SetState(c: Cluster, node: string, s: CrState): Cluster
    requires node in c.crs
  {
    c.(crs := c.crs[node := c.crs[node].(state := s)])
  }

  /** The verdict on a finished Job: failures in the summary outweigh a successful exit. */
  function Verdict(job: Job, reported: nat): CrState {
    if job.succeeded > 0 && reported == 0 then Configured else Failed
  }

  /** ProcessJobs for one listed Job. Its status is the listed one, its summary is read now, and the
      generation is not compared. */
  function ProcessItem(delay: int, c: Cluster, it: Item): Cluster {
    var job := it.job;
    if job.node !in c.crs then c
    else if job.succeeded > 0 then
      if c.crs[job.node].state.Configured? then c
      else Delete(delay, SetState(c, job.node, Verdict(job, Reported(c, it.name))), {it.name})
    else if job.failed > 0 then
      if c.crs[job.node].state.Failed? then c
      else Delete(delay, SetState(c, job.node, Verdict(job, Reported(c, it.name))), {it.name})
    else c
  }

  function ProcessItems(delay: int, c: Cluster, items: seq<Item>): Cluster
    decreases |items|
  {
    if items == [] then c else ProcessItems(delay, ProcessItem(delay, c, items[0]), items[1..])
  }

  /** What the list call returns. */
  function Snapshot(jobs: map<string, Job>, order: seq<string>): seq<Item>
    requires Lists(jobs, order)
  {
    seq(|order|, i requires 0 <= i < |order| => Item(order[i], jobs[order[i]]))
  }

  /** The merge in updateCRStatus: the patch wins, every other key of the status stays. */
  method MergeStatus<V>(status: map<string, V>, patch: map<string, V>) returns (merged: map<string, V>)
    ensures merged.Keys == status.Keys + patch.Keys
    ensures forall k | k in merged :: merged[k] == if k in patch then patch[k] else status[k]
  {
    merged := status;
    var todo := patch.Keys;
    while todo != {}
      invariant todo <= patch.Keys && merged.Keys == status.Keys + (patch.Keys - todo)
      invariant forall k | k in merged :: merged[k] == if k in patch && k !in todo then patch[k] else status[k]
      decreases todo
    {
      var k :| k in todo;
      merged := merged[k := patch[k]];
      todo := todo - {k};
    }
  }

  class Controller {
    const delay: int
    var crs: map<string, CR>
    var jobs: map<string, Job>
    var doomed: set<string>
    var summaries: map<string, nat>

    ghost function Store(): Cluster
      reads this
    {
      Cluster(crs, jobs, doomed, summaries)
    }

    constructor (delay: int, crs: map<string, CR>, jobs: map<string, Job>, summaries: map<string, nat>)
      ensures Store() == Cluster(crs, jobs, {}, summaries) && this.delay == delay
    {
      this.delay, this.crs, this.jobs, this.doomed, this.summaries := delay, crs, jobs, {}, summaries;
    }

    method ScheduleJobDeletion(name: string)
      modifies this
      ensures Store() == Delete(delay, old(Store()), {name})
    {
      if delay <= 0 {
        jobs, summaries := jobs - {name}, summaries - {name};
      } else {
        doomed := doomed + {name};
      }
    }

    /** The loop over the node's Jobs that are not the current one. */
    method DeleteStale(node: string, current: string)
      modifies this
      ensures Store() == Delete(delay, old(Store()), Stale(old(jobs), node, current))
    {
      var items, todo, gone := jobs, jobs.Keys, {};
      while todo != {}
        invariant todo <= items.Keys && gone == Stale(items, node, current) - todo
        invariant Store() == Delete(delay, old(Store()), gone)
        decreases todo
      {
        var k :| k in todo;
        todo := todo - {k};
        if items[k].node == node && k != current {
          ScheduleJobDeletion(k);
          gone := gone + {k};
        }
      }
    }

    method ReconcileOne(nodes: set<string>, node: string) returns (ok: bool)
      modifies this
      ensures (Store(), ok) == Reconcile(delay, nodes, old(Store()), node)
    {
      if node !in crs {
        return false;
      }
      var cr := crs[node];
      var specChanged := cr.observed == 0 || cr.generation != cr.observed;
      if (cr.state.Configured? || cr.state.Failed?) && !specChanged {
        return true;
      }
      if node !in nodes {
        return false;
      }
      var name := JobName(node, cr.generation);
      crs := crs[node := CR(cr.generation, cr.generation, InProgress, name)];
      if name in jobs {
        return true;
      }
      jobs := jobs[name := Job(node, cr.generation, 0, 0)];
      DeleteStale(node, name);
      return true;
    }

    method ProcessAll(nodes: set<string>, order: seq<string>) returns (ok: bool)
      modifies this
      ensures (Store(), ok) == ReconcileAll(delay, nodes, old(Store()), order)
    {
      var i := 0;
      while i < |order|
        invariant i <= |order|
        invariant ReconcileAll(delay, nodes, Store(), order[i..]) == ReconcileAll(delay, nodes, old(Store()), order)
      {
        assert order[i..][1..] == order[i + 1..];
        ok := ReconcileOne(nodes, order[i]);
        if !ok {
          return;
        }
        i := i + 1;
      }
      return true;
    }

    method ProcessOne(it: Item)
      modifies this
      ensures Store() == ProcessItem(delay, old(Store()), it)
    {
      var job := it.job;
      if job.node !in crs {
        return;
      }
      var state := crs[job.node].state;
      if job.succeeded > 0 {
        if !state.Configured? {
          var failures := if it.name in summaries then summaries[it.name] else 0;
          crs := crs[job.node := crs[job.node].(state := if failures > 0 then Failed else Configured)];
          ScheduleJobDeletion(it.name);
        }
      } else if job.failed > 0 {
        if !state.Failed? {
          crs := crs[job.node := crs[job.node].(state := Failed)];
          ScheduleJobDeletion(it.name);
        }
      }
    }

    method ListJobs() returns (order: seq<string>)
      ensures Lists(jobs, order)
    {
      var todo := jobs.Keys;
      order := [];
      while todo != {}
        invariant forall i | 0 <= i < |order| :: order[i] in jobs && order[i] !in todo
        invariant forall i, j | 0 <= i < j < |order| :: order[i] != order[j]
        invariant forall k | k in jobs :: k in todo || k in order
        decreases todo
      {
        var k :| k in todo;
        todo := todo - {k};
        order := order + [k];
      }
    }

    /** One poll cycle. A failed ProcessAll ends it. */
    method RunOnce(nodes: set<string>, order: seq<string>) returns (ok: bool)
      modifies this
      ensures var (mid, fine) := ReconcileAll(delay, nodes, old(Store()), order);
              && ok == fine
              && (if fine then exists js ::
                    Lists(mid.jobs, js) && Store() == ProcessItems(delay, mid, Snapshot(mid.jobs, js))
                  else Store() == mid)
    {
      ok := ProcessAll(nodes, order);
      if ok {
        var js := ListJobs();
        ProcessJobs(js);
      }
    }

    method ProcessJobs(order: seq<string>)
      requires Lists(jobs, order)
      modifies this
      ensures Store() == ProcessItems(delay, old(Store()), Snapshot(old(jobs), order))
    {
      var items := Snapshot(jobs, order);
      var i := 0;
      while i < |items|
        invariant i <= |items|
        invariant ProcessItems(delay, Store(), items[i..]) == ProcessItems(delay, old(Store()), items)
      {
        assert items[i..][1..] == items[i + 1..];
        ProcessOne(items[i]);
        i := i + 1;
      }
    }
  }
}
