/** The queue is first in, first out: jobs are tried for the first time in the order of submission. */
module PoolOrder {
  import opened WorkerPool

  /** The queued jobs that have not been tried yet. */
  function Untried(q: seq<Envelope>): seq<nat> {
    if q == [] then [] else (if q[0].attempt == 0 then [q[0].job] else []) + Untried(q[1..])
  }

  lemma {:induction false} UntriedAppend(q: seq<Envelope>, e: Envelope)
    ensures Untried(q + [e]) == Untried(q) + (if e.attempt == 0 then [e.job] else [])
  {
    if q == [] {
      assert q + [e] == [e] && [e][1..] == [];
    } else {
      UntriedAppend(q[1..], e);
      assert (q + [e])[1..] == q[1..] + [e];
    }
  }

  /** The untried jobs are the last ones submitted, oldest first. */
  predicate LatestInOrder(u: seq<nat>, submitted: nat) {
    |u| <= submitted && forall k | 0 <= k < |u| :: u[k] == submitted - |u| + k
  }

  /** What is about to go back has been tried. */
  predicate TriedBefore(ws: seq<Worker>) {
    forall i | 0 <= i < |ws| && ws[i].Sending? :: ws[i].env.attempt > 0
  }

  predicate Ordered(s: State) { LatestInOrder(Untried(s.queue), s.submitted) && TriedBefore(s.workers) }

  lemma OldestLeaves(x: nat, v: seq<nat>, n: nat)
    requires LatestInOrder([x] + v, n)
    ensures LatestInOrder(v, n) && forall k | 0 <= k < |v| :: x < v[k]
  {
    assert ([x] + v)[0] == x && forall k | 0 <= k < |v| :: ([x] + v)[k + 1] == v[k];
  }

  lemma StepKeepsOrdered(cfg: Config, s: State, a: Action)
    requires Enabled(cfg, s, a) && Ordered(s)
    ensures Ordered(Do(cfg, s, a))
  {
    var u, s' := Untried(s.queue), Do(cfg, s, a);
    if a.Send? {
      UntriedAppend(s.queue, Envelope(s.submitted, 0, []));
      assert Untried(s'.queue) == u + [s.submitted];
    } else if a.Step? {
      assert TriedBefore(s'.workers);
      if a.move.Requeue? {
        UntriedAppend(s.queue, s.workers[a.w].env);
        assert Untried(s'.queue) == u;
      } else if a.move.Dequeue? {
        if s.queue[0].attempt == 0 {
          OldestLeaves(s.queue[0].job, Untried(s'.queue), s.submitted);
        } else {
          assert u == Untried(s'.queue);
        }
      }
    }
  }

  lemma {:induction false} RunKeepsOrdered(cfg: Config, s: State, acts: seq<Action>)
    requires CanRun(cfg, s, acts) && Ordered(s)
    ensures Ordered(Run(cfg, s, acts))
    decreases |acts|
  {
    if acts != [] {
      StepKeepsOrdered(cfg, s, acts[0]);
      RunKeepsOrdered(cfg, Do(cfg, s, acts[0]), acts[1..]);
    }
  }

  lemma {:induction false} UntriedHas(q: seq<Envelope>, i: nat)
    requires i < |q| && q[i].attempt == 0
    ensures q[i].job in Untried(q)
  {
    if i > 0 {
      UntriedHas(q[1..], i - 1);
    }
  }

  /** In every run, a job received for the first time was submitted before all jobs that still wait
      for their first attempt. */
  lemma OldestFirst(cfg: Config, acts: seq<Action>, w: nat)
    requires CanRun(cfg, Init(cfg), acts) && Enabled(cfg, Run(cfg, Init(cfg), acts), Step(w, Dequeue))
    ensures var s := Do(cfg, Run(cfg, Init(cfg), acts), Step(w, Dequeue));
            && s.workers[w].Taken?
            && (s.workers[w].env.attempt == 0 ==>
                  forall i | 0 <= i < |s.queue| && s.queue[i].attempt == 0 :: s.workers[w].env.job < s.queue[i].job)
  {
    var s := Run(cfg, Init(cfg), acts);
    RunKeepsOrdered(cfg, Init(cfg), acts);
    var s' := Do(cfg, s, Step(w, Dequeue));
    forall i | 0 <= i < |s'.queue| && s'.queue[i].attempt == 0 && s'.workers[w].env.attempt == 0
      ensures s'.workers[w].env.job < s'.queue[i].job
    {
      UntriedHas(s'.queue, i);
      OldestLeaves(s.queue[0].job, Untried(s'.queue), s.submitted);
    }
  }
}
