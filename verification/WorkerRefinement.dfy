/** A worker that nobody disturbs does, step by step, exactly what `Reconciled` says at once. */
module WorkerRefinement {
  import opened Common
  import opened NodeAttributes
  import opened Cluster
  import opened WakeUp

  /** The worker of a pool runs to its end without any other step in between. */
  ghost function RunWorker(s: System, poolName: string): System
    requires poolName in s.active
    decreases |if poolName in s.active then s.active[poolName].writes else []|
  {
    if s.active[poolName].writes == [] then Step(s, Finish(poolName))
    else
      var s' := Step(s, WriteNode(poolName));
      if poolName in s'.active then RunWorker(s', poolName) else s'
  }

  function View(s: System): State {
    State(s.nodes, s.pools, s.queue)
  }

  function NamesOf(writes: seq<Write>): set<string> {
    set i | 0 <= i < |writes| :: writes[i].name
  }

  lemma NamesOfPrefix(writes: seq<Write>, k: nat)
    requires k < |writes|
    ensures NamesOf(writes[..k + 1]) == NamesOf(writes[..k]) + {writes[k].name}
  {
    assert writes[..k + 1] == writes[..k] + [writes[k]];
    assert writes[..k + 1][k].name == writes[k].name;
    forall name | name in NamesOf(writes[..k]) ensures name in NamesOf(writes[..k + 1]) {
      var j :| 0 <= j < k && writes[..k][j].name == name;
      assert writes[..k + 1][j].name == name;
    }
  }

  ghost function TouchSome(nodes: map<string, Node>, poolName: string, spec: Attrs,
                           done: set<string>): map<string, Node> {
    map name | name in nodes :: if name in done then Touch(nodes[name], poolName, spec) else nodes[name]
  }

  /** The state after the first `k` writes of a plan made from `s`. */
  ghost function Midway(s: System, poolName: string, writes: seq<Write>, k: nat): System
    requires poolName in s.pools && k <= |writes|
  {
    var pool := s.pools[poolName];
    var done := NamesOf(writes[..k]);
    System(TouchSome(s.nodes, poolName, pool.spec, done), s.pools,
           s.queue - {poolName} + WokenByTouch(s.nodes, poolName, pool.spec, done),
           s.active[poolName := Work(pool, writes[k..], PlannedStatus(s.nodes, poolName, pool))])
  }

  lemma TouchOneMore(nodes: map<string, Node>, poolName: string, spec: Attrs, done: set<string>, name: string)
    requires name in nodes && name !in done && Changes(nodes, poolName, spec, name)
    ensures TouchSome(nodes, poolName, spec, done + {name}) ==
            TouchSome(nodes, poolName, spec, done)[name := Touch(nodes[name], poolName, spec)]
    ensures WokenByTouch(nodes, poolName, spec, done + {name}) ==
            WokenByTouch(nodes, poolName, spec, done) + WokenByUpdate(nodes[name], Touch(nodes[name], poolName, spec))
  {
  }

  lemma NotYetDone(writes: seq<Write>, k: nat)
    requires k < |writes|
    requires forall i, j :: 0 <= i < j < |writes| ==> writes[i].name != writes[j].name
    ensures writes[k].name !in NamesOf(writes[..k])
  {
  }

  lemma WriteAccepted(s: System, poolName: string, work: Work, w: Write, rest: seq<Write>)
    requires poolName in s.active && s.active[poolName] == work && work.writes == [w] + rest
    requires w.name in s.nodes && s.nodes[w.name] == w.before
    ensures Step(s, WriteNode(poolName)) ==
            System(s.nodes[w.name := w.after], s.pools, s.queue + WokenByUpdate(w.before, w.after),
                   s.active[poolName := work.(writes := rest)])
  {
    assert work.writes[0] == w && work.writes[1..] == rest;
  }

  lemma PlannedWrite(nodes: map<string, Node>, poolName: string, spec: Attrs, writes: seq<Write>, k: nat)
    requires k < |writes| && IsPlan(nodes, poolName, spec, writes)
    ensures var w := writes[k];
            && w.name in nodes && w.before == nodes[w.name] && w.after == Touch(w.before, poolName, spec)
            && Changes(nodes, poolName, spec, w.name) && w.name !in NamesOf(writes[..k])
  {
    NotYetDone(writes, k);
  }

  lemma MidwayExtends(s: System, poolName: string, writes: seq<Write>, k: nat, w: Write)
    requires poolName in s.pools && k < |writes| && w == writes[k]
    requires var spec := s.pools[poolName].spec;
             && w.name in s.nodes && w.before == s.nodes[w.name] && w.after == Touch(w.before, poolName, spec)
             && Changes(s.nodes, poolName, spec, w.name) && w.name !in NamesOf(writes[..k])
    ensures var mid, next := Midway(s, poolName, writes, k), Midway(s, poolName, writes, k + 1);
            && w.name in mid.nodes && mid.nodes[w.name] == w.before
            && next == System(mid.nodes[w.name := w.after], mid.pools, mid.queue + WokenByUpdate(w.before, w.after),
                              mid.active[poolName := mid.active[poolName].(writes := writes[k + 1..])])
  {
    var mid, next := Midway(s, poolName, writes, k), Midway(s, poolName, writes, k + 1);
    var spec, done := s.pools[poolName].spec, NamesOf(writes[..k]);
    NamesOfPrefix(writes, k);
    assert next.nodes == mid.nodes[w.name := w.after] && next.queue == mid.queue + WokenByUpdate(w.before, w.after) by {
      TouchOneMore(s.nodes, poolName, spec, done, w.name);
      QueueGrows(s.queue - {poolName}, WokenByTouch(s.nodes, poolName, spec, done), WokenByUpdate(w.before, w.after));
    }
    UpdateTwice(s.active, poolName, mid.active[poolName], next.active[poolName]);
  }

  lemma UpdateTwice(m: map<string, Work>, key: string, first: Work, second: Work)
    ensures m[key := first][key := second] == m[key := second]
  {
  }

  lemma QueueGrows(a: set<string>, b: set<string>, c: set<string>)
    ensures a + (b + c) == a + b + c
  {
  }

  lemma MidwayStep(s: System, poolName: string, writes: seq<Write>, k: nat)
    requires poolName in s.pools && k < |writes|
    requires IsPlan(s.nodes, poolName, s.pools[poolName].spec, writes)
    ensures Enabled(Midway(s, poolName, writes, k), WriteNode(poolName))
    ensures Step(Midway(s, poolName, writes, k), WriteNode(poolName)) == Midway(s, poolName, writes, k + 1)
  {
    hide Step, TouchSome, WokenByTouch, WokenByUpdate, Touch, PlannedStatus;
    var w := writes[k];
    PlannedWrite(s.nodes, poolName, s.pools[poolName].spec, writes, k);
    MidwayExtends(s, poolName, writes, k, w);
    var mid := Midway(s, poolName, writes, k);
    var work := mid.active[poolName];
    assert work.writes == [w] + writes[k + 1..];
    WriteAccepted(mid, poolName, work, w, writes[k + 1..]);
  }

  lemma PlanCoversChanges(nodes: map<string, Node>, poolName: string, spec: Attrs, writes: seq<Write>)
    requires IsPlan(nodes, poolName, spec, writes)
    ensures TouchSome(nodes, poolName, spec, NamesOf(writes)) == TouchAll(nodes, poolName, spec)
    ensures WokenByTouch(nodes, poolName, spec, NamesOf(writes)) == WokenByTouch(nodes, poolName, spec, nodes.Keys)
  {
    forall name | name in nodes && Changes(nodes, poolName, spec, name) ensures name in NamesOf(writes) {
      var i :| 0 <= i < |writes| && writes[i].name == name;
    }
  }

  lemma FinishAccepted(s: System, poolName: string, pool: Pool, status: Option<Status>)
    requires poolName in s.active && s.active[poolName] == Work(pool, [], status)
    requires poolName in s.pools && s.pools[poolName] == pool
    ensures Step(s, Finish(poolName)) ==
            if status.None? then s.(active := s.active - {poolName})
            else System(s.nodes, s.pools[poolName := pool.(status := status.value)], s.queue + {poolName},
                        s.active - {poolName})
  {
  }

  lemma MidwayEnd(s: System, poolName: string, writes: seq<Write>)
    requires poolName in s.pools && poolName !in s.active
    requires IsPlan(s.nodes, poolName, s.pools[poolName].spec, writes)
    ensures var last := Midway(s, poolName, writes, |writes|);
            && Enabled(last, Finish(poolName))
            && View(Step(last, Finish(poolName))) == Reconciled(View(s), poolName)
            && Step(last, Finish(poolName)).active == s.active
  {
    hide Step, TouchSome, WokenByTouch, Touch, StatusCurrent, StatusFor, IsPlan;
    var last, pool := Midway(s, poolName, writes, |writes|), s.pools[poolName];
    assert writes[..|writes|] == writes;
    PlanCoversChanges(s.nodes, poolName, pool.spec, writes);
    assert last.active - {poolName} == s.active;
    FinishAccepted(last, poolName, pool, PlannedStatus(s.nodes, poolName, pool));
  }

  lemma {:induction false} RunFromMidway(s: System, poolName: string, writes: seq<Write>, k: nat)
    requires poolName in s.pools && poolName !in s.active && k <= |writes|
    requires IsPlan(s.nodes, poolName, s.pools[poolName].spec, writes)
    ensures View(RunWorker(Midway(s, poolName, writes, k), poolName)) == Reconciled(View(s), poolName)
    ensures RunWorker(Midway(s, poolName, writes, k), poolName).active == s.active
    decreases |writes| - k
  {
    if k == |writes| {
      MidwayEnd(s, poolName, writes);
    } else {
      MidwayStep(s, poolName, writes, k);
      RunFromMidway(s, poolName, writes, k + 1);
    }
  }

  /** Whatever order the plan lists the writes in, taking the pool and running alone gives `Reconciled`. */
  lemma UndisturbedWorkerReconciles(s: System, poolName: string, writes: seq<Write>)
    requires Enabled(s, Start(poolName, writes)) && poolName in s.pools
    ensures var started := Step(s, Start(poolName, writes));
            && View(RunWorker(started, poolName)) == Reconciled(View(s), poolName)
            && RunWorker(started, poolName).active == s.active
  {
    hide WokenByUpdate, Touch, StatusCurrent, StatusFor, IsPlan, RunWorker;
    assert NamesOf(writes[..0]) == {};
    assert writes[0..] == writes;
    assert TouchSome(s.nodes, poolName, s.pools[poolName].spec, {}) == s.nodes;
    assert Step(s, Start(poolName, writes)) == Midway(s, poolName, writes, 0);
    RunFromMidway(s, poolName, writes, 0);
  }
}
