/**
  No lost wake-up, over every interleaving. Any number of workers reconcile different pools at the same time: each
  takes a pool from the queue, reads the store once, and then issues its writes one by one while users, other workers
  and restarts change the store in between. A write is accepted only if the node is still as it was read; a failed
  write (or any other failure) puts the pool back into the queue.
 */
module WakeUp {
  import opened Common
  import opened NodeAttributes
  import opened Cluster

  datatype Write = Write(name: string, before: Node, after: Node)

  /** What a worker still has to do for its pool: node writes in order, then perhaps a status write. */
  datatype Work = Work(pool: Pool, writes: seq<Write>, status: Option<Status>)

  datatype System = System(
    nodes: map<string, Node>,
    pools: map<string, Pool>,
    queue: set<string>,
    active: map<string, Work>)

  datatype Action =
    | EditNode(name: string, node: Node)
    | CreateNode(name: string, node: Node)
    | DeleteNode(name: string)
    | CreatePool(poolName: string, spec: Attrs)
    | EditPool(poolName: string, spec: Attrs)
    | DeletePool(poolName: string)
    | Start(poolName: string, writes: seq<Write>)
    | WriteNode(poolName: string)
    | Finish(poolName: string)
    | Fail(poolName: string)
    | Restart

  // ---------- The steps ----------

  /** The plan a worker makes from the store it reads: one write for every node that the reconcile changes. */
  ghost predicate IsPlan(nodes: map<string, Node>, poolName: string, spec: Attrs, writes: seq<Write>) {
    && (forall i, j :: 0 <= i < j < |writes| ==> writes[i].name != writes[j].name)
    && (forall i :: 0 <= i < |writes| ==>
          && writes[i].name in nodes && writes[i].before == nodes[writes[i].name]
          && writes[i].after == Touch(writes[i].before, poolName, spec) && writes[i].after != writes[i].before)
    && (forall name :: name in nodes && Changes(nodes, poolName, spec, name) ==>
          exists i :: 0 <= i < |writes| && writes[i].name == name)
  }

  ghost function PlannedStatus(nodes: map<string, Node>, poolName: string, pool: Pool): Option<Status> {
    if StatusCurrent(nodes, poolName, pool.status) then None else Some(StatusFor(nodes, poolName))
  }

  /** Users may do anything to a node except touch the owner label and the cached attributes. */
  predicate UserEdit(before: Node, after: Node) {
    && (LABEL_OWNER in after.labels <==> LABEL_OWNER in before.labels)
    && Owner(after) == Owner(before)
    && after.cached == before.cached
  }

  ghost predicate Enabled(s: System, a: Action) {
    match a
    case EditNode(name, node) => name in s.nodes && UserEdit(s.nodes[name], node)
    case CreateNode(name, node) => name !in s.nodes && LABEL_OWNER !in node.labels && node.cached == None
    case DeleteNode(name) => name in s.nodes
    case CreatePool(p, spec) => p !in s.pools && p != "" && ReservedFree(spec)
    case EditPool(p, spec) => p in s.pools && ReservedFree(spec)
    case DeletePool(p) => p in s.pools
    case Start(p, writes) =>
      p in s.queue && p !in s.active && (p in s.pools ==> IsPlan(s.nodes, p, s.pools[p].spec, writes))
    case WriteNode(p) => p in s.active && s.active[p].writes != []
    case Finish(p) => p in s.active && s.active[p].writes == []
    case Fail(p) => p in s.active
    case Restart => true
  }

  function Requeued(s: System, poolName: string): System {
    s.(queue := s.queue + {poolName}, active := s.active - {poolName})
  }

  ghost function Step(s: System, a: Action): System
    requires Enabled(s, a)
  {
    match a
    case EditNode(name, node) =>
      s.(nodes := s.nodes[name := node], queue := s.queue + WokenByUpdate(s.nodes[name], node))
    case CreateNode(name, node) =>
      s.(nodes := s.nodes[name := node], queue := s.queue + WokenByCreate(node))
    case DeleteNode(name) =>
      s.(nodes := s.nodes - {name}, queue := s.queue + WokenByDelete(s.nodes[name]))
    case CreatePool(p, spec) =>
      s.(pools := s.pools[p := Pool(spec, Status(0, 0, []))], queue := s.queue + {p})
    case EditPool(p, spec) =>
      s.(pools := s.pools[p := s.pools[p].(spec := spec)], queue := s.queue + {p})
    case DeletePool(p) =>
      s.(pools := s.pools - {p}, queue := s.queue + {p})
    case Start(p, writes) =>
      var taken := s.(queue := s.queue - {p});
      if p in s.pools then
        taken.(active := s.active[p := Work(s.pools[p], writes, PlannedStatus(s.nodes, p, s.pools[p]))])
      else taken
    case WriteNode(p) =>
      var work := s.active[p];
      var w := work.writes[0];
      if w.name in s.nodes && s.nodes[w.name] == w.before then
        s.(nodes := s.nodes[w.name := w.after], queue := s.queue + WokenByUpdate(w.before, w.after),
           active := s.active[p := work.(writes := work.writes[1..])])
      else Requeued(s, p)
    case Finish(p) =>
      var work := s.active[p];
      if work.status.None? then s.(active := s.active - {p})
      else if p in s.pools && s.pools[p] == work.pool then
        Requeued(s, p).(pools := s.pools[p := work.pool.(status := work.status.value)])
      else Requeued(s, p)
    case Fail(p) => Requeued(s, p)
    case Restart =>
      s.(queue := s.pools.Keys + (set n | n in s.nodes.Values :: Desired(n)), active := map[])
  }

  // ---------- The invariant ----------

  ghost predicate WorkOk(poolName: string, work: Work) {
    && poolName != "" && ReservedFree(work.pool.spec)
    && forall i :: 0 <= i < |work.writes| ==>
         && work.writes[i].after == Touch(work.writes[i].before, poolName, work.pool.spec)
         && work.writes[i].after != work.writes[i].before
  }

  /** A worker with writes left will put its pool back: each write wakes it if accepted and requeues it if not. */
  predicate Busy(s: System, poolName: string) {
    poolName in s.active && (s.active[poolName].writes != [] || s.active[poolName].status.Some?)
  }

  ghost predicate Awake(s: System, poolName: string)
    requires poolName in s.pools
  {
    poolName in s.queue || Busy(s, poolName) || Settled(s.nodes, s.pools, poolName)
  }

  ghost predicate Inv(s: System) {
    && StoreOk(s.nodes, s.pools)
    && (forall p :: p in s.active ==> WorkOk(p, s.active[p]))
    && (forall p :: p in s.pools ==> Awake(s, p))
  }

  /** A fresh controller: whatever the store looks like, the initial listing queues every pool. */
  ghost predicate Initial(s: System) {
    StoreOk(s.nodes, s.pools) && s.active == map[] && s.pools.Keys <= s.queue
  }

  // ---------- What one changed node means for a pool that is not woken ----------

  /** Nodes that differ only in ways that a settled pool does not see. */
  ghost predicate SameFor(poolName: string, before: Node, after: Node) {
    && (Desired(before) == poolName <==> Desired(after) == poolName)
    && (Owner(before) == poolName <==> Owner(after) == poolName)
    && (Desired(before) == poolName ==> before.ready == after.ready && before.cached == after.cached)
  }

  lemma MembersAfterEdit(nodes: map<string, Node>, nodes': map<string, Node>, poolName: string, name: string)
    requires name in nodes && name in nodes' && nodes' == nodes[name := nodes'[name]]
    requires SameFor(poolName, nodes[name], nodes'[name])
    ensures StatusFor(nodes', poolName) == StatusFor(nodes, poolName)
  {
    hide Desired, Owner;
    assert Members(nodes', poolName) == Members(nodes, poolName);
    assert ReadyMembers(nodes', poolName) == ReadyMembers(nodes, poolName);
  }

  lemma SettledAfterEdit(nodes: map<string, Node>, pools: map<string, Pool>, poolName: string, name: string, node: Node)
    requires StoreOk(nodes, pools) && NodeOk(node) && poolName in pools
    requires Settled(nodes, pools, poolName)
    requires name in nodes && SameFor(poolName, nodes[name], node)
    ensures Settled(nodes[name := node], pools, poolName)
  {
    var nodes' := nodes[name := node];
    MembersAfterEdit(nodes, nodes', poolName, name);
    var spec := pools[poolName].spec;
    forall other | other in nodes' ensures !Changes(nodes', poolName, spec, other) {
      assert !Changes(nodes, poolName, spec, other);
      if other == name {
        TouchFacts(nodes[name], poolName, spec);
        TouchFacts(node, poolName, spec);
      }
    }
  }

  /** The handler wakes every pool that could care about an update, given that the pool had nothing left to do. */
  lemma UnwokenSeesNothing(before: Node, after: Node, poolName: string, spec: Attrs)
    requires NodeOk(before) && NodeOk(after) && ReservedFree(spec) && poolName != ""
    requires Touch(before, poolName, spec) == before
    requires poolName !in WokenByUpdate(before, after)
    requires Owner(after) == Owner(before) && after.cached == before.cached
    ensures SameFor(poolName, before, after)
  {
    TouchFacts(before, poolName, spec);
  }

  lemma SettledAfterUserEdit(s: System, name: string, node: Node, poolName: string)
    requires StoreOk(s.nodes, s.pools) && poolName in s.pools && Settled(s.nodes, s.pools, poolName)
    requires name in s.nodes && UserEdit(s.nodes[name], node)
    requires poolName !in WokenByUpdate(s.nodes[name], node)
    ensures Settled(s.nodes[name := node], s.pools, poolName)
  {
    var spec := s.pools[poolName].spec;
    assert !Changes(s.nodes, poolName, spec, name);
    UnwokenSeesNothing(s.nodes[name], node, poolName, spec);
    SettledAfterEdit(s.nodes, s.pools, poolName, name, node);
  }

  lemma MembersAfterAdd(nodes: map<string, Node>, name: string, node: Node, poolName: string)
    requires name !in nodes && Desired(node) != poolName
    ensures StatusFor(nodes[name := node], poolName) == StatusFor(nodes, poolName)
  {
    hide Desired;
    assert Members(nodes[name := node], poolName) == Members(nodes, poolName);
    assert ReadyMembers(nodes[name := node], poolName) == ReadyMembers(nodes, poolName);
  }

  /** A node that a pool neither claims nor owns can be added under a settled pool's eyes. */
  lemma SettledAfterAdd(nodes: map<string, Node>, pools: map<string, Pool>, name: string, node: Node, poolName: string)
    requires poolName in pools && Settled(nodes, pools, poolName)
    requires name !in nodes && Desired(node) != poolName && Owner(node) != poolName
    ensures Settled(nodes[name := node], pools, poolName)
  {
    hide Concile, Strip, Desired, Owner;
    var nodes' := nodes[name := node];
    var spec := pools[poolName].spec;
    MembersAfterAdd(nodes, name, node, poolName);
    hide StatusFor;
    forall other | other in nodes' ensures !Changes(nodes', poolName, spec, other) {
      if other != name {
        assert !Changes(nodes, poolName, spec, other);
        assert nodes'[other] == nodes[other];
      }
    }
  }

  lemma SettledAfterCreate(s: System, name: string, node: Node, poolName: string)
    requires StoreOk(s.nodes, s.pools) && poolName in s.pools && Settled(s.nodes, s.pools, poolName)
    requires name !in s.nodes && LABEL_OWNER !in node.labels && node.cached == None
    requires poolName !in WokenByCreate(node)
    ensures Settled(s.nodes[name := node], s.pools, poolName)
  {
    assert poolName != "" && Owner(node) == "";
    SettledAfterAdd(s.nodes, s.pools, name, node, poolName);
  }

  lemma MembersAfterDelete(nodes: map<string, Node>, name: string, poolName: string)
    requires name in nodes && Desired(nodes[name]) != poolName
    ensures StatusFor(nodes - {name}, poolName) == StatusFor(nodes, poolName)
  {
    hide Desired;
    assert Members(nodes - {name}, poolName) == Members(nodes, poolName);
    assert ReadyMembers(nodes - {name}, poolName) == ReadyMembers(nodes, poolName);
  }

  lemma SettledAfterDelete(s: System, name: string, poolName: string)
    requires StoreOk(s.nodes, s.pools) && poolName in s.pools && Settled(s.nodes, s.pools, poolName)
    requires name in s.nodes && poolName !in WokenByDelete(s.nodes[name])
    ensures Settled(s.nodes - {name}, s.pools, poolName)
  {
    hide Concile, Strip;
    var nodes' := s.nodes - {name};
    var spec := s.pools[poolName].spec;
    assert !Changes(s.nodes, poolName, spec, name);
    TouchFacts(s.nodes[name], poolName, spec);
    MembersAfterDelete(s.nodes, name, poolName);
    hide StatusFor, Desired, Owner, Touch, NodeOk;
    forall other | other in nodes' ensures !Changes(nodes', poolName, spec, other) {
      assert !Changes(s.nodes, poolName, spec, other);
    }
  }

  /** A write of one pool's worker cannot unsettle another pool, and always wakes its own. */
  lemma WriteFacts(w: Write, writer: string, spec: Attrs)
    requires NodeOk(w.before) && ReservedFree(spec) && writer != ""
    requires w.after == Touch(w.before, writer, spec) && w.after != w.before
    ensures NodeOk(w.after) && writer in WokenByUpdate(w.before, w.after)
  {
    TouchFacts(w.before, writer, spec);
  }

  lemma OthersSeeNoWrite(before: Node, after: Node, writer: string, spec: Attrs, poolName: string, poolSpec: Attrs)
    requires NodeOk(before) && ReservedFree(spec) && ReservedFree(poolSpec) && writer != "" && poolName != ""
    requires after == Touch(before, writer, spec) && after != before && poolName != writer
    requires Touch(before, poolName, poolSpec) == before
    ensures SameFor(poolName, before, after)
  {
    TouchFacts(before, writer, spec);
    TouchFacts(before, poolName, poolSpec);
    if Desired(before) == writer {
      ConcileFacts(before, spec, writer);
    } else {
      StripFacts(before);
    }
  }

  lemma SettledAfterWrite(s: System, writer: string, poolName: string)
    requires Inv(s) && Enabled(s, WriteNode(writer))
    requires poolName in s.pools && poolName != writer && Settled(s.nodes, s.pools, poolName)
    ensures Settled(Step(s, WriteNode(writer)).nodes, s.pools, poolName)
  {
    var work := s.active[writer];
    var w := work.writes[0];
    if w.name in s.nodes && s.nodes[w.name] == w.before {
      assert !Changes(s.nodes, poolName, s.pools[poolName].spec, w.name);
      WriteFacts(w, writer, work.pool.spec);
      OthersSeeNoWrite(w.before, w.after, writer, work.pool.spec, poolName, s.pools[poolName].spec);
      SettledAfterEdit(s.nodes, s.pools, poolName, w.name, w.after);
    }
  }

  /** Reading a store in which nothing is left to do is what an empty plan means. */
  lemma EmptyPlanIsSettled(s: System, poolName: string)
    requires poolName in s.pools && IsPlan(s.nodes, poolName, s.pools[poolName].spec, [])
    requires PlannedStatus(s.nodes, poolName, s.pools[poolName]) == None
    ensures Settled(s.nodes, s.pools, poolName)
  {
  }

  // ---------- Every step keeps the invariant ----------

  lemma StoreOkAfterUserEdit(s: System, name: string, node: Node)
    requires StoreOk(s.nodes, s.pools) && name in s.nodes && UserEdit(s.nodes[name], node)
    ensures StoreOk(s.nodes[name := node], s.pools)
  {
  }

  lemma StoreOkAfterWrite(s: System, a: Action)
    requires Inv(s) && Enabled(s, a) && a.WriteNode?
    ensures StoreOk(Step(s, a).nodes, Step(s, a).pools)
    ensures forall p :: p in Step(s, a).active ==> WorkOk(p, Step(s, a).active[p])
  {
    hide Awake, Touch, WokenByUpdate, StatusFor, StatusCurrent, NodeOk;
    var p := a.poolName;
    var w := s.active[p].writes[0];
    if w.name in s.nodes && s.nodes[w.name] == w.before {
      WriteFacts(w, p, s.active[p].pool.spec);
    }
  }

  lemma StoreOkAfterStart(s: System, a: Action)
    requires Inv(s) && Enabled(s, a) && a.Start?
    ensures StoreOk(Step(s, a).nodes, Step(s, a).pools)
    ensures forall p :: p in Step(s, a).active ==> WorkOk(p, Step(s, a).active[p])
  {
    hide Awake, Touch, PlannedStatus, NodeOk;
  }

  lemma StoreOkKept(s: System, a: Action)
    requires Inv(s) && Enabled(s, a)
    ensures StoreOk(Step(s, a).nodes, Step(s, a).pools)
    ensures forall p :: p in Step(s, a).active ==> WorkOk(p, Step(s, a).active[p])
  {
    hide Awake, Touch, WokenByUpdate, WokenByCreate, WokenByDelete, StatusFor, StatusCurrent, UserEdit, IsPlan;
    match a
    case EditNode(name, node) => StoreOkAfterUserEdit(s, name, node);
    case WriteNode(_) => StoreOkAfterWrite(s, a);
    case Start(_, _) => StoreOkAfterStart(s, a);
    case _ =>
  }

  lemma AwakeAfterUserStep(s: System, a: Action, poolName: string)
    requires Inv(s) && Enabled(s, a) && (a.EditNode? || a.CreateNode? || a.DeleteNode?)
    requires poolName in s.pools && Awake(s, poolName)
    ensures Awake(Step(s, a), poolName)
  {
    if poolName !in Step(s, a).queue && !Busy(s, poolName) {
      match a
      case EditNode(name, node) => SettledAfterUserEdit(s, name, node, poolName);
      case CreateNode(name, node) => SettledAfterCreate(s, name, node, poolName);
      case DeleteNode(name) => SettledAfterDelete(s, name, poolName);
    }
  }

  lemma AwakeAfterPoolStep(s: System, a: Action, poolName: string)
    requires Inv(s) && Enabled(s, a) && (a.CreatePool? || a.EditPool? || a.DeletePool?)
    requires poolName in Step(s, a).pools
    ensures Awake(Step(s, a), poolName)
  {
    if poolName in s.pools {
      assert Awake(s, poolName);
    }
  }

  lemma AwakeAfterStart(s: System, a: Action, poolName: string)
    requires Inv(s) && Enabled(s, a) && a.Start?
    requires poolName in s.pools && Awake(s, poolName)
    ensures Awake(Step(s, a), poolName)
  {
    if a.poolName == poolName && a.writes == [] && !Busy(Step(s, a), poolName) {
      EmptyPlanIsSettled(s, poolName);
    }
  }

  lemma AwakeAfterWrite(s: System, a: Action, poolName: string)
    requires Inv(s) && Enabled(s, a) && a.WriteNode?
    requires poolName in s.pools && Awake(s, poolName)
    ensures Awake(Step(s, a), poolName)
  {
    if a.poolName == poolName {
      assert WorkOk(poolName, s.active[poolName]);
      var w := s.active[poolName].writes[0];
      if w.name in s.nodes && s.nodes[w.name] == w.before {
        WriteFacts(w, poolName, s.active[poolName].pool.spec);
      }
    } else if poolName !in Step(s, a).queue && !Busy(s, poolName) {
      SettledAfterWrite(s, a.poolName, poolName);
    }
  }

  lemma SettledSamePool(nodes: map<string, Node>, pools: map<string, Pool>, pools': map<string, Pool>, poolName: string)
    requires poolName in pools && poolName in pools' && pools'[poolName] == pools[poolName]
    requires Settled(nodes, pools, poolName)
    ensures Settled(nodes, pools', poolName)
  {
    forall name | name in nodes ensures !Changes(nodes, poolName, pools'[poolName].spec, name) {
      assert !Changes(nodes, poolName, pools[poolName].spec, name);
    }
  }

  lemma AwakeAfterWorkerEnd(s: System, a: Action, poolName: string)
    requires Inv(s) && Enabled(s, a) && (a.Finish? || a.Fail? || a.Restart?)
    requires poolName in s.pools && Awake(s, poolName)
    ensures Awake(Step(s, a), poolName)
  {
    hide StatusCurrent, Touch, NodeOk;
    var s' := Step(s, a);
    assert s'.nodes == s.nodes;
    if poolName !in s'.queue {
      assert s'.pools[poolName] == s.pools[poolName];
      if Settled(s.nodes, s.pools, poolName) {
        SettledSamePool(s.nodes, s.pools, s'.pools, poolName);
      }
    }
  }

  lemma AwakeKept(s: System, a: Action, poolName: string)
    requires Inv(s) && Enabled(s, a) && poolName in Step(s, a).pools
    ensures Awake(Step(s, a), poolName)
  {
    hide Awake, StoreOk, WorkOk, IsPlan, UserEdit, PlannedStatus, WokenByUpdate, WokenByCreate, WokenByDelete;
    if a.CreatePool? || a.EditPool? || a.DeletePool? {
      AwakeAfterPoolStep(s, a, poolName);
    } else {
      assert Awake(s, poolName);
      match a
      case Start(_, _) => AwakeAfterStart(s, a, poolName);
      case WriteNode(_) => AwakeAfterWrite(s, a, poolName);
      case Finish(_) => AwakeAfterWorkerEnd(s, a, poolName);
      case Fail(_) => AwakeAfterWorkerEnd(s, a, poolName);
      case Restart => AwakeAfterWorkerEnd(s, a, poolName);
      case _ => AwakeAfterUserStep(s, a, poolName);
    }
  }

  lemma StepKeepsInv(s: System, a: Action)
    requires Inv(s) && Enabled(s, a)
    ensures Inv(Step(s, a))
  {
    StoreOkKept(s, a);
    forall p | p in Step(s, a).pools ensures Awake(Step(s, a), p) {
      AwakeKept(s, a, p);
    }
  }

  // ---------- Runs ----------

  ghost predicate IsRun(states: seq<System>, actions: seq<Action>) {
    && |states| == |actions| + 1
    && Initial(states[0])
    && forall i :: 0 <= i < |actions| ==> Enabled(states[i], actions[i]) && states[i + 1] == Step(states[i], actions[i])
  }

  lemma {:induction false} RunKeepsInv(states: seq<System>, actions: seq<Action>, i: nat)
    requires IsRun(states, actions) && i < |states|
    ensures Inv(states[i])
  {
    if i > 0 {
      RunKeepsInv(states, actions, i - 1);
      StepKeepsInv(states[i - 1], actions[i - 1]);
    }
  }

  /**
    No lost wake-up: in every state of every run, a pool whose reconcile would still change a node or its status is in
    the queue, or a worker holds it with writes left.
   */
  lemma NoLostWakeUp(states: seq<System>, actions: seq<Action>, i: nat, poolName: string)
    requires IsRun(states, actions) && i < |states|
    requires poolName in states[i].pools && !Settled(states[i].nodes, states[i].pools, poolName)
    ensures poolName in states[i].queue || Busy(states[i], poolName)
  {
    RunKeepsInv(states, actions, i);
    assert Awake(states[i], poolName);
  }

  /** The worker that holds such a pool cannot drop it: its next step queues the pool, whatever happened meanwhile. */
  lemma BusyWorkerRequeues(states: seq<System>, actions: seq<Action>, i: nat, poolName: string)
    requires IsRun(states, actions) && i < |states| && Busy(states[i], poolName)
    ensures Enabled(states[i], WriteNode(poolName)) ==> poolName in Step(states[i], WriteNode(poolName)).queue
    ensures Enabled(states[i], Finish(poolName)) ==> poolName in Step(states[i], Finish(poolName)).queue
    ensures poolName in Step(states[i], Fail(poolName)).queue
    ensures Enabled(states[i], WriteNode(poolName)) || Enabled(states[i], Finish(poolName))
  {
    hide IsRun, Settled, Touch, IsPlan, NodeOk, WokenByUpdate;
    RunKeepsInv(states, actions, i);
    var s := states[i];
    assert WorkOk(poolName, s.active[poolName]);
    if s.active[poolName].writes != [] {
      var w := s.active[poolName].writes[0];
      if w.name in s.nodes && s.nodes[w.name] == w.before {
        WriteFacts(w, poolName, s.active[poolName].pool.spec);
      }
    }
  }

  /** When the queue is empty and no worker is busy, every pool is up to date. */
  lemma QuietMeansSettled(states: seq<System>, actions: seq<Action>, i: nat)
    requires IsRun(states, actions) && i < |states|
    requires states[i].queue == {} && states[i].active == map[]
    ensures forall p :: p in states[i].pools ==> Settled(states[i].nodes, states[i].pools, p)
  {
    RunKeepsInv(states, actions, i);
    forall p | p in states[i].pools ensures Settled(states[i].nodes, states[i].pools, p) {
      assert Awake(states[i], p);
    }
  }
}
