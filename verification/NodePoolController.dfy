/**
  The node pool controller in its own form: a local copy of a node that is edited in place, event handlers that add
  to a mutable work queue, and a reconciler that loops over listed nodes and writes them back. Every method is tied
  to the functions of `NodeAttributes` and `Cluster`.
 */
module NodePoolController {
  import opened Common
  import opened NodeAttributes
  import opened Cluster
  import Names

  // ---------- Lemmas about the first taint of a slot ----------

  lemma {:induction false} RemoveAt(t: Taint, ts: seq<Taint>, i: nat)
    requires i < |ts| && SameSlot(t, ts[i])
    requires forall j :: 0 <= j < i ==> !SameSlot(t, ts[j])
    ensures RemoveTaint(t, ts) == ts[..i] + ts[i + 1..]
  {
    if i > 0 {
      RemoveAt(t, ts[1..], i - 1);
      assert ts[..i] == [ts[0]] + ts[1..][..i - 1];
      assert ts[1..][i..] == ts[i + 1..];
    }
  }

  lemma RemoveAbsent(t: Taint, ts: seq<Taint>)
    requires !HasSlot(t, ts)
    ensures RemoveTaint(t, ts) == ts
  {
    RemoveFromTail(t, ts, []);
    assert ts + [] == ts;
  }

  // ---------- Map helpers ----------

  method MergeMap(m1: map<string, string>, m2: map<string, string>) returns (m: map<string, string>)
    ensures m == m1 + m2
  {
    m := m1;
    var todo := m2.Keys;
    assert Merged(m, m1, m2, todo);
    hide *;
    while todo != {}
      invariant Merged(m, m1, m2, todo)
      decreases |todo|
    {
      var k :| k in todo;
      MergedStep(m, m1, m2, todo, k);
      m := m[k := m2[k]];
      todo := todo - {k};
    }
    AllMerged(m, m1, m2);
  }

  /** All entries of the second map are merged but those to do. */
  ghost predicate Merged(m: map<string, string>, m1: map<string, string>, m2: map<string, string>, todo: set<string>) {
    && todo <= m2.Keys
    && (forall k :: k in m <==> k in m1 || (k in m2 && k !in todo))
    && (forall k :: k in m ==> m[k] == if k in m2 && k !in todo then m2[k] else m1[k])
  }

  lemma MergedStep(m: map<string, string>, m1: map<string, string>, m2: map<string, string>, todo: set<string>,
                   k: string)
    requires Merged(m, m1, m2, todo) && k in todo
    ensures k in m2 && Merged(m[k := m2[k]], m1, m2, todo - {k})
  {
  }

  lemma AllMerged(m: map<string, string>, m1: map<string, string>, m2: map<string, string>)
    requires Merged(m, m1, m2, {})
    ensures m == m1 + m2
  {
  }

  method DeleteMatching(m1: map<string, string>, gone: map<string, string>) returns (m: map<string, string>)
    ensures m == DropMatching(m1, gone)
  {
    m := m1;
    var todo := gone.Keys;
    while todo != {}
      invariant todo <= gone.Keys
      invariant m == DropMatching(m1, gone - todo)
      decreases |todo|
    {
      var k :| k in todo;
      if Lookup(m, k) == gone[k] {
        m := m - {k};
      }
      todo := todo - {k};
    }
    assert gone - todo == gone;
  }

  /** Drops the old pool's keys that the new one lacks, then merges the new ones. */
  method FollowKeys(m1: map<string, string>, before: map<string, string>, after: map<string, string>)
    returns (m: map<string, string>)
    ensures m == FollowMap(m1, before, after)
  {
    m := m1;
    var todo := before.Keys;
    while todo != {}
      invariant todo <= before.Keys
      invariant forall k :: k in m <==> k in m1 && (k !in before || k in after || k in todo)
      invariant forall k :: k in m ==> m[k] == m1[k]
      decreases |todo|
    {
      var k :| k in todo;
      if k !in after {
        m := m - {k};
      }
      todo := todo - {k};
    }
    assert m == m1 - (before.Keys - after.Keys);
    m := MergeMap(m, after);
  }

  /** The index of the first taint in the slot of `t`, and whether there is one; 0 when there is none. */
  method ContainTaint(t: Taint, ts: seq<Taint>) returns (index: nat, found: bool)
    ensures found <==> HasSlot(t, ts)
    ensures found ==> index < |ts| && SameSlot(t, ts[index]) && forall j :: 0 <= j < index ==> !SameSlot(t, ts[j])
    ensures !found ==> index == 0
  {
    for i := 0 to |ts|
      invariant forall j :: 0 <= j < i ==> !SameSlot(t, ts[j])
    {
      if SameSlot(t, ts[i]) {
        return i, true;
      }
    }
    return 0, false;
  }

  // ---------- The local copy of a node ----------

  class NodeObject {
    var labels: map<string, string>
    var annotations: map<string, string>
    var taints: seq<Taint>
    var cached: Option<Attrs>
    const ready: bool

    function View(): Node
      reads this
    {
      Node(labels, annotations, taints, cached, ready)
    }

    constructor (n: Node)
      ensures View() == n
    {
      labels, annotations, taints, cached, ready := n.labels, n.annotations, n.taints, n.cached, n.ready;
    }

    /** A taint of the pool takes the place of the node's taint in the same slot, at the end of the list. */
    method JoinPoolTaints(pool: seq<Taint>)
      modifies this`taints
      ensures taints == JoinTaints(old(taints), pool)
    {
      for i := 0 to |pool|
        invariant JoinTaints(taints, pool[i..]) == JoinTaints(old(taints), pool)
      {
        var index, found := ContainTaint(pool[i], taints);
        if found {
          RemoveAt(pool[i], taints, index);
          taints := taints[..index] + taints[index + 1..];
        } else {
          RemoveAbsent(pool[i], taints);
        }
        taints := taints + [pool[i]];
        assert pool[i..][0] == pool[i] && pool[i..][1..] == pool[i + 1..];
      }
    }

    method RemovePoolTaints(pool: seq<Taint>)
      modifies this`taints
      ensures taints == RemoveTaints(old(taints), pool)
    {
      for i := 0 to |pool|
        invariant RemoveTaints(taints, pool[i..]) == RemoveTaints(old(taints), pool)
      {
        var index, found := ContainTaint(pool[i], taints);
        if found {
          RemoveAt(pool[i], taints, index);
          taints := taints[..index] + taints[index + 1..];
        } else {
          RemoveAbsent(pool[i], taints);
        }
        assert pool[i..][0] == pool[i] && pool[i..][1..] == pool[i + 1..];
      }
    }

    method ConciliateTaints(before: seq<Taint>, after: seq<Taint>)
      modifies this`taints
      ensures taints == RemoveTaints(old(taints), before) + after
    {
      RemovePoolTaints(before);
      ghost var kept := taints;
      for i := 0 to |after|
        invariant taints == kept + after[..i]
      {
        taints := taints + [after[i]];
      }
      assert after[..|after|] == after;
    }

    /** Brings the node in line with its pool; the flag says exactly whether anything changed. */
    method ConcilateNode(pool: Attrs, poolName: string) returns (updated: bool)
      modifies this
      ensures View() == Concile(old(View()), pool, poolName)
      ensures updated <==> View() != old(View())
    {
      updated := false;
      if cached.None? {
        labels := MergeMap(labels, pool.labels);
        annotations := MergeMap(annotations, pool.annotations);
        JoinPoolTaints(pool.taints);
        cached := Some(pool);
        updated := true;
      } else if cached.value != pool {
        var prev := cached.value;
        labels := FollowKeys(labels, prev.labels, pool.labels);
        annotations := FollowKeys(annotations, prev.annotations, pool.annotations);
        ConciliateTaints(prev.taints, pool.taints);
        cached := Some(pool);
        updated := true;
      }
      if Lookup(labels, LABEL_OWNER) != poolName {
        labels := labels[LABEL_OWNER := poolName];
        updated := true;
      }
    }

    method RemovePoolRelatedAttrs()
      modifies this
      ensures View() == Strip(old(View()))
    {
      if cached.None? {
        return;
      }
      var prev := cached.value;
      labels := DeleteMatching(labels, prev.labels);
      annotations := DeleteMatching(annotations, prev.annotations);
      RemovePoolTaints(prev.taints);
      cached := None;
      labels := labels - {LABEL_OWNER};
    }
  }

  // ---------- Work queue and event handlers ----------

  class WorkQueue {
    var items: set<string>

    constructor ()
      ensures items == {}
    {
      items := {};
    }

    method Add(poolName: string)
      modifies this
      ensures items == old(items) + {poolName}
    {
      items := items + {poolName};
    }

    method Take(poolName: string)
      modifies this
      ensures items == old(items) - {poolName}
    {
      items := items - {poolName};
    }

    method OnNodeCreate(node: Node)
      modifies this
      ensures items == old(items) + WokenByCreate(node)
    {
      if LABEL_DESIRED in node.labels {
        Add(node.labels[LABEL_DESIRED]);
        return;
      }
    }

    method OnNodeUpdate(oldNode: Node, newNode: Node)
      modifies this
      ensures items == old(items) + WokenByUpdate(oldNode, newNode)
    {
      var newNp := Lookup(newNode.labels, LABEL_DESIRED);
      var oldNp := Lookup(oldNode.labels, LABEL_OWNER);
      if newNp != oldNp {
        if newNp == "" {
          Add(oldNp);
          return;
        }
        if oldNp == "" {
          Add(newNp);
          return;
        }
        Add(oldNp);
        Add(newNp);
        return;
      }
      if newNode.ready != oldNode.ready {
        Add(newNp);
        return;
      }
      if newNode.labels != oldNode.labels || newNode.annotations != oldNode.annotations ||
         newNode.cached != oldNode.cached || newNode.taints != oldNode.taints
      {
        Add(newNp);
      }
    }

    method OnNodeDelete(node: Node)
      modifies this
      ensures items == old(items) + WokenByDelete(node)
    {
      var np := Lookup(node.labels, LABEL_OWNER);
      if np == "" {
        return;
      }
      Add(np);
    }
  }

  // ---------- The reconciler ----------

  datatype Item = Item(name: string, node: Node)

  ghost predicate Distinct(items: seq<Item>) {
    forall i, j :: 0 <= i < j < |items| ==> items[i].name != items[j].name
  }

  ghost predicate Holds(items: seq<Item>, name: string) {
    exists i :: 0 <= i < |items| && items[i].name == name
  }

  ghost function NamesOf(items: seq<Item>): set<string> {
    set i | 0 <= i < |items| :: items[i].name
  }

  /** The listed items are exactly the nodes carrying the label value, each once. */
  ghost predicate Lists(items: seq<Item>, nodes: map<string, Node>, key: string, value: string) {
    && Distinct(items)
    && (forall i :: 0 <= i < |items| ==> items[i].name in nodes && items[i].node == nodes[items[i].name])
    && (forall name :: name in nodes ==>
          (Holds(items, name) <==> key in nodes[name].labels && nodes[name].labels[key] == value))
  }

  lemma WokenByOneMore(nodes: map<string, Node>, poolName: string, spec: Attrs, done: set<string>, name: string)
    requires name in nodes
    ensures WokenByTouch(nodes, poolName, spec, done + {name}) ==
            WokenByTouch(nodes, poolName, spec, done) +
            (if Changes(nodes, poolName, spec, name) then WokenByUpdate(nodes[name], Touch(nodes[name], poolName, spec))
             else {})
  {
  }

  lemma NamesOfOneMore(items: seq<Item>, i: nat)
    requires i < |items| && Distinct(items)
    ensures NamesOf(items[..i + 1]) == NamesOf(items[..i]) + {items[i].name}
    ensures items[i].name !in NamesOf(items[..i])
  {
    assert items[..i + 1][i].name == items[i].name;
    forall name | name in NamesOf(items[..i]) ensures name in NamesOf(items[..i + 1]) {
      var j :| 0 <= j < i && items[..i][j].name == name;
      assert items[..i + 1][j].name == name;
    }
  }

  class NodePoolReconciler {
    var nodes: map<string, Node>
    var pools: map<string, Pool>
    const queue: WorkQueue

    constructor (queue: WorkQueue)
      ensures nodes == map[] && pools == map[] && this.queue == queue
    {
      nodes, pools := map[], map[];
      this.queue := queue;
    }

    ghost function View(): State
      reads this, queue
    {
      State(nodes, pools, queue.items)
    }

    method List(key: string, value: string) returns (items: seq<Item>)
      ensures Lists(items, nodes, key, value)
    {
      items := [];
      var todo := nodes.Keys;
      while todo != {}
        invariant todo <= nodes.Keys
        invariant Distinct(items)
        invariant forall i :: 0 <= i < |items| ==>
          items[i].name in nodes && items[i].name !in todo && items[i].node == nodes[items[i].name]
        invariant forall name :: name in nodes && name !in todo ==>
          (Holds(items, name) <==> key in nodes[name].labels && nodes[name].labels[key] == value)
        decreases |todo|
      {
        var name :| name in todo;
        todo := todo - {name};
        assert !Holds(items, name);
        if key in nodes[name].labels && nodes[name].labels[key] == value {
          ghost var before := items;
          items := items + [Item(name, nodes[name])];
          assert items[|before|].name == name;
          assert forall other :: Holds(items, other) <==> Holds(before, other) || other == name by {
            forall other | Holds(before, other) ensures Holds(items, other) {
              var i :| 0 <= i < |before| && before[i].name == other;
              assert items[i].name == other;
            }
          }
        }
      }
    }

    /** The current nodes that are not desired any more, in listing order. */
    method GetRemovedNodes(current: seq<Item>, desired: seq<Item>) returns (removed: seq<Item>)
      requires Distinct(current)
      ensures Distinct(removed)
      ensures forall i :: 0 <= i < |removed| ==> removed[i] in current && !Holds(desired, removed[i].name)
      ensures forall i :: 0 <= i < |current| ==> Holds(removed, current[i].name) || Holds(desired, current[i].name)
    {
      removed := [];
      for i := 0 to |current|
        invariant Distinct(removed)
        invariant forall j :: 0 <= j < |removed| ==> removed[j] in current[..i] && !Holds(desired, removed[j].name)
        invariant forall j :: 0 <= j < i ==> Holds(removed, current[j].name) || Holds(desired, current[j].name)
      {
        var found := false;
        for k := 0 to |desired|
          invariant found <==> exists m :: 0 <= m < k && desired[m].name == current[i].name
        {
          if current[i].name == desired[k].name {
            found := true;
          }
        }
        if !found {
          ghost var before := removed;
          removed := removed + [current[i]];
          assert removed[|before|].name == current[i].name;
          forall name | Holds(before, name) ensures Holds(removed, name) {
            var m :| 0 <= m < |before| && before[m].name == name;
            assert removed[m].name == name;
          }
        }
      }
    }

    /** A write to the store; a write that changes the object raises an update event. */
    method UpdateNode(name: string, node: Node)
      requires name in nodes
      modifies this`nodes, queue
      ensures nodes == old(nodes)[name := node]
      ensures queue.items == old(queue.items) +
                             (if old(nodes)[name] != node then WokenByUpdate(old(nodes)[name], node) else {})
    {
      var before := nodes[name];
      nodes := nodes[name := node];
      if before != node {
        queue.OnNodeUpdate(before, node);
      }
    }

    method ConciliateNodePoolStatus(ready: int, notReady: int, names: seq<string>, status: Status)
      returns (needUpdate: bool, newStatus: Status)
      ensures needUpdate <==> status.(nodes := Names.Sort(status.nodes)) != newStatus
      ensures newStatus == Status(ready, notReady, Names.Sort(names))
    {
      needUpdate := false;
      newStatus := status;
      if ready != newStatus.ready {
        newStatus := newStatus.(ready := ready);
        needUpdate := true;
      }
      if notReady != newStatus.unready {
        newStatus := newStatus.(unready := notReady);
        needUpdate := true;
      }
      newStatus := newStatus.(nodes := Names.Sort(newStatus.nodes));
      if Names.Sort(names) != newStatus.nodes {
        newStatus := newStatus.(nodes := Names.Sort(names));
        needUpdate := true;
      }
    }

    /** Part of the nodes have been touched and the events of those writes are queued. */
    ghost predicate Progress(nodes0: map<string, Node>, queue0: set<string>, poolName: string, spec: Attrs,
                             done: set<string>)
      reads this, queue
    {
      && nodes.Keys == nodes0.Keys
      && (forall name :: name in nodes0 ==>
            nodes[name] == if name in done then Touch(nodes0[name], poolName, spec) else nodes0[name])
      && queue.items == queue0 + WokenByTouch(nodes0, poolName, spec, done)
    }

    method RemoveNode(name: string, node: Node, poolName: string, spec: Attrs,
                      ghost nodes0: map<string, Node>, ghost queue0: set<string>, ghost done: set<string>)
      requires Progress(nodes0, queue0, poolName, spec, done)
      requires name in nodes0 && name !in done && node == nodes0[name]
      requires Touch(node, poolName, spec) == Strip(node)
      modifies this`nodes, queue
      ensures Progress(nodes0, queue0, poolName, spec, done + {name})
    {
      hide Strip, Touch, WokenByUpdate, WokenByTouch;
      WokenByOneMore(nodes0, poolName, spec, done, name);
      var obj := new NodeObject(node);
      obj.RemovePoolRelatedAttrs();
      UpdateNode(name, obj.View());
    }

    method RemoveNodes(removed: seq<Item>, poolName: string, spec: Attrs)
      requires Distinct(removed)
      requires forall i :: 0 <= i < |removed| ==>
        && removed[i].name in nodes && removed[i].node == nodes[removed[i].name]
        && Touch(removed[i].node, poolName, spec) == Strip(removed[i].node)
      modifies this`nodes, queue
      ensures Progress(old(nodes), old(queue.items), poolName, spec, NamesOf(removed))
    {
      ghost var nodes0, queue0 := nodes, queue.items;
      assert NamesOf(removed[..0]) == {} && WokenByTouch(nodes0, poolName, spec, {}) == {};
      hide Strip, Touch, WokenByUpdate, WokenByTouch, NamesOf;
      for i := 0 to |removed|
        invariant Progress(nodes0, queue0, poolName, spec, NamesOf(removed[..i]))
      {
        NamesOfOneMore(removed, i);
        RemoveNode(removed[i].name, removed[i].node, poolName, spec, nodes0, queue0, NamesOf(removed[..i]));
      }
      assert removed[..|removed|] == removed;
    }

    method ConcileMember(name: string, node: Node, poolName: string, spec: Attrs,
                         ghost nodes0: map<string, Node>, ghost queue0: set<string>, ghost done: set<string>)
      requires Progress(nodes0, queue0, poolName, spec, done)
      requires name in nodes0 && name !in done && node == nodes0[name] && Desired(node) == poolName
      modifies this`nodes, queue
      ensures Progress(nodes0, queue0, poolName, spec, done + {name})
    {
      hide Strip, Concile, WokenByUpdate, WokenByTouch;
      WokenByOneMore(nodes0, poolName, spec, done, name);
      var obj := new NodeObject(node);
      var updated := obj.ConcilateNode(spec, poolName);
      if updated {
        UpdateNode(name, obj.View());
      }
    }

    /** Brings every member in line with the pool, counting and naming the members on the way. */
    method ConcileMembers(members: seq<Item>, poolName: string, spec: Attrs,
                          ghost nodes0: map<string, Node>, ghost queue0: set<string>, ghost done: set<string>)
      returns (ready: int, notReady: int, names: seq<string>)
      requires Progress(nodes0, queue0, poolName, spec, done)
      requires Distinct(members) && NamesOf(members) !! done
      requires forall i :: 0 <= i < |members| ==>
        && members[i].name in nodes0 && members[i].node == nodes0[members[i].name]
        && Desired(members[i].node) == poolName
      modifies this`nodes, queue
      ensures Progress(nodes0, queue0, poolName, spec, done + NamesOf(members))
      ensures Tally(nodes0, members, ready, notReady, names)
    {
      hide Touch, WokenByTouch;
      ready, notReady, names := 0, 0, [];
      assert NamesOf(members[..0]) == {} && done + {} == done;
      hide NamesOf;
      for i := 0 to |members|
        invariant Progress(nodes0, queue0, poolName, spec, done + NamesOf(members[..i]))
        invariant Tally(nodes0, members[..i], ready, notReady, names)
      {
        var name, node := members[i].name, members[i].node;
        NamesOfOneMore(members, i);
        TallyOneMore(nodes0, members, i, ready, notReady, names);
        NameIsHeld(members, i);
        assert done + NamesOf(members[..i + 1]) == done + NamesOf(members[..i]) + {name};
        names := names + [name];
        if node.ready {
          ready := ready + 1;
        } else {
          notReady := notReady + 1;
        }
        ConcileMember(name, node, poolName, spec, nodes0, queue0, done + NamesOf(members[..i]));
      }
      assert members[..|members|] == members;
    }

    /** The two listings of a reconcile: the nodes to strip and the members; every other node is already right. */
    method ListParts(poolName: string, spec: Attrs) returns (removed: seq<Item>, members: seq<Item>)
      requires poolName != ""
      ensures Distinct(removed) && Distinct(members) && NamesOf(removed) !! NamesOf(members)
      ensures forall i :: 0 <= i < |removed| ==>
        && removed[i].name in nodes && removed[i].node == nodes[removed[i].name]
        && Touch(removed[i].node, poolName, spec) == Strip(removed[i].node)
      ensures forall i :: 0 <= i < |members| ==>
        && members[i].name in nodes && members[i].node == nodes[members[i].name]
        && Desired(members[i].node) == poolName
      ensures NamesOf(members) == Members(nodes, poolName) && |members| == |Members(nodes, poolName)|
      ensures ReadyIn(nodes, NamesOf(members)) == ReadyMembers(nodes, poolName)
      ensures forall name :: name in nodes && name !in NamesOf(removed) + NamesOf(members) ==>
                !Changes(nodes, poolName, spec, name)
    {
      members := List(LABEL_DESIRED, poolName);
      var current := List(LABEL_OWNER, poolName);
      removed := GetRemovedNodes(current, members);
      RemovedAreStripped(nodes, spec, poolName, members, current, removed);
      DesiredAreMembers(nodes, poolName, members);
      OthersUntouched(nodes, poolName, spec, members, current, removed);
    }

    /** Strips the nodes that left, then conciles the members. */
    method SyncNodes(poolName: string, spec: Attrs) returns (ready: int, notReady: int, names: seq<string>)
      requires poolName != ""
      modifies this`nodes, queue
      ensures nodes == TouchAll(old(nodes), poolName, spec)
      ensures queue.items == old(queue.items) + WokenByTouch(old(nodes), poolName, spec, old(nodes).Keys)
      ensures Status(ready, notReady, Names.Sort(names)) == StatusFor(old(nodes), poolName)
    {
      ghost var nodes0, queue0 := nodes, queue.items;
      var removed, members := ListParts(poolName, spec);
      ghost var done := NamesOf(removed) + NamesOf(members);
      assert forall name :: name in nodes0 && name !in done ==> !Changes(nodes0, poolName, spec, name);
      RemoveNodes(removed, poolName, spec);
      ready, notReady, names := ConcileMembers(members, poolName, spec, nodes0, queue0, NamesOf(removed));
      TallyIsStatus(nodes0, poolName, members, ready, notReady, names);
      ProgressIsComplete(nodes0, queue0, poolName, spec, done);
    }

    lemma ProgressIsComplete(nodes0: map<string, Node>, queue0: set<string>, poolName: string, spec: Attrs,
                             done: set<string>)
      requires Progress(nodes0, queue0, poolName, spec, done)
      requires forall name :: name in nodes0 && name !in done ==> !Changes(nodes0, poolName, spec, name)
      ensures nodes == TouchAll(nodes0, poolName, spec)
      ensures queue.items == queue0 + WokenByTouch(nodes0, poolName, spec, nodes0.Keys)
    {
      WokenByTheRest(nodes0, poolName, spec, done);
    }

    /** One reconcile of a pool taken from the queue: exactly `Reconciled`, in whatever order the store lists nodes. */
    method Reconcile(poolName: string)
      requires forall p :: p in pools ==> p != ""
      modifies this, queue
      ensures View() == Reconciled(old(View()), poolName)
    {
      queue.Take(poolName);
      if poolName !in pools {
        return;
      }
      var pool := pools[poolName];
      var ready, notReady, names := SyncNodes(poolName, pool.spec);
      var needUpdate, newStatus := ConciliateNodePoolStatus(ready, notReady, names, pool.status);
      if needUpdate {
        pools := pools[poolName := pool.(status := newStatus)];
        queue.Add(poolName);
      }
    }
  }

  ghost predicate Tally(nodes: map<string, Node>, members: seq<Item>, ready: int, notReady: int, names: seq<string>) {
    && ready == |ReadyIn(nodes, NamesOf(members))| && ready + notReady == |members|
    && multiset(names) == multiset(NamesOf(members))
  }

  lemma TallyOneMore(nodes: map<string, Node>, members: seq<Item>, i: nat, ready: int, notReady: int,
                     names: seq<string>)
    requires i < |members| && Distinct(members) && Tally(nodes, members[..i], ready, notReady, names)
    requires members[i].name in nodes && members[i].node == nodes[members[i].name]
    ensures var d := if members[i].node.ready then 1 else 0;
            Tally(nodes, members[..i + 1], ready + d, notReady + 1 - d, names + [members[i].name])
  {
    NamesOfOneMore(members, i);
    var seen, more := NamesOf(members[..i]), NamesOf(members[..i + 1]);
    if members[i].node.ready {
      assert ReadyIn(nodes, more) == ReadyIn(nodes, seen) + {members[i].name};
    } else {
      assert ReadyIn(nodes, more) == ReadyIn(nodes, seen);
    }
  }

  lemma TallyIsStatus(nodes: map<string, Node>, poolName: string, members: seq<Item>,
                      ready: int, notReady: int, names: seq<string>)
    requires Tally(nodes, members, ready, notReady, names)
    requires NamesOf(members) == Members(nodes, poolName) && |members| == |Members(nodes, poolName)|
    requires ReadyIn(nodes, NamesOf(members)) == ReadyMembers(nodes, poolName)
    ensures Status(ready, notReady, Names.Sort(names)) == StatusFor(nodes, poolName)
  {
    Names.SortIsListing(names, Members(nodes, poolName));
  }

  lemma OthersUntouched(nodes: map<string, Node>, poolName: string, spec: Attrs,
                        desired: seq<Item>, current: seq<Item>, removed: seq<Item>)
    requires poolName != ""
    requires Lists(desired, nodes, LABEL_DESIRED, poolName) && Lists(current, nodes, LABEL_OWNER, poolName)
    requires forall i :: 0 <= i < |current| ==> Holds(removed, current[i].name) || Holds(desired, current[i].name)
    ensures forall name :: name in nodes && name !in NamesOf(removed) + NamesOf(desired) ==>
              !Changes(nodes, poolName, spec, name)
  {
    forall name | name in nodes && name !in NamesOf(removed) + NamesOf(desired)
      ensures !Changes(nodes, poolName, spec, name)
    {
      HeldIsNamed(removed, name);
      HeldIsNamed(desired, name);
      assert !Holds(current, name) by {
        forall i | 0 <= i < |current| ensures current[i].name != name {
          assert Holds(removed, current[i].name) || Holds(desired, current[i].name);
        }
      }
    }
  }

  lemma WokenByTheRest(nodes: map<string, Node>, poolName: string, spec: Attrs, done: set<string>)
    requires forall name :: name in nodes && name !in done ==> !Changes(nodes, poolName, spec, name)
    ensures WokenByTouch(nodes, poolName, spec, nodes.Keys) == WokenByTouch(nodes, poolName, spec, done)
  {
  }

  lemma NameIsHeld(items: seq<Item>, i: nat)
    requires i < |items|
    ensures items[i].name in NamesOf(items)
  {
  }

  lemma HeldIsNamed(items: seq<Item>, name: string)
    ensures Holds(items, name) <==> name in NamesOf(items)
  {
  }

  ghost function ReadyIn(nodes: map<string, Node>, names: set<string>): set<string> {
    set name | name in names && name in nodes && nodes[name].ready
  }

  lemma RemovedAreStripped(nodes: map<string, Node>, spec: Attrs, poolName: string,
                           desired: seq<Item>, current: seq<Item>, removed: seq<Item>)
    requires poolName != ""
    requires Lists(desired, nodes, LABEL_DESIRED, poolName) && Lists(current, nodes, LABEL_OWNER, poolName)
    requires forall i :: 0 <= i < |removed| ==> removed[i] in current && !Holds(desired, removed[i].name)
    ensures forall i :: 0 <= i < |removed| ==>
      && removed[i].name in nodes && removed[i].node == nodes[removed[i].name]
      && Touch(removed[i].node, poolName, spec) == Strip(removed[i].node)
    ensures NamesOf(removed) !! NamesOf(desired)
  {
    forall i | 0 <= i < |removed|
      ensures removed[i].name in nodes && removed[i].node == nodes[removed[i].name]
      ensures Touch(removed[i].node, poolName, spec) == Strip(removed[i].node)
    {
      assert removed[i] in current;
      var k :| 0 <= k < |current| && current[k] == removed[i];
      assert Holds(current, removed[i].name);
    }
    forall name | name in NamesOf(removed) ensures name !in NamesOf(desired) {
      HeldIsNamed(desired, name);
    }
  }

  lemma DesiredAreMembers(nodes: map<string, Node>, poolName: string, desired: seq<Item>)
    requires poolName != "" && Lists(desired, nodes, LABEL_DESIRED, poolName)
    ensures NamesOf(desired) == Members(nodes, poolName) && |NamesOf(desired)| == |desired|
    ensures forall i :: 0 <= i < |desired| ==> Desired(desired[i].node) == poolName
    ensures ReadyIn(nodes, NamesOf(desired)) == ReadyMembers(nodes, poolName)
  {
    forall i | 0 <= i < |desired| ensures Desired(desired[i].node) == poolName {
      assert Holds(desired, desired[i].name);
    }
    forall name ensures name in NamesOf(desired) <==> name in Members(nodes, poolName) {
      HeldIsNamed(desired, name);
    }
    DistinctCount(desired);
  }

  lemma {:induction false} DistinctCount(items: seq<Item>)
    requires Distinct(items)
    ensures |NamesOf(items)| == |items|
    decreases |items|
  {
    if items == [] {
      assert NamesOf(items) == {};
    } else {
      var k := |items| - 1;
      DistinctCount(items[..k]);
      assert items[..k + 1] == items;
      NamesOfOneMore(items, k);
    }
  }
}
