/**
  The store the node pool controller works on, as a value: nodes, pools and the work queue, which is a set because
  the work queue drops duplicates. `Reconciled` is what one undisturbed `Reconcile` makes of it.
 */
module Cluster {
  import opened Common
  import opened NodeAttributes
  import Names

  datatype Status = Status(ready: int, unready: int, nodes: seq<string>)

  datatype Pool = Pool(spec: Attrs, status: Status)

  datatype State = State(nodes: map<string, Node>, pools: map<string, Pool>, queue: set<string>)

  // ---------- Which pools an event wakes ----------

  function WokenByCreate(n: Node): set<string> {
    if LABEL_DESIRED in n.labels then {n.labels[LABEL_DESIRED]} else {}
  }

  /** The handler compares the new node's desired pool with the OLD node's owner. */
  function WokenByUpdate(before: Node, after: Node): set<string> {
    var newPool, oldPool := Desired(after), Owner(before);
    if newPool != oldPool then
      if newPool == "" then {oldPool}
      else if oldPool == "" then {newPool}
      else {oldPool, newPool}
    else if after.ready != before.ready then {newPool}
    else if after != before then {newPool}
    else {}
  }

  /**
    An update wakes no pool without a reason: if the desired pool is not the one that owned the node before, both of
    them that exist, and otherwise the desired pool if anything about the node changed.
   */
  lemma WokenByUpdateIff(before: Node, after: Node, poolName: string)
    ensures poolName in WokenByUpdate(before, after) <==>
            if Desired(after) != Owner(before)
            then poolName != "" && (poolName == Desired(after) || poolName == Owner(before))
            else poolName == Desired(after) && before != after
  {
    hide Desired, Owner;
  }

  function WokenByDelete(n: Node): set<string> {
    if Owner(n) == "" then {} else {Owner(n)}
  }

  /** A created node wakes the pool it asks for, a deleted one the pool that owned it, and no other. */
  lemma WokenByLifeIff(n: Node, poolName: string)
    requires poolName != ""
    ensures poolName in WokenByCreate(n) <==> Desired(n) == poolName
    ensures poolName in WokenByDelete(n) <==> Owner(n) == poolName
  {
  }

  // ---------- One reconcile ----------

  /** What the reconcile of one pool does to one node. */
  function Touch(n: Node, poolName: string, spec: Attrs): Node {
    if Desired(n) == poolName then Concile(n, spec, poolName)
    else if Owner(n) == poolName then Strip(n)
    else n
  }

  function Members(nodes: map<string, Node>, poolName: string): set<string> {
    set name | name in nodes && Desired(nodes[name]) == poolName
  }

  function ReadyMembers(nodes: map<string, Node>, poolName: string): set<string> {
    set name | name in nodes && Desired(nodes[name]) == poolName && nodes[name].ready
  }

  ghost function StatusFor(nodes: map<string, Node>, poolName: string): Status {
    Status(|ReadyMembers(nodes, poolName)|,
           |Members(nodes, poolName)| - |ReadyMembers(nodes, poolName)|,
           Names.Listing(Members(nodes, poolName)))
  }

  /** Stored node lists are sorted before they are compared. */
  ghost predicate StatusCurrent(nodes: map<string, Node>, poolName: string, status: Status) {
    status.(nodes := Names.Sort(status.nodes)) == StatusFor(nodes, poolName)
  }

  ghost predicate Changes(nodes: map<string, Node>, poolName: string, spec: Attrs, name: string)
    requires name in nodes
  {
    Touch(nodes[name], poolName, spec) != nodes[name]
  }

  ghost function TouchAll(nodes: map<string, Node>, poolName: string, spec: Attrs): map<string, Node> {
    map name | name in nodes :: Touch(nodes[name], poolName, spec)
  }

  /** The pools woken by the events of the reconcile's writes to the given nodes. */
  ghost function WokenByTouch(nodes: map<string, Node>, poolName: string, spec: Attrs,
                              names: set<string>): set<string> {
    set name, q | name in names && name in nodes && Changes(nodes, poolName, spec, name) &&
                  q in WokenByUpdate(nodes[name], Touch(nodes[name], poolName, spec)) :: q
  }

  /** Nothing is left to do for a pool: its reconcile would change neither a node nor the pool's status. */
  ghost predicate Settled(nodes: map<string, Node>, pools: map<string, Pool>, poolName: string)
    requires poolName in pools
  {
    && (forall name :: name in nodes ==> !Changes(nodes, poolName, pools[poolName].spec, name))
    && StatusCurrent(nodes, poolName, pools[poolName].status)
  }

  ghost function Reconciled(c: State, poolName: string): State {
    var queue := c.queue - {poolName};
    if poolName !in c.pools then c.(queue := queue)
    else
      var pool := c.pools[poolName];
      var nodes := TouchAll(c.nodes, poolName, pool.spec);
      var woken := queue + WokenByTouch(c.nodes, poolName, pool.spec, c.nodes.Keys);
      if StatusCurrent(c.nodes, poolName, pool.status) then State(nodes, c.pools, woken)
      else State(nodes, c.pools[poolName := pool.(status := StatusFor(c.nodes, poolName))], woken + {poolName})
  }

  // ---------- Well-formed stores ----------

  ghost predicate ReservedFree(spec: Attrs) {
    LABEL_DESIRED !in spec.labels && LABEL_OWNER !in spec.labels
  }

  /** The owner label and the cached attributes come and go together. */
  ghost predicate NodeOk(n: Node) {
    && (LABEL_OWNER in n.labels <==> n.cached.Some?)
    && (LABEL_OWNER in n.labels ==> Owner(n) != "")
    && (n.cached.Some? ==> ReservedFree(n.cached.value))
  }

  ghost predicate StoreOk(nodes: map<string, Node>, pools: map<string, Pool>) {
    && (forall name :: name in nodes ==> NodeOk(nodes[name]))
    && (forall p :: p in pools ==> p != "" && ReservedFree(pools[p].spec))
  }

  // ---------- What touching a node keeps and changes ----------

  lemma StripFacts(n: Node)
    requires NodeOk(n)
    ensures NodeOk(Strip(n)) && Desired(Strip(n)) == Desired(n) && Owner(Strip(n)) == ""
    ensures Strip(n).ready == n.ready && Strip(n).cached == None
    ensures Strip(n) == n <==> Owner(n) == ""
  {
    ReservedKeysDiffer();
  }

  lemma ConcileFacts(n: Node, spec: Attrs, poolName: string)
    requires NodeOk(n) && ReservedFree(spec) && poolName != ""
    ensures var n' := Concile(n, spec, poolName);
            && NodeOk(n') && Desired(n') == Desired(n) && Owner(n') == poolName
            && n'.ready == n.ready && n'.cached == Some(spec)
            && (n' == n <==> Owner(n) == poolName && n.cached == Some(spec))
  {
    ReservedKeysDiffer();
  }

  /** A reconcile changes a node exactly when the node is misplaced with respect to the pool or outdated. */
  lemma TouchFacts(n: Node, poolName: string, spec: Attrs)
    requires NodeOk(n) && ReservedFree(spec) && poolName != ""
    ensures var n' := Touch(n, poolName, spec);
            && NodeOk(n') && Desired(n') == Desired(n) && n'.ready == n.ready
            && (Owner(n') == poolName <==> Desired(n) == poolName)
            && (Desired(n) == poolName ==> n'.cached == Some(spec))
            && (n' != n <==> (Desired(n) == poolName) != (Owner(n) == poolName)
                             || (Desired(n) == poolName && n.cached != Some(spec)))
            && Touch(n', poolName, spec) == n'
  {
    if Desired(n) == poolName {
      ConcileFacts(n, spec, poolName);
      ConcileFacts(Concile(n, spec, poolName), spec, poolName);
    } else if Owner(n) == poolName {
      StripFacts(n);
    }
  }
}
