/**
  What happens once users stop editing: pools are taken from the queue one after the other, in any order, each with
  one undisturbed reconcile. Such a run is finite, and it ends in a store that does not depend on the order.
 */
module Convergence {
  import opened Common
  import opened NodeAttributes
  import opened Cluster
  import Names

  // ---------- The standing assumptions, kept by every reconcile ----------

  /** Owner labels name existing pools (a pool is deleted only when it owns no node). */
  ghost predicate OwnersExist(nodes: map<string, Node>, pools: map<string, Pool>) {
    forall name :: name in nodes && Owner(nodes[name]) != "" ==> Owner(nodes[name]) in pools
  }

  ghost predicate Good(c: State) {
    StoreOk(c.nodes, c.pools) && OwnersExist(c.nodes, c.pools)
  }

  // ---------- Other pools see nothing of a reconcile ----------

  lemma TouchKeepsMembers(nodes: map<string, Node>, poolName: string, spec: Attrs, other: string)
    requires forall name :: name in nodes ==> NodeOk(nodes[name])
    requires ReservedFree(spec) && poolName != ""
    ensures StatusFor(TouchAll(nodes, poolName, spec), other) == StatusFor(nodes, other)
  {
    hide Touch, NodeOk, Desired;
    var nodes' := TouchAll(nodes, poolName, spec);
    forall name | name in nodes
      ensures Desired(nodes'[name]) == Desired(nodes[name]) && nodes'[name].ready == nodes[name].ready
    {
      TouchFacts(nodes[name], poolName, spec);
    }
    assert Members(nodes', other) == Members(nodes, other);
    assert ReadyMembers(nodes', other) == ReadyMembers(nodes, other);
  }

  lemma TouchKeepsQuietNode(n: Node, poolName: string, spec: Attrs, other: string, otherSpec: Attrs)
    requires NodeOk(n) && ReservedFree(spec) && ReservedFree(otherSpec) && poolName != "" && other != ""
    requires poolName != other && Touch(n, other, otherSpec) == n
    ensures Touch(Touch(n, poolName, spec), other, otherSpec) == Touch(n, poolName, spec)
  {
    TouchFacts(n, poolName, spec);
    TouchFacts(n, other, otherSpec);
    var n' := Touch(n, poolName, spec);
    TouchFacts(n', other, otherSpec);
    if Desired(n) == poolName {
      ConcileFacts(n, spec, poolName);
    } else if Owner(n) == poolName {
      StripFacts(n);
    }
  }

  lemma ReconcileSettles(c: State, poolName: string)
    requires StoreOk(c.nodes, c.pools) && poolName in c.pools
    ensures Settled(Reconciled(c, poolName).nodes, Reconciled(c, poolName).pools, poolName)
  {
    var c', spec := Reconciled(c, poolName), c.pools[poolName].spec;
    TouchKeepsMembers(c.nodes, poolName, spec, poolName);
    forall name | name in c'.nodes ensures !Changes(c'.nodes, poolName, spec, name) {
      TouchFacts(c.nodes[name], poolName, spec);
    }
    Names.SortIsListing(Names.Listing(Members(c.nodes, poolName)), Members(c.nodes, poolName));
  }

  lemma ReconcileKeepsSettled(c: State, poolName: string, other: string)
    requires StoreOk(c.nodes, c.pools) && poolName in c.pools && other in c.pools && other != poolName
    requires Settled(c.nodes, c.pools, other)
    ensures Settled(Reconciled(c, poolName).nodes, Reconciled(c, poolName).pools, other)
  {
    var c', spec := Reconciled(c, poolName), c.pools[poolName].spec;
    TouchKeepsMembers(c.nodes, poolName, spec, other);
    forall name | name in c'.nodes ensures !Changes(c'.nodes, other, c.pools[other].spec, name) {
      assert !Changes(c.nodes, other, c.pools[other].spec, name);
      TouchKeepsQuietNode(c.nodes[name], poolName, spec, other, c.pools[other].spec);
    }
  }

  lemma ReconcileKeepsStoreOk(c: State, poolName: string)
    requires StoreOk(c.nodes, c.pools)
    ensures StoreOk(Reconciled(c, poolName).nodes, Reconciled(c, poolName).pools)
  {
    if poolName in c.pools {
      var c', spec := Reconciled(c, poolName), c.pools[poolName].spec;
      forall name | name in c'.nodes ensures NodeOk(c'.nodes[name]) {
        TouchFacts(c.nodes[name], poolName, spec);
      }
    }
  }

  lemma TouchedOwner(n: Node, poolName: string, spec: Attrs)
    requires NodeOk(n) && ReservedFree(spec) && poolName != ""
    ensures Owner(Touch(n, poolName, spec)) in {"", poolName, Owner(n)}
  {
    if Desired(n) == poolName {
      ConcileFacts(n, spec, poolName);
    } else {
      StripFacts(n);
    }
  }

  lemma ReconcileKeepsGood(c: State, poolName: string)
    requires Good(c)
    ensures Good(Reconciled(c, poolName))
  {
    ReconcileKeepsStoreOk(c, poolName);
    if poolName in c.pools {
      var c', spec := Reconciled(c, poolName), c.pools[poolName].spec;
      forall name | name in c'.nodes && Owner(c'.nodes[name]) != "" ensures Owner(c'.nodes[name]) in c'.pools {
        TouchedOwner(c.nodes[name], poolName, spec);
      }
    }
  }

  /** A reconcile of a settled pool writes nothing: it only takes the pool from the queue. */
  lemma SettledReconcileWritesNothing(c: State, poolName: string)
    requires poolName in c.pools && Settled(c.nodes, c.pools, poolName)
    ensures Reconciled(c, poolName) == c.(queue := c.queue - {poolName})
  {
    var spec := c.pools[poolName].spec;
    assert TouchAll(c.nodes, poolName, spec) == c.nodes;
    assert WokenByTouch(c.nodes, poolName, spec, c.nodes.Keys) == {};
  }

  /** The second reconcile of a pool on an unchanged cluster writes no node and no status. */
  lemma SecondReconcileWritesNothing(c: State, poolName: string)
    requires StoreOk(c.nodes, c.pools) && poolName in c.pools
    ensures var once := Reconciled(c, poolName); var twice := Reconciled(once, poolName);
            twice.nodes == once.nodes && twice.pools == once.pools
  {
    ReconcileSettles(c, poolName);
    SettledReconcileWritesNothing(Reconciled(c, poolName), poolName);
  }

  /** The stored status after a reconcile: ready and unready add up to the listed nodes, sorted without repetition. */
  lemma StatusAddsUp(c: State, poolName: string)
    requires StoreOk(c.nodes, c.pools) && poolName in c.pools
    ensures var status := Reconciled(c, poolName).pools[poolName].status;
            && status.ready == |set name | name in c.nodes && Desired(c.nodes[name]) == poolName && c.nodes[name].ready|
            && status.ready + status.unready == |status.nodes|
            && Names.StrictlySorted(Names.Sort(status.nodes))
            && (forall name :: name in status.nodes <==> name in Members(c.nodes, poolName))
  {
    hide Touch, WokenByTouch, TouchAll, NodeOk, Members;
    var status, members := Reconciled(c, poolName).pools[poolName].status, Members(c.nodes, poolName);
    ReconcileSettles(c, poolName);
    TouchKeepsMembers(c.nodes, poolName, c.pools[poolName].spec, poolName);
    Names.ListingIsDuplicateFree(members);
    Names.SortSorts(status.nodes);
    assert Names.Sort(status.nodes) == Names.Listing(members);
    assert |multiset(status.nodes)| == |status.nodes| && |multiset(Names.Sort(status.nodes))| == |members|;
    forall name ensures name in status.nodes <==> name in members {
      assert name in status.nodes <==> name in multiset(status.nodes);
      assert name in Names.Listing(members) <==> name in multiset(Names.Listing(members));
    }
  }

  // ---------- Termination ----------

  /** How far a node is from its place: 3 wrongly owned, 2 to be joined, 1 outdated, 0 settled. */
  function Distance(n: Node, pools: map<string, Pool>): nat {
    var d, o := Desired(n), Owner(n);
    if o != "" && o != d then 3
    else if d !in pools then 0
    else if o == "" then 2
    else if n.cached != Some(pools[d].spec) then 1
    else 0
  }

  ghost function TotalDistance(names: set<string>, nodes: map<string, Node>, pools: map<string, Pool>): nat
    requires names <= nodes.Keys
  {
    if names == {} then 0
    else
      var name :| name in names;
      Distance(nodes[name], pools) + TotalDistance(names - {name}, nodes, pools)
  }

  ghost function StalePools(c: State): set<string> {
    set p | p in c.pools && !StatusCurrent(c.nodes, p, c.pools[p].status)
  }

  /** Work left in the store; it does not count the queue. */
  ghost function Pending(c: State): nat {
    TotalDistance(c.nodes.Keys, c.nodes, c.pools) + |StalePools(c)|
  }

  lemma DistanceFalls(n: Node, poolName: string, pools: map<string, Pool>, pools': map<string, Pool>)
    requires NodeOk(n) && poolName in pools && poolName != "" && ReservedFree(pools[poolName].spec) && "" !in pools
    requires pools'.Keys == pools.Keys && forall p :: p in pools ==> pools'[p].spec == pools[p].spec
    ensures var n' := Touch(n, poolName, pools[poolName].spec);
            && Distance(n', pools') <= Distance(n, pools)
            && (n' != n ==> Distance(n', pools') < Distance(n, pools))
  {
    var spec := pools[poolName].spec;
    TouchFacts(n, poolName, spec);
    if Desired(n) == poolName {
      ConcileFacts(n, spec, poolName);
    } else if Owner(n) == poolName {
      StripFacts(n);
    }
  }

  lemma {:induction false} TotalFalls(names: set<string>, nodes: map<string, Node>, nodes': map<string, Node>,
                                      pools: map<string, Pool>, pools': map<string, Pool>)
    requires names <= nodes.Keys && names <= nodes'.Keys
    requires forall x :: x in names ==> Distance(nodes'[x], pools') <= Distance(nodes[x], pools)
    ensures TotalDistance(names, nodes', pools') <= TotalDistance(names, nodes, pools)
    ensures (exists x :: x in names && Distance(nodes'[x], pools') < Distance(nodes[x], pools)) ==>
              TotalDistance(names, nodes', pools') < TotalDistance(names, nodes, pools)
  {
    if names != {} {
      var name :| name in names && TotalDistance(names, nodes, pools) ==
        Distance(nodes[name], pools) + TotalDistance(names - {name}, nodes, pools);
      TotalSplit(names, name, nodes', pools');
      TotalFalls(names - {name}, nodes, nodes', pools, pools');
    }
  }

  lemma {:induction false} TotalSplit(names: set<string>, name: string, nodes: map<string, Node>,
                                      pools: map<string, Pool>)
    requires names <= nodes.Keys && name in names
    ensures TotalDistance(names, nodes, pools) ==
            Distance(nodes[name], pools) + TotalDistance(names - {name}, nodes, pools)
  {
    var picked :| picked in names && TotalDistance(names, nodes, pools) ==
      Distance(nodes[picked], pools) + TotalDistance(names - {picked}, nodes, pools);
    if picked != name {
      TotalSplit(names - {picked}, name, nodes, pools);
      TotalSplit(names - {name}, picked, nodes, pools);
      assert names - {picked} - {name} == names - {name} - {picked};
    }
  }

  lemma StaleFalls(c: State, poolName: string)
    requires StoreOk(c.nodes, c.pools) && poolName in c.pools
    ensures StalePools(Reconciled(c, poolName)) == StalePools(c) - {poolName}
  {
    hide Touch, WokenByTouch, TouchAll, StatusFor, NodeOk;
    var c', spec := Reconciled(c, poolName), c.pools[poolName].spec;
    ReconcileSettles(c, poolName);
    forall p | p in c.pools
      ensures p in StalePools(c') <==> p in StalePools(c) - {poolName}
    {
      TouchKeepsMembers(c.nodes, poolName, spec, p);
    }
  }

  lemma StaleSmaller(a: set<string>, x: string)
    ensures |a - {x}| <= |a| && (x in a ==> |a - {x}| < |a|)
  {
    if x !in a {
      assert a - {x} == a;
    }
  }

  /** A reconcile that writes anything reduces the work left; one that writes nothing reduces the queue. */
  lemma ReconcileMakesProgress(c: State, poolName: string)
    requires StoreOk(c.nodes, c.pools) && poolName in c.pools
    ensures Pending(Reconciled(c, poolName)) <= Pending(c)
    ensures !Settled(c.nodes, c.pools, poolName) ==> Pending(Reconciled(c, poolName)) < Pending(c)
  {
    var c', spec := Reconciled(c, poolName), c.pools[poolName].spec;
    forall x | x in c.nodes
      ensures Distance(c'.nodes[x], c'.pools) <= Distance(c.nodes[x], c.pools)
      ensures Changes(c.nodes, poolName, spec, x) ==> Distance(c'.nodes[x], c'.pools) < Distance(c.nodes[x], c.pools)
    {
      DistanceFalls(c.nodes[x], poolName, c.pools, c'.pools);
    }
    assert c'.nodes.Keys == c.nodes.Keys;
    TotalFalls(c.nodes.Keys, c.nodes, c'.nodes, c.pools, c'.pools);
    StaleFalls(c, poolName);
    StaleSmaller(StalePools(c), poolName);
  }

  /** All names that can ever be in the queue while users rest. */
  ghost function Universe(c: State): set<string> {
    {""} + c.queue + c.pools.Keys + (set name | name in c.nodes :: Desired(c.nodes[name])) +
    (set name | name in c.nodes :: Owner(c.nodes[name]))
  }

  ghost function Times(a: nat, b: nat): (p: nat) {
    if a == 0 then 0 else Times(a - 1, b) + b
  }

  /** No more than this many pools are taken from the queue before it is empty. */
  ghost function Bound(c: State, universe: set<string>): nat {
    Times(Pending(c), |universe| + 1) + |c.queue|
  }

  lemma TouchStaysInUniverse(n: Node, poolName: string, spec: Attrs, universe: set<string>)
    requires NodeOk(n) && ReservedFree(spec) && poolName != ""
    requires {"", poolName, Desired(n), Owner(n)} <= universe
    ensures var n' := Touch(n, poolName, spec);
            Desired(n') in universe && Owner(n') in universe && WokenByUpdate(n, n') <= universe
  {
    TouchFacts(n, poolName, spec);
    if Desired(n) == poolName {
      ConcileFacts(n, spec, poolName);
    } else if Owner(n) == poolName {
      StripFacts(n);
    }
  }

  lemma WokenInUniverse(nodes: map<string, Node>, poolName: string, spec: Attrs, universe: set<string>)
    requires forall name :: name in nodes ==> WokenByUpdate(nodes[name], Touch(nodes[name], poolName, spec)) <= universe
    ensures WokenByTouch(nodes, poolName, spec, nodes.Keys) <= universe
  {
  }

  ghost predicate Named(nodes: map<string, Node>, universe: set<string>) {
    forall name :: name in nodes ==> Desired(nodes[name]) in universe && Owner(nodes[name]) in universe
  }

  lemma UniverseIsNamed(c: State, universe: set<string>)
    ensures Universe(c) <= universe <==>
            "" in universe && c.queue <= universe && c.pools.Keys <= universe && Named(c.nodes, universe)
  {
    if Universe(c) <= universe {
      assert "" in Universe(c) && c.queue <= Universe(c) && c.pools.Keys <= Universe(c);
      forall name | name in c.nodes
        ensures Desired(c.nodes[name]) in universe && Owner(c.nodes[name]) in universe
      {
        assert Desired(c.nodes[name]) in Universe(c) && Owner(c.nodes[name]) in Universe(c);
      }
    }
  }

  lemma UniverseKept(c: State, poolName: string, universe: set<string>)
    requires StoreOk(c.nodes, c.pools) && Universe(c) <= universe
    ensures Universe(Reconciled(c, poolName)) <= universe
  {
    hide Universe, Touch, WokenByUpdate, WokenByTouch, StatusCurrent, StatusFor, Desired, Owner, NodeOk;
    UniverseIsNamed(c, universe);
    UniverseIsNamed(Reconciled(c, poolName), universe);
    if poolName in c.pools {
      var c', spec := Reconciled(c, poolName), c.pools[poolName].spec;
      forall name | name in c.nodes
        ensures Desired(c'.nodes[name]) in universe && Owner(c'.nodes[name]) in universe
        ensures WokenByUpdate(c.nodes[name], Touch(c.nodes[name], poolName, spec)) <= universe
      {
        TouchStaysInUniverse(c.nodes[name], poolName, spec, universe);
      }
      WokenInUniverse(c.nodes, poolName, spec, universe);
    }
  }

  lemma {:induction false} BoundArithmetic(before: nat, after: nat, size: nat, queued: nat)
    requires after < before && queued <= size
    ensures Times(after, size + 1) + queued < Times(before, size + 1)
  {
    if after < before - 1 {
      BoundArithmetic(before - 1, after, size, queued);
    }
  }

  lemma BoundFalls(c: State, poolName: string, universe: set<string>)
    requires StoreOk(c.nodes, c.pools) && Universe(c) <= universe && poolName in c.queue
    ensures Bound(Reconciled(c, poolName), universe) < Bound(c, universe)
  {
    var c' := Reconciled(c, poolName);
    if poolName !in c.pools {
      StaleSmaller(c.queue, poolName);
      assert Pending(c') == Pending(c);
    } else if Settled(c.nodes, c.pools, poolName) {
      StaleSmaller(c.queue, poolName);
      SettledReconcileWritesNothing(c, poolName);
      assert Pending(c') == Pending(c);
    } else {
      ReconcileMakesProgress(c, poolName);
      UniverseKept(c, poolName, universe);
      SubsetSize(c'.queue, universe) by {
        assert c'.queue <= Universe(c');
      }
      BoundArithmetic(Pending(c), Pending(c'), |universe|, |c'.queue|);
    }
  }

  /** Pools taken from the queue one after the other. */
  ghost predicate IsDrain(c: State, taken: seq<string>)
    decreases |taken|
  {
    taken != [] ==> taken[0] in c.queue && IsDrain(Reconciled(c, taken[0]), taken[1..])
  }

  ghost function Drained(c: State, taken: seq<string>): State
    decreases |taken|
  {
    if taken == [] then c else Drained(Reconciled(c, taken[0]), taken[1..])
  }

  /** Termination: however pools are picked, no run of reconciles is longer than the bound. */
  lemma {:induction false} DrainIsFinite(c: State, taken: seq<string>, universe: set<string>)
    requires StoreOk(c.nodes, c.pools) && Universe(c) <= universe
    requires IsDrain(c, taken)
    ensures |taken| <= Bound(c, universe)
    decreases |taken|
  {
    if taken != [] {
      BoundFalls(c, taken[0], universe);
      UniverseKept(c, taken[0], universe);
      ReconcileKeepsStoreOk(c, taken[0]);
      DrainIsFinite(Reconciled(c, taken[0]), taken[1..], universe);
    }
  }
}
