/**
  Confluence of the node pool reconciles: whether the order in which pools are reconciled, or in which queued pools are
  picked, shows in the final store.
 */
module Confluence {
  import opened Common
  import opened NodeAttributes
  import opened NodeUndo
  import opened Cluster
  import opened Convergence

  /** The map still has every cached entry. */
  ghost predicate Keeps(m: map<string, string>, cached: map<string, string>) {
    forall k :: k in cached ==> k in m && m[k] == cached[k]
  }

  /** Users leave the pool's labels and annotations on the node alone; they may add, move and remove taints. */
  ghost predicate Intact(n: Node) {
    n.cached.Some? ==> Keeps(n.labels, n.cached.value.labels) && Keeps(n.annotations, n.cached.value.annotations)
  }

  /** No pool clashes with what a node has of its own, and no pool repeats a taint slot. */
  ghost predicate Separate(nodes: map<string, Node>, pools: map<string, Pool>) {
    && (forall name, p :: name in nodes && p in pools ==> Disjoint(Strip(nodes[name]), pools[p].spec))
    && (forall p :: p in pools ==> UniqueSlots(pools[p].spec.taints))
  }

  ghost predicate Ready(c: State) {
    && Good(c)
    && (forall name :: name in c.nodes ==> Intact(c.nodes[name]))
    && Separate(c.nodes, c.pools)
  }

  predicate AtHome(n: Node, pools: map<string, Pool>) {
    Desired(n) in pools && Owner(n) == Desired(n) && n.cached == Some(pools[Desired(n)].spec)
  }

  /** Where a node ends: as it is if it is at home, fresh in its desired pool if that exists, bare otherwise. */
  ghost function Home(n: Node, pools: map<string, Pool>): Node {
    if AtHome(n, pools) then n
    else if Desired(n) in pools then Concile(Strip(n), pools[Desired(n)].spec, Desired(n))
    else Strip(n)
  }

  /**
    A node that moves between two pools with one and the same spec: if its new pool comes first, only the owner label
    changes; if its old pool comes first, the pool's taints move to the end of the list. In line means that they are
    there already.
   */
  predicate InLine(n: Node, pools: map<string, Pool>) {
    Desired(n) in pools && n.cached == Some(pools[Desired(n)].spec) && Owner(n) != Desired(n) ==>
      n.taints == RemoveTaints(n.taints, n.cached.value.taints) + n.cached.value.taints
  }

  ghost predicate AllInLine(c: State) {
    forall name :: name in c.nodes ==> InLine(c.nodes[name], c.pools)
  }

  ghost function HomeNodes(c: State): map<string, Node> {
    map name | name in c.nodes :: Home(c.nodes[name], c.pools)
  }

  ghost function HomePool(nodes: map<string, Node>, poolName: string, pool: Pool): Pool {
    if StatusCurrent(nodes, poolName, pool.status) then pool else pool.(status := StatusFor(nodes, poolName))
  }

  ghost function HomePools(c: State): map<string, Pool> {
    map p | p in c.pools :: HomePool(c.nodes, p, c.pools[p])
  }

  // ---------- One node ----------

  lemma FollowKept(m: map<string, string>, before: map<string, string>, after: map<string, string>)
    requires Keeps(m, before)
    ensures FollowMap(m, before, after) == DropMatching(m, before) + after
  {
  }

  lemma OwnerAside(m: map<string, string>, before: map<string, string>, after: map<string, string>, poolName: string)
    requires Keeps(m, before) && LABEL_OWNER !in before && LABEL_OWNER !in after
    ensures FollowMap(m, before, after)[LABEL_OWNER := poolName] ==
            ((DropMatching(m, before) - {LABEL_OWNER}) + after)[LABEL_OWNER := poolName]
    ensures (m - {LABEL_OWNER}) + after == (m + after) - {LABEL_OWNER}
  {
  }

  /** Taking a node over with another spec gives what stripping and joining gives, wherever its own taints stand. */
  lemma TakeOverIsFresh(n: Node, spec: Attrs, poolName: string)
    requires NodeOk(n) && Intact(n) && poolName != "" && ReservedFree(spec)
    requires Disjoint(Strip(n), spec) && UniqueSlots(spec.taints) && n.cached != Some(spec)
    ensures Concile(n, spec, poolName) == Concile(Strip(n), spec, poolName)
  {
    match n.cached
    case None =>
    case Some(prev) =>
      var base := Strip(n);
      SetOwnerSets(Apply(n, spec), poolName);
      SetOwnerSets(Apply(base, spec), poolName);
      OwnerAside(n.labels, prev.labels, spec.labels, poolName);
      FollowKept(n.annotations, prev.annotations, spec.annotations);
      JoinUnique(base.taints, spec.taints);
      hide FollowMap, DropMatching, JoinTaints, RemoveTaints, UniqueSlots, Clash, Disjoint, Keeps;
  }

  /** Taking a node over with the spec it has already gives what stripping and joining gives exactly if in line. */
  lemma SameSpecIsFreshIff(n: Node, spec: Attrs, poolName: string)
    requires NodeOk(n) && Intact(n) && poolName != "" && ReservedFree(spec)
    requires Disjoint(Strip(n), spec) && UniqueSlots(spec.taints) && n.cached == Some(spec)
    ensures Concile(n, spec, poolName) == Concile(Strip(n), spec, poolName) <==>
            n.taints == RemoveTaints(n.taints, spec.taints) + spec.taints
  {
    var base := Strip(n);
    SetOwnerSets(n, poolName);
    SetOwnerSets(Apply(base, spec), poolName);
    SameEntries(n.labels, spec.labels, poolName);
    SameAnnotations(n.annotations, spec.annotations);
    JoinUnique(base.taints, spec.taints);
    hide DropMatching, JoinTaints, RemoveTaints, UniqueSlots, Clash, Disjoint, Keeps;
  }

  lemma SameEntries(m: map<string, string>, cached: map<string, string>, poolName: string)
    requires Keeps(m, cached) && LABEL_OWNER !in cached
    ensures m[LABEL_OWNER := poolName] == ((DropMatching(m, cached) - {LABEL_OWNER}) + cached)[LABEL_OWNER := poolName]
  {
  }

  lemma SameAnnotations(m: map<string, string>, cached: map<string, string>)
    requires Keeps(m, cached)
    ensures m == DropMatching(m, cached) + cached
  {
  }

  lemma JoinedKeepsBase(base: Node, spec: Attrs, poolName: string)
    requires base.cached == None && LABEL_OWNER !in base.labels && poolName != ""
    requires Disjoint(base, spec) && UniqueSlots(spec.taints) && ReservedFree(spec)
    ensures Strip(Concile(base, spec, poolName)) == base && Intact(Concile(base, spec, poolName))
  {
    JoinUndoneIff(base, spec, poolName);
    SetOwnerSets(Apply(base, spec), poolName);
    hide DropMatching, JoinTaints, RemoveTaints, UniqueSlots, Clash, Disjoint, Strip;
  }

  /** Touching keeps what is the node's own, and the pool's entries that users rely on. */
  lemma ConcileKeepsBase(n: Node, spec: Attrs, poolName: string)
    requires NodeOk(n) && Intact(n) && poolName != "" && ReservedFree(spec)
    requires Disjoint(Strip(n), spec) && UniqueSlots(spec.taints)
    ensures Intact(Concile(n, spec, poolName)) && Strip(Concile(n, spec, poolName)) == Strip(n)
  {
    if n.cached == Some(spec) {
      SetOwnerSets(n, poolName);
      DropBehindOwner(n.labels, spec.labels, poolName);
      hide DropMatching, RemoveTaints, UniqueSlots, Disjoint;
    } else {
      TakeOverIsFresh(n, spec, poolName);
      StripFacts(n);
      hide Concile, Disjoint, UniqueSlots, Intact;
      JoinedKeepsBase(Strip(n), spec, poolName);
    }
  }

  lemma DropBehindOwner(m: map<string, string>, cached: map<string, string>, poolName: string)
    requires LABEL_OWNER !in cached
    ensures DropMatching(m[LABEL_OWNER := poolName], cached) - {LABEL_OWNER} == DropMatching(m, cached) - {LABEL_OWNER}
  {
  }

  lemma StripTwice(n: Node)
    requires NodeOk(n)
    ensures Intact(Strip(n)) && Strip(Strip(n)) == Strip(n)
  {
  }

  ghost predicate Fits(n: Node, pools: map<string, Pool>) {
    && "" !in pools
    && forall p :: p in pools ==>
         ReservedFree(pools[p].spec) && Disjoint(Strip(n), pools[p].spec) && UniqueSlots(pools[p].spec.taints)
  }

  lemma TouchKeepsBase(n: Node, poolName: string, pools: map<string, Pool>)
    requires NodeOk(n) && Intact(n) && Fits(n, pools) && poolName in pools
    ensures var n' := Touch(n, poolName, pools[poolName].spec);
            Intact(n') && Strip(n') == Strip(n) && Desired(n') == Desired(n)
  {
    TouchFacts(n, poolName, pools[poolName].spec);
    hide Disjoint, UniqueSlots, Intact, Concile, Strip;
    if Desired(n) == poolName {
      ConcileKeepsBase(n, pools[poolName].spec, poolName);
    } else {
      StripTwice(n);
    }
  }

  /** A reconcile does not move the home of a node in line, and leaves it in line. */
  lemma TouchKeepsHome(n: Node, poolName: string, pools: map<string, Pool>)
    requires NodeOk(n) && Intact(n) && Fits(n, pools) && poolName in pools && InLine(n, pools)
    ensures var n' := Touch(n, poolName, pools[poolName].spec);
            InLine(n', pools) && Home(n', pools) == Home(n, pools)
  {
    var spec := pools[poolName].spec;
    if Desired(n) == poolName {
      ConcileFacts(n, spec, poolName);
      if n.cached == Some(spec) {
        SameSpecIsFreshIff(n, spec, poolName);
      } else {
        TakeOverIsFresh(n, spec, poolName);
      }
    } else if Owner(n) == poolName {
      StripFacts(n);
      StripTwice(n);
    }
    hide Concile, Strip, Disjoint, UniqueSlots, Intact, RemoveTaints;
  }

  lemma SettledNodeIsHome(n: Node, pools: map<string, Pool>)
    requires NodeOk(n) && Fits(n, pools) && (Owner(n) != "" ==> Owner(n) in pools)
    requires forall p :: p in pools ==> Touch(n, p, pools[p].spec) == n
    ensures n == Home(n, pools)
  {
    var d, o := Desired(n), Owner(n);
    if d in pools {
      assert Touch(n, d, pools[d].spec) == n;
      TouchFacts(n, d, pools[d].spec);
    } else if o != "" {
      assert Touch(n, o, pools[o].spec) == n;
      TouchFacts(n, o, pools[o].spec);
    } else {
      StripFacts(n);
    }
    hide Touch, Concile, Strip, Disjoint;
  }

  // ---------- The whole store ----------

  lemma ReadyFits(c: State, name: string)
    requires Ready(c) && name in c.nodes
    ensures NodeOk(c.nodes[name]) && Intact(c.nodes[name]) && Fits(c.nodes[name], c.pools)
  {
    hide Disjoint, UniqueSlots, Strip, Intact, NodeOk;
  }

  /** `c'` has the nodes and pools of `c`, each node with the same base and each pool with the same spec and home. */
  ghost predicate SameBases(c: State, c': State) {
    && c'.nodes.Keys == c.nodes.Keys && c'.pools.Keys == c.pools.Keys
    && (forall name :: name in c.nodes ==>
          Intact(c'.nodes[name]) && Strip(c'.nodes[name]) == Strip(c.nodes[name]))
    && (forall p :: p in c.pools ==>
          && c'.pools[p].spec == c.pools[p].spec
          && HomePool(c'.nodes, p, c'.pools[p]) == HomePool(c.nodes, p, c.pools[p]))
  }

  lemma SeparateKept(nodes: map<string, Node>, nodes': map<string, Node>, pools: map<string, Pool>,
                     pools': map<string, Pool>)
    requires Separate(nodes, pools)
    requires nodes'.Keys == nodes.Keys && forall name :: name in nodes ==> Strip(nodes'[name]) == Strip(nodes[name])
    requires pools'.Keys == pools.Keys && forall p :: p in pools ==> pools'[p].spec == pools[p].spec
    ensures Separate(nodes', pools')
  {
    forall name, p | name in nodes' && p in pools' ensures Disjoint(Strip(nodes'[name]), pools'[p].spec) {
      assert Disjoint(Strip(nodes[name]), pools[p].spec);
    }
  }

  lemma SameBasesFacts(c: State, c': State)
    requires Ready(c) && Good(c') && SameBases(c, c')
    ensures Ready(c') && HomePools(c') == HomePools(c)
  {
    hide Intact, Home, HomePool, Good, Disjoint, Strip, UniqueSlots;
    SeparateKept(c.nodes, c'.nodes, c.pools, c'.pools);
    assert HomePools(c') == HomePools(c);
  }

  lemma PoolsKeepHome(c: State, poolName: string, p: string)
    requires Ready(c) && poolName in c.pools && p in c.pools
    ensures var c' := Reconciled(c, poolName);
            && c'.pools[p].spec == c.pools[p].spec
            && HomePool(c'.nodes, p, c'.pools[p]) == HomePool(c.nodes, p, c.pools[p])
  {
    var c', spec := Reconciled(c, poolName), c.pools[poolName].spec;
    TouchKeepsMembers(c.nodes, poolName, spec, p);
    assert StatusFor(c'.nodes, p) == StatusFor(c.nodes, p);
    if p == poolName {
      ReconcileSettles(c, poolName);
      assert StatusCurrent(c'.nodes, p, c'.pools[p].status);
    }
  }

  lemma ReconcileSameBases(c: State, poolName: string)
    requires Ready(c) && poolName in c.pools
    ensures SameBases(c, Reconciled(c, poolName))
  {
    hide Ready, Intact, HomePool, Strip, Touch, WokenByTouch, StatusCurrent, StatusFor;
    var c' := Reconciled(c, poolName);
    forall name | name in c.nodes ensures Intact(c'.nodes[name]) && Strip(c'.nodes[name]) == Strip(c.nodes[name]) {
      ReadyFits(c, name);
      TouchKeepsBase(c.nodes[name], poolName, c.pools);
    }
    forall p | p in c.pools
      ensures c'.pools[p].spec == c.pools[p].spec
      ensures HomePool(c'.nodes, p, c'.pools[p]) == HomePool(c.nodes, p, c.pools[p])
    {
      PoolsKeepHome(c, poolName, p);
    }
  }

  lemma ReconcileKeepsReady(c: State, poolName: string)
    requires Ready(c)
    ensures Ready(Reconciled(c, poolName)) && HomePools(Reconciled(c, poolName)) == HomePools(c)
  {
    if poolName in c.pools {
      ReconcileKeepsGood(c, poolName);
      ReconcileSameBases(c, poolName);
      hide Ready, Good, SameBases, HomePools, Reconciled;
      SameBasesFacts(c, Reconciled(c, poolName));
    }
  }

  /** Home only looks at the pools' specs. */
  lemma HomeBySpecs(n: Node, pools: map<string, Pool>, pools': map<string, Pool>)
    requires pools'.Keys == pools.Keys && forall p :: p in pools ==> pools'[p].spec == pools[p].spec
    ensures Home(n, pools') == Home(n, pools) && (InLine(n, pools') <==> InLine(n, pools))
  {
  }

  lemma ReconcileKeepsHomes(c: State, poolName: string)
    requires Ready(c) && AllInLine(c)
    ensures AllInLine(Reconciled(c, poolName)) && HomeNodes(Reconciled(c, poolName)) == HomeNodes(c)
  {
    hide Ready, Home, InLine, Touch, WokenByTouch, StatusCurrent, StatusFor;
    if poolName in c.pools {
      var c' := Reconciled(c, poolName);
      forall name | name in c.nodes
        ensures InLine(c'.nodes[name], c'.pools) && Home(c'.nodes[name], c'.pools) == Home(c.nodes[name], c.pools)
      {
        ReadyFits(c, name);
        TouchKeepsHome(c.nodes[name], poolName, c.pools);
        HomeBySpecs(c'.nodes[name], c.pools, c'.pools);
      }
      assert HomeNodes(c') == HomeNodes(c);
    }
  }

  lemma AllSettledIsHome(c: State)
    requires Ready(c)
    requires forall p :: p in c.pools ==> Settled(c.nodes, c.pools, p)
    ensures c.nodes == HomeNodes(c) && c.pools == HomePools(c)
  {
    forall name | name in c.nodes ensures c.nodes[name] == Home(c.nodes[name], c.pools) {
      forall p | p in c.pools ensures Touch(c.nodes[name], p, c.pools[p].spec) == c.nodes[name] {
        assert Settled(c.nodes, c.pools, p);
        assert !Changes(c.nodes, p, c.pools[p].spec, name);
      }
      ReadyFits(c, name);
      SettledNodeIsHome(c.nodes[name], c.pools);
    }
    forall p | p in c.pools ensures HomePools(c)[p] == c.pools[p] {
      assert Settled(c.nodes, c.pools, p);
    }
    hide Ready, Home, Touch, Settled, StatusCurrent, StatusFor;
  }

  lemma DrainedStep(c: State, first: string, rest: seq<string>)
    ensures Drained(c, [first] + rest) == Drained(Reconciled(c, first), rest)
  {
    assert ([first] + rest)[1..] == rest;
  }

  lemma ReconciledShape(c: State, poolName: string)
    ensures var c' := Reconciled(c, poolName);
            && c'.nodes.Keys == c.nodes.Keys && c'.pools.Keys == c.pools.Keys
            && (forall p :: p in c.pools ==> c'.pools[p].spec == c.pools[p].spec)
            && (poolName !in c.pools ==> c'.nodes == c.nodes && c'.pools == c.pools)
            && (poolName in c.pools ==> forall name :: name in c.nodes ==>
                  c'.nodes[name] == Touch(c.nodes[name], poolName, c.pools[poolName].spec))
  {
    hide Touch, WokenByTouch, StatusCurrent, StatusFor;
  }

  lemma {:induction false} DrainKeepsReady(c: State, taken: seq<string>)
    requires Ready(c)
    ensures var c' := Drained(c, taken);
            Ready(c') && c'.pools.Keys == c.pools.Keys && c'.nodes.Keys == c.nodes.Keys && HomePools(c') == HomePools(c)
    decreases |taken|
  {
    if taken != [] {
      ReconcileKeepsReady(c, taken[0]);
      ReconciledShape(c, taken[0]);
      hide Ready, Reconciled, HomePools;
      DrainKeepsReady(Reconciled(c, taken[0]), taken[1..]);
    }
  }

  lemma {:induction false} DrainKeepsHomes(c: State, taken: seq<string>)
    requires Ready(c) && AllInLine(c)
    ensures HomeNodes(Drained(c, taken)) == HomeNodes(c)
    decreases |taken|
  {
    if taken != [] {
      ReconcileKeepsReady(c, taken[0]);
      ReconcileKeepsHomes(c, taken[0]);
      DrainKeepsHomes(Reconciled(c, taken[0]), taken[1..]);
    }
  }

  lemma {:induction false} DrainSettles(c: State, taken: seq<string>, p: string)
    requires Ready(c) && p in c.pools
    requires Settled(c.nodes, c.pools, p) || p in taken
    ensures p in Drained(c, taken).pools && Settled(Drained(c, taken).nodes, Drained(c, taken).pools, p)
    decreases |taken|
  {
    if taken != [] {
      var c' := Reconciled(c, taken[0]);
      ReconcileKeepsReady(c, taken[0]);
      if taken[0] !in c.pools {
        assert c'.nodes == c.nodes && c'.pools == c.pools;
      } else if taken[0] == p {
        ReconcileSettles(c, p);
      } else if Settled(c.nodes, c.pools, p) {
        ReconcileKeepsSettled(c, taken[0], p);
      }
      DrainSettles(c', taken[1..], p);
    }
  }

  ghost predicate Covers(c: State, order: seq<string>) {
    forall p :: p in c.pools ==> p in order
  }

  /** Whatever the order, the store ends where every node and status is at home. */
  lemma OrderEnds(c: State, order: seq<string>)
    requires Ready(c) && Covers(c, order)
    ensures var c' := Drained(c, order);
            && c'.nodes == HomeNodes(c') && c'.pools == HomePools(c)
            && forall p :: p in c'.pools ==> Settled(c'.nodes, c'.pools, p)
  {
    DrainKeepsReady(c, order);
    var c' := Drained(c, order);
    forall p | p in c'.pools ensures Settled(c'.nodes, c'.pools, p) {
      DrainSettles(c, order, p);
    }
    AllSettledIsHome(c');
  }

  /** Confluence: reconciling every pool, in any order, puts every node and every status where it belongs. */
  lemma EveryOrderEndsHome(c: State, order: seq<string>)
    requires Ready(c) && AllInLine(c) && Covers(c, order)
    ensures Drained(c, order).nodes == HomeNodes(c) && Drained(c, order).pools == HomePools(c)
  {
    OrderEnds(c, order);
    DrainKeepsHomes(c, order);
  }

  /** Every two orders end in the same store. */
  ghost predicate OrdersAgree(c: State) {
    forall a, b :: Covers(c, a) && Covers(c, b) ==>
      Drained(c, a).nodes == Drained(c, b).nodes && Drained(c, a).pools == Drained(c, b).pools
  }

  /**
    The order of reconciles never shows exactly if every node is in line. The one case where it shows is a node that
    moves between two pools with the same spec while a taint of its own stands behind theirs.
   */
  lemma OrdersAgreeIff(c: State)
    requires Ready(c)
    ensures OrdersAgree(c) <==> AllInLine(c)
  {
    if AllInLine(c) {
      forall a, b | Covers(c, a) && Covers(c, b)
        ensures Drained(c, a).nodes == Drained(c, b).nodes && Drained(c, a).pools == Drained(c, b).pools
      {
        EveryOrderEndsHome(c, a);
        EveryOrderEndsHome(c, b);
      }
    } else {
      var name :| name in c.nodes && !InLine(c.nodes[name], c.pools);
      OrderShows(c, name);
    }
  }

  lemma SomeOrder(pools: set<string>) returns (order: seq<string>)
    ensures forall p :: p in pools ==> p in order
  {
    order := [];
    var todo := pools;
    while todo != {}
      invariant forall p :: p in pools && p !in todo ==> p in order
      decreases |todo|
    {
      var p :| p in todo;
      order := order + [p];
      todo := todo - {p};
    }
  }

  lemma OutOfLine(c: State, name: string)
    requires Ready(c) && name in c.nodes && !InLine(c.nodes[name], c.pools)
    ensures var n := c.nodes[name]; var d, o := Desired(n), Owner(n);
            && d in c.pools && o in c.pools && o != d
            && Concile(n, c.pools[d].spec, d) != Concile(Strip(n), c.pools[d].spec, d)
  {
    var n := c.nodes[name];
    ReadyFits(c, name);
    SameSpecIsFreshIff(n, c.pools[Desired(n)].spec, Desired(n));
    hide Concile, Strip, RemoveTaints, Disjoint, UniqueSlots, Intact;
  }

  lemma CoversMore(c: State, first: string, rest: seq<string>)
    requires Covers(c, rest)
    ensures Covers(c, [first] + rest)
  {
  }

  lemma Disagree(c: State, a: seq<string>, b: seq<string>)
    requires Covers(c, a) && Covers(c, b) && Drained(c, a).nodes != Drained(c, b).nodes
    ensures !OrdersAgree(c)
  {
    hide Covers, Drained;
  }

  /** Old pool first and new pool first differ for a node out of line. */
  lemma OrderShows(c: State, name: string)
    requires Ready(c) && name in c.nodes && !InLine(c.nodes[name], c.pools)
    ensures !OrdersAgree(c)
  {
    var n := c.nodes[name];
    var d, o := Desired(n), Owner(n);
    var rest := SomeOrder(c.pools.Keys);
    assert Covers(c, rest);
    hide *;
    OutOfLine(c, name);
    NewFirst(c, name, rest);
    OldFirst(c, name, rest);
    CoversMore(c, d, rest);
    CoversMore(c, o, rest);
    Disagree(c, [d] + rest, [o] + rest);
  }

  /** A node at home is left alone by every pool. */
  lemma AtHomeUntouched(n: Node, pools: map<string, Pool>, p: string)
    requires NodeOk(n) && Fits(n, pools) && AtHome(n, pools) && p in pools
    ensures Touch(n, p, pools[p].spec) == n
  {
    TouchFacts(n, p, pools[p].spec);
    hide Touch, Disjoint, UniqueSlots;
  }

  lemma {:induction false} AtHomeStays(c: State, taken: seq<string>, name: string)
    requires Ready(c) && name in c.nodes && AtHome(c.nodes[name], c.pools)
    ensures name in Drained(c, taken).nodes && Drained(c, taken).nodes[name] == c.nodes[name]
    decreases |taken|
  {
    if taken != [] {
      ReadyFits(c, name);
      ReconcileKeepsReady(c, taken[0]);
      ReconciledShape(c, taken[0]);
      hide Ready, Reconciled, Fits, NodeOk, Touch;
      if taken[0] in c.pools {
        AtHomeUntouched(c.nodes[name], c.pools, taken[0]);
      }
      AtHomeStays(Reconciled(c, taken[0]), taken[1..], name);
    }
  }

  lemma NewFirst(c: State, name: string, rest: seq<string>)
    requires Ready(c) && name in c.nodes && Desired(c.nodes[name]) in c.pools
    ensures var n := c.nodes[name]; var d := Desired(n);
            && name in Drained(c, [d] + rest).nodes
            && Drained(c, [d] + rest).nodes[name] == Concile(n, c.pools[d].spec, d)
  {
    var n := c.nodes[name];
    var d := Desired(n);
    ReadyFits(c, name);
    ConcileFacts(n, c.pools[d].spec, d);
    hide Ready, Reconciled, Fits, NodeOk, Drained, Concile;
    ReconcileKeepsReady(c, d);
    ReconciledShape(c, d);
    AtHomeStays(Reconciled(c, d), rest, name);
    DrainedStep(c, d, rest);
  }

  lemma OldFirst(c: State, name: string, rest: seq<string>)
    requires Ready(c) && name in c.nodes && Desired(c.nodes[name]) in c.pools
    requires Owner(c.nodes[name]) in c.pools && Owner(c.nodes[name]) != Desired(c.nodes[name]) && Covers(c, rest)
    ensures var n := c.nodes[name]; var d := Desired(n);
            && name in Drained(c, [Owner(n)] + rest).nodes
            && Drained(c, [Owner(n)] + rest).nodes[name] == Concile(Strip(n), c.pools[d].spec, d)
  {
    var n := c.nodes[name];
    var o := Owner(n);
    ReadyFits(c, name);
    StripFacts(n);
    hide Ready, Reconciled, Fits, NodeOk, Drained, Concile, Strip;
    ReconcileKeepsReady(c, o);
    ReconciledShape(c, o);
    StrippedEndsFresh(Reconciled(c, o), rest, name);
    DrainedStep(c, o, rest);
  }

  lemma UnownedUntouched(n: Node, pools: map<string, Pool>, p: string)
    requires NodeOk(n) && Fits(n, pools) && Owner(n) == "" && p in pools && p != Desired(n)
    ensures Touch(n, p, pools[p].spec) == n
  {
    TouchFacts(n, p, pools[p].spec);
    hide Touch, Disjoint, UniqueSlots;
  }

  /** An unowned node stays as it is until its desired pool takes it. */
  lemma {:induction false} StrippedEndsFresh(c: State, taken: seq<string>, name: string)
    requires Ready(c) && name in c.nodes && Owner(c.nodes[name]) == "" && Desired(c.nodes[name]) in c.pools
    requires Desired(c.nodes[name]) in taken
    ensures var n := c.nodes[name]; var d := Desired(n);
            && name in Drained(c, taken).nodes
            && Drained(c, taken).nodes[name] == Concile(n, c.pools[d].spec, d)
    decreases |taken|
  {
    var n := c.nodes[name];
    var first, rest := taken[0], taken[1..];
    assert taken == [first] + rest;
    hide Ready, Reconciled, Fits, NodeOk, Drained, Concile, Touch;
    if first == Desired(n) {
      NewFirst(c, name, rest);
    } else {
      ReadyFits(c, name);
      ReconcileKeepsReady(c, first);
      ReconciledShape(c, first);
      if first in c.pools {
        UnownedUntouched(n, c.pools, first);
      }
      StrippedEndsFresh(Reconciled(c, first), rest, name);
      DrainedStep(c, first, rest);
    }
  }

  lemma {:induction false} DrainQueuesUnsettled(c: State, taken: seq<string>, p: string)
    requires Ready(c) && IsDrain(c, taken) && p in c.pools
    requires !Settled(c.nodes, c.pools, p) ==> p in c.queue
    ensures p in Drained(c, taken).pools
    ensures !Settled(Drained(c, taken).nodes, Drained(c, taken).pools, p) ==> p in Drained(c, taken).queue
    decreases |taken|
  {
    if taken != [] {
      var c' := Reconciled(c, taken[0]);
      ReconcileKeepsReady(c, taken[0]);
      if taken[0] !in c.pools {
        assert c'.nodes == c.nodes && c'.pools == c.pools;
      } else if taken[0] == p {
        ReconcileSettles(c, p);
      } else if Settled(c.nodes, c.pools, p) {
        ReconcileKeepsSettled(c, taken[0], p);
      }
      DrainQueuesUnsettled(c', taken[1..], p);
    }
  }

  /** A run that empties the queue ends in the same store, whichever pools were picked and however often. */
  lemma EveryDrainEndsHome(c: State, taken: seq<string>)
    requires Ready(c) && AllInLine(c) && IsDrain(c, taken) && Drained(c, taken).queue == {}
    requires forall p :: p in c.pools && !Settled(c.nodes, c.pools, p) ==> p in c.queue
    ensures Drained(c, taken) == State(HomeNodes(c), HomePools(c), {})
  {
    DrainKeepsReady(c, taken);
    DrainKeepsHomes(c, taken);
    var c' := Drained(c, taken);
    forall p | p in c'.pools ensures Settled(c'.nodes, c'.pools, p) {
      DrainQueuesUnsettled(c, taken, p);
    }
    AllSettledIsHome(c');
  }

  /** In the final store a node is owned by its desired pool if that exists and is unowned and bare otherwise. */
  lemma HomeIsDesired(c: State, name: string)
    requires Ready(c) && name in c.nodes
    ensures var n, h := c.nodes[name], HomeNodes(c)[name];
            && Desired(h) == Desired(n)
            && (Desired(n) in c.pools ==> Owner(h) == Desired(n) && h.cached == Some(c.pools[Desired(n)].spec))
            && (Desired(n) !in c.pools ==> Clean(h))
            && Strip(h) == Strip(n)
  {
    var n := c.nodes[name];
    ReadyFits(c, name);
    StripFacts(n);
    StripTwice(n);
    if Desired(n) in c.pools {
      ConcileFacts(Strip(n), c.pools[Desired(n)].spec, Desired(n));
      ConcileKeepsBase(Strip(n), c.pools[Desired(n)].spec, Desired(n));
    }
    hide Ready, Concile, Disjoint, UniqueSlots;
  }
}
