/**
  Workers that run at the same time, once users, failures and restarts pause: every run is finite however the workers'
  steps interleave and however often a write is rejected, and its end is the store in which every node is at home.
 */
module WorkerRuns {
  import opened Common
  import opened NodeAttributes
  import opened Cluster
  import opened Convergence
  import opened Confluence
  import opened WakeUp
  import opened WorkerRefinement
  import Names

  predicate WorkerStep(a: Action) {
    a.Start? || a.WriteNode? || a.Finish?
  }

  // ---------- What is left to do ----------

  /** The worker read the pool as it is now, and plans the status that its nodes give now. */
  ghost predicate Current(s: System, poolName: string)
    requires poolName in s.active
  {
    && poolName in s.pools && s.active[poolName].pool == s.pools[poolName]
    && s.active[poolName].status == PlannedStatus(s.nodes, poolName, s.pools[poolName])
  }

  /** The steps left to workers that are not current; such a worker may undo what is done already. */
  ghost function OldSteps(s: System): set<(string, int)> {
    set p, i | p in s.active && 0 <= i <= |s.active[p].writes| && !Current(s, p) :: (p, i)
  }

  predicate IsStale(nodes: map<string, Node>, w: Write) {
    w.name !in nodes || nodes[w.name] != w.before
  }

  /** The workers that will have a write rejected unless they stop before. */
  ghost function StaleWorks(s: System): set<string> {
    set p | p in s.active && exists i :: 0 <= i < |s.active[p].writes| && IsStale(s.nodes, s.active[p].writes[i])
  }

  function Turns(s: System): nat {
    2 * |s.queue| + |s.active.Keys|
  }

  /** Fewer steps of old workers; or less work left in the store; or fewer stale workers; or fewer turns. */
  ghost predicate Closer(s': System, s: System) {
    && |OldSteps(s')| <= |OldSteps(s)|
    && (|OldSteps(s')| == |OldSteps(s)| ==>
          && Pending(View(s')) <= Pending(View(s))
          && (Pending(View(s')) == Pending(View(s)) ==>
                && |StaleWorks(s')| <= |StaleWorks(s)|
                && (|StaleWorks(s')| == |StaleWorks(s)| ==> Turns(s') < Turns(s))))
  }

  // ---------- What no worker changes ----------

  /** The nodes say the same to every status, and pools keep their specs. */
  ghost predicate SameClaims(nodes: map<string, Node>, nodes': map<string, Node>) {
    && nodes'.Keys == nodes.Keys
    && forall name :: name in nodes ==>
         Desired(nodes'[name]) == Desired(nodes[name]) && nodes'[name].ready == nodes[name].ready
  }

  lemma SameClaimsFacts(nodes: map<string, Node>, nodes': map<string, Node>, poolName: string)
    requires SameClaims(nodes, nodes')
    ensures StatusFor(nodes', poolName) == StatusFor(nodes, poolName)
  {
    hide Desired;
    assert Members(nodes', poolName) == Members(nodes, poolName);
    assert ReadyMembers(nodes', poolName) == ReadyMembers(nodes, poolName);
  }

  lemma SameClaimsPlanned(nodes: map<string, Node>, nodes': map<string, Node>, poolName: string, pool: Pool)
    requires SameClaims(nodes, nodes')
    ensures StatusCurrent(nodes', poolName, pool.status) <==> StatusCurrent(nodes, poolName, pool.status)
    ensures PlannedStatus(nodes', poolName, pool) == PlannedStatus(nodes, poolName, pool)
  {
    SameClaimsFacts(nodes, nodes', poolName);
  }

  lemma TouchedClaims(nodes: map<string, Node>, name: string, poolName: string, spec: Attrs)
    requires name in nodes && NodeOk(nodes[name]) && ReservedFree(spec) && poolName != ""
    ensures SameClaims(nodes, nodes[name := Touch(nodes[name], poolName, spec)])
  {
    TouchFacts(nodes[name], poolName, spec);
    hide Touch, Desired, NodeOk;
  }

  // ---------- The steps ----------

  /** The next write of a worker, accepted. */
  ghost predicate Accepted(s: System, poolName: string) {
    poolName in s.active && s.active[poolName].writes != [] && !IsStale(s.nodes, s.active[poolName].writes[0])
  }

  lemma AcceptedStep(s: System, poolName: string)
    requires Inv(s) && Accepted(s, poolName)
    ensures Enabled(s, WriteNode(poolName))
    ensures var work := s.active[poolName]; var w := work.writes[0]; var s' := Step(s, WriteNode(poolName));
            && w.name in s.nodes && poolName != "" && ReservedFree(work.pool.spec) && NodeOk(s.nodes[w.name])
            && s'.nodes == s.nodes[w.name := Touch(s.nodes[w.name], poolName, work.pool.spec)]
            && Changes(s.nodes, poolName, work.pool.spec, w.name)
            && s'.pools == s.pools && s'.active == s.active[poolName := work.(writes := work.writes[1..])]
            && SameClaims(s.nodes, s'.nodes)
  {
    var work := s.active[poolName];
    assert WorkOk(poolName, work);
    TouchedClaims(s.nodes, work.writes[0].name, poolName, work.pool.spec);
    hide Touch, WokenByUpdate, Settled, NodeOk;
  }

  lemma RejectedStep(s: System, poolName: string)
    requires poolName in s.active && s.active[poolName].writes != [] && !Accepted(s, poolName)
    ensures Step(s, WriteNode(poolName)) == Requeued(s, poolName) && poolName in StaleWorks(s)
  {
    assert IsStale(s.nodes, s.active[poolName].writes[0]);
  }

  lemma CurrentKept(s: System, s': System, q: string)
    requires q in s.active && q in s'.active && Current(s, q)
    requires s'.active[q].pool == s.active[q].pool && s'.active[q].status == s.active[q].status
    requires q in s'.pools && s'.pools[q] == s.pools[q] && SameClaims(s.nodes, s'.nodes)
    ensures Current(s', q)
  {
    SameClaimsPlanned(s.nodes, s'.nodes, q, s.pools[q]);
    hide PlannedStatus, SameClaims;
  }

  lemma OldStepsShrink(s: System, s': System, p: string)
    requires p in s.active && s'.active.Keys <= s.active.Keys
    requires forall q :: q in s'.active && q != p ==> s'.active[q] == s.active[q] && (Current(s, q) ==> Current(s', q))
    requires p in s'.active ==> |s'.active[p].writes| < |s.active[p].writes| && (Current(s, p) ==> Current(s', p))
    ensures |OldSteps(s')| <= |OldSteps(s)|
    ensures !Current(s, p) ==> |OldSteps(s')| < |OldSteps(s)|
  {
    hide Current;
    SubsetSize(OldSteps(s'), OldSteps(s));
    if !Current(s, p) {
      var last := (p, |s.active[p].writes|);
      assert last in OldSteps(s) && last !in OldSteps(s');
      SubsetSize(OldSteps(s'), OldSteps(s) - {last});
    }
  }

  lemma OldStepsSame(s: System, s': System)
    requires forall q :: q in s'.active && !Current(s', q) ==>
               q in s.active && s.active[q] == s'.active[q] && !Current(s, q)
    ensures |OldSteps(s')| <= |OldSteps(s)|
  {
    hide Current;
    SubsetSize(OldSteps(s'), OldSteps(s));
  }

  /** An accepted write of a current worker brings its node closer to its place. */
  lemma AcceptedPending(s: System, poolName: string, s': System)
    requires Inv(s) && Accepted(s, poolName) && Current(s, poolName)
    requires Enabled(s, WriteNode(poolName)) && s' == Step(s, WriteNode(poolName))
    ensures Pending(View(s')) < Pending(View(s))
  {
    var name := s.active[poolName].writes[0].name;
    hide *;
    AcceptedStep(s, poolName);
    InvStore(s);
    CurrentPool(s, poolName);
    CloserNode(s.nodes, s.pools, name, poolName, s'.nodes);
    SameStale(s, s');
    PendingSplit(s);
    PendingSplit(s');
  }

  lemma InvStore(s: System)
    requires Inv(s)
    ensures StoreOk(s.nodes, s.pools)
  {
    hide Awake, WorkOk, StoreOk;
  }

  lemma CurrentPool(s: System, poolName: string)
    requires poolName in s.active && Current(s, poolName)
    ensures poolName in s.pools && s.active[poolName].pool == s.pools[poolName]
  {
    hide PlannedStatus;
  }

  lemma CloserNode(nodes: map<string, Node>, pools: map<string, Pool>, name: string, poolName: string,
                   nodes': map<string, Node>)
    requires StoreOk(nodes, pools) && poolName in pools && name in nodes
    requires nodes' == nodes[name := Touch(nodes[name], poolName, pools[poolName].spec)]
    requires Changes(nodes, poolName, pools[poolName].spec, name)
    ensures TotalDistance(nodes'.Keys, nodes', pools) < TotalDistance(nodes.Keys, nodes, pools)
  {
    DistanceFalls(nodes[name], poolName, pools, pools);
    hide *;
    OneCloser(nodes, pools, name, Touch(nodes[name], poolName, pools[poolName].spec));
  }

  lemma OneCloser(nodes: map<string, Node>, pools: map<string, Pool>, name: string, n: Node)
    requires name in nodes && Distance(n, pools) < Distance(nodes[name], pools)
    ensures TotalDistance(nodes[name := n].Keys, nodes[name := n], pools) < TotalDistance(nodes.Keys, nodes, pools)
  {
    hide *;
    var nodes' := nodes[name := n];
    assert nodes'.Keys == nodes.Keys && nodes'[name] == n;
    TotalFalls(nodes.Keys, nodes, nodes', pools, pools);
  }

  lemma SameStale(s: System, s': System)
    requires SameClaims(s.nodes, s'.nodes) && s'.pools == s.pools
    ensures StalePools(View(s')) == StalePools(View(s))
  {
    forall p | p in s.pools
      ensures StatusCurrent(s'.nodes, p, s.pools[p].status) <==> StatusCurrent(s.nodes, p, s.pools[p].status)
    {
      SameClaimsPlanned(s.nodes, s'.nodes, p, s.pools[p]);
    }
    hide SameClaims, StatusCurrent;
  }

  lemma PendingSplit(s: System)
    ensures Pending(View(s)) == TotalDistance(s.nodes.Keys, s.nodes, s.pools) + |StalePools(View(s))|
  {
    hide StalePools, TotalDistance;
  }

  lemma PendingSame(s: System, s': System)
    requires s'.nodes == s.nodes && s'.pools == s.pools
    ensures Pending(View(s')) == Pending(View(s))
  {
    PendingSplit(s);
    PendingSplit(s');
    assert StalePools(View(s')) == StalePools(View(s));
  }

  /** A status write that goes through takes its pool from those with a stale status. */
  lemma StatusPending(s: System, s': System, poolName: string)
    requires StoreOk(s.nodes, s.pools) && poolName in s.pools && s'.nodes == s.nodes
    requires !StatusCurrent(s.nodes, poolName, s.pools[poolName].status)
    requires s'.pools == s.pools[poolName := s.pools[poolName].(status := StatusFor(s.nodes, poolName))]
    ensures Pending(View(s')) < Pending(View(s))
  {
    hide *;
    PendingSplit(s);
    PendingSplit(s');
    SameDistances(s.nodes.Keys, s.nodes, s.pools, s'.pools);
    StaleFewer(s, s', poolName);
  }

  lemma StaleFewer(s: System, s': System, poolName: string)
    requires poolName in s.pools && s'.nodes == s.nodes
    requires !StatusCurrent(s.nodes, poolName, s.pools[poolName].status)
    requires s'.pools == s.pools[poolName := s.pools[poolName].(status := StatusFor(s.nodes, poolName))]
    ensures |StalePools(View(s'))| < |StalePools(View(s))|
  {
    OwnStatusIsCurrent(s.nodes, poolName);
    hide StatusCurrent, StatusFor;
    assert StalePools(View(s')) == StalePools(View(s)) - {poolName};
    StaleSmaller(StalePools(View(s)), poolName);
  }

  lemma OwnStatusIsCurrent(nodes: map<string, Node>, poolName: string)
    ensures StatusCurrent(nodes, poolName, StatusFor(nodes, poolName))
  {
    Names.SortIsListing(Names.Listing(Members(nodes, poolName)), Members(nodes, poolName));
  }

  lemma {:induction false} SameDistances(names: set<string>, nodes: map<string, Node>, pools: map<string, Pool>,
                                         pools': map<string, Pool>)
    requires pools'.Keys == pools.Keys && forall p :: p in pools ==> pools'[p].spec == pools[p].spec
    requires names <= nodes.Keys
    ensures TotalDistance(names, nodes, pools') == TotalDistance(names, nodes, pools)
  {
    if names != {} {
      var name :| name in names && TotalDistance(names, nodes, pools) ==
        Distance(nodes[name], pools) + TotalDistance(names - {name}, nodes, pools);
      hide Distance;
      TotalSplit(names, name, nodes, pools');
      SameDistances(names - {name}, nodes, pools, pools');
      SameDistance(nodes[name], pools, pools');
    }
  }

  lemma SameDistance(n: Node, pools: map<string, Pool>, pools': map<string, Pool>)
    requires pools'.Keys == pools.Keys && forall p :: p in pools ==> pools'[p].spec == pools[p].spec
    ensures Distance(n, pools') == Distance(n, pools)
  {
    hide Desired, Owner;
  }

  // ---------- Every step comes closer ----------

  lemma StartComesCloser(s: System, a: Action)
    requires Inv(s) && Enabled(s, a) && a.Start?
    ensures Closer(Step(s, a), s)
  {
    var p, s' := a.poolName, Step(s, a);
    PendingSame(s, s');
    StartFacts(s, a);
    hide *;
    OldStepsSame(s, s');
    SubsetSize(StaleWorks(s'), StaleWorks(s));
    FewerTurns(s, s', p);
    StartCloser(s, s');
  }

  lemma StartFacts(s: System, a: Action)
    requires Inv(s) && Enabled(s, a) && a.Start?
    ensures var p, s' := a.poolName, Step(s, a);
            && p in s.queue && s'.queue == s.queue - {p} && s'.active.Keys <= s.active.Keys + {p}
            && (forall q :: q in s'.active && !Current(s', q) ==>
                  q in s.active && s.active[q] == s'.active[q] && !Current(s, q))
            && StaleWorks(s') <= StaleWorks(s)
  {
    hide PlannedStatus, Touch, StatusFor, StatusCurrent, WorkOk, Awake;
  }

  lemma FewerTurns(s: System, s': System, p: string)
    requires p in s.queue && s'.queue == s.queue - {p} && s'.active.Keys <= s.active.Keys + {p}
    ensures Turns(s') < Turns(s)
  {
    SubsetSize(s'.active.Keys, s.active.Keys + {p});
    assert |s.active.Keys + {p}| <= |s.active.Keys| + 1;
    StaleSmaller(s.queue, p);
  }

  lemma StartCloser(s: System, s': System)
    requires |OldSteps(s')| <= |OldSteps(s)| && Pending(View(s')) == Pending(View(s))
    requires |StaleWorks(s')| <= |StaleWorks(s)| && Turns(s') < Turns(s)
    ensures Closer(s', s)
  {
    hide OldSteps, Pending, StaleWorks, Turns;
  }

  lemma WriteOldSteps(s: System, p: string)
    requires Inv(s) && Enabled(s, WriteNode(p))
    ensures |OldSteps(Step(s, WriteNode(p)))| <= |OldSteps(s)|
    ensures !Current(s, p) ==> |OldSteps(Step(s, WriteNode(p)))| < |OldSteps(s)|
  {
    var s' := Step(s, WriteNode(p));
    if Accepted(s, p) {
      AcceptedStep(s, p);
    } else {
      RejectedStep(s, p);
    }
    hide Step, Inv, Current, SameClaims, Changes, Touch, Accepted, StaleWorks, NodeOk, ReservedFree;
    forall q | q in s'.active && Current(s, q) ensures Current(s', q) {
      assert SameClaims(s.nodes, s'.nodes) by {
        hide *;
        SameNodesClaims(s.nodes, s'.nodes);
      }
      CurrentPool(s, q);
      CurrentKept(s, s', q);
    }
    OldStepsShrink(s, s', p);
  }

  lemma SameNodesClaims(nodes: map<string, Node>, nodes': map<string, Node>)
    ensures nodes' == nodes ==> SameClaims(nodes, nodes')
  {
  }

  lemma RejectedStale(s: System, p: string)
    requires p in s.active && p in StaleWorks(s)
    ensures |StaleWorks(Requeued(s, p))| < |StaleWorks(s)|
  {
    var s' := Requeued(s, p);
    assert StaleWorks(s') == StaleWorks(s) - {p};
    StaleSmaller(StaleWorks(s), p);
  }

  lemma WriteComesCloser(s: System, p: string)
    requires Inv(s) && Enabled(s, WriteNode(p))
    ensures Closer(Step(s, WriteNode(p)), s)
  {
    var s' := Step(s, WriteNode(p));
    WriteOldSteps(s, p);
    hide Step, Inv, Pending, OldSteps, StaleWorks, Turns;
    if Current(s, p) {
      if Accepted(s, p) {
        AcceptedPending(s, p, s');
      } else {
        RejectedStep(s, p);
        RejectedStale(s, p);
        PendingSame(s, s');
      }
    }
  }

  lemma FinishOldSteps(s: System, p: string)
    requires Inv(s) && Enabled(s, Finish(p))
    ensures |OldSteps(Step(s, Finish(p)))| <= |OldSteps(s)|
    ensures !Current(s, p) ==> |OldSteps(Step(s, Finish(p)))| < |OldSteps(s)|
  {
    var s' := Step(s, Finish(p));
    FinishActive(s, p);
    hide *;
    SameNodesClaims(s.nodes, s'.nodes);
    forall q | q in s'.active && Current(s, q) ensures Current(s', q) {
      CurrentPool(s, q);
      CurrentKept(s, s', q);
    }
    OldStepsShrink(s, s', p);
  }

  lemma FinishActive(s: System, p: string)
    requires Enabled(s, Finish(p))
    ensures var s' := Step(s, Finish(p));
            && p in s.active && s'.nodes == s.nodes && s'.active == s.active - {p}
            && forall q :: q in s.pools && q != p ==> q in s'.pools && s'.pools[q] == s.pools[q]
  {
  }

  lemma FinishComesCloser(s: System, p: string)
    requires Inv(s) && Enabled(s, Finish(p))
    ensures Closer(Step(s, Finish(p)), s)
  {
    var s' := Step(s, Finish(p));
    FinishOldSteps(s, p);
    InvStore(s);
    hide Inv, Pending, OldSteps, StaleWorks, StatusFor, StatusCurrent;
    if Current(s, p) {
      if s.active[p].status.None? {
        PendingSame(s, s');
        SubsetSize(StaleWorks(s'), StaleWorks(s)) by {
          IdleFinishStale(s, s', p);
        }
        assert s'.active.Keys == s.active.Keys - {p};
        StaleSmaller(s.active.Keys, p);
      } else {
        StatusPending(s, s', p);
      }
    }
  }

  lemma IdleFinishStale(s: System, s': System, p: string)
    requires s'.nodes == s.nodes && s'.active == s.active - {p}
    ensures StaleWorks(s') <= StaleWorks(s)
  {
  }

  lemma StepComesCloser(s: System, a: Action)
    requires Inv(s) && Enabled(s, a) && WorkerStep(a)
    ensures Closer(Step(s, a), s)
  {
    hide Inv, Enabled, Step, Closer;
    match a
    case Start(_, _) => StartComesCloser(s, a);
    case WriteNode(p) => WriteComesCloser(s, p);
    case Finish(p) => FinishComesCloser(s, p);
  }

  // ---------- Endless runs ----------

  ghost predicate IsEndless(states: nat -> System, actions: nat -> Action) {
    forall i: nat :: Enabled(states(i), actions(i)) && states(i + 1) == Step(states(i), actions(i))
  }

  lemma {:induction false} EndlessKeepsInv(states: nat -> System, actions: nat -> Action, i: nat)
    requires IsEndless(states, actions) && Inv(states(0))
    ensures Inv(states(i))
  {
    if i > 0 {
      EndlessKeepsInv(states, actions, i - 1);
      StepKeepsInv(states(i - 1), actions(i - 1));
    }
  }

  /** Among the steps from any one on there is one that no worker takes. */
  lemma {:induction false} SomeoneElseSteps(states: nat -> System, actions: nat -> Action, n: nat) returns (i: nat)
    requires IsEndless(states, actions) && Inv(states(0))
    ensures i >= n && !WorkerStep(actions(i))
    decreases |OldSteps(states(n))|, Pending(View(states(n))), |StaleWorks(states(n))|, Turns(states(n))
  {
    i := n;
    if WorkerStep(actions(n)) {
      EndlessKeepsInv(states, actions, n);
      assert Enabled(states(n), actions(n)) && states(n + 1) == Step(states(n), actions(n));
      StepComesCloser(states(n), actions(n));
      hide OldSteps, Pending, StaleWorks, Turns, View, Inv, IsEndless, WorkerStep;
      i := SomeoneElseSteps(states, actions, n + 1);
    }
  }

  /**
    Termination of the interleaved system: a run that never ends needs users, failures or restarts again and again;
    the workers alone, at work on any number of pools at once, always come to rest.
   */
  lemma WorkersComeToRest(states: nat -> System, actions: nat -> Action, n: nat)
    requires IsEndless(states, actions) && Initial(states(0))
    ensures exists i: nat :: i >= n && !WorkerStep(actions(i))
  {
    InitialInv(states(0));
    var i := SomeoneElseSteps(states, actions, n);
  }

  lemma InitialInv(s: System)
    requires Initial(s)
    ensures Inv(s)
  {
  }

  // ---------- Where workers come to rest ----------

  ghost predicate Quiet(s: System) {
    s.queue == {} && s.active == map[]
  }

  /** Writes for the changed nodes of a set, each once. */
  ghost predicate PartPlan(nodes: map<string, Node>, poolName: string, spec: Attrs, names: set<string>,
                           writes: seq<Write>)
  {
    && (forall i, j :: 0 <= i < j < |writes| ==> writes[i].name != writes[j].name)
    && (forall i :: 0 <= i < |writes| ==>
          && writes[i].name in nodes && writes[i].name in names && writes[i].before == nodes[writes[i].name]
          && writes[i].after == Touch(writes[i].before, poolName, spec) && writes[i].after != writes[i].before)
    && (forall name :: name in names && name in nodes && Changes(nodes, poolName, spec, name) ==>
          exists i :: 0 <= i < |writes| && writes[i].name == name)
  }

  lemma {:induction false} PlanFor(nodes: map<string, Node>, poolName: string, spec: Attrs, names: set<string>)
    returns (writes: seq<Write>)
    ensures PartPlan(nodes, poolName, spec, names, writes)
  {
    hide Touch;
    writes := [];
    if names != {} {
      var name :| name in names;
      var rest := PlanFor(nodes, poolName, spec, names - {name});
      writes := rest;
      if name in nodes && Changes(nodes, poolName, spec, name) {
        writes := rest + [Write(name, nodes[name], Touch(nodes[name], poolName, spec))];
        assert writes[|rest|].name == name;
      }
      forall other | other in names && other in nodes && Changes(nodes, poolName, spec, other)
        ensures exists i :: 0 <= i < |writes| && writes[i].name == other
      {
        if other != name {
          var i :| 0 <= i < |rest| && rest[i].name == other;
          assert writes[i].name == other;
        }
      }
    }
  }

  lemma PlanExists(nodes: map<string, Node>, poolName: string, spec: Attrs) returns (writes: seq<Write>)
    ensures IsPlan(nodes, poolName, spec, writes)
  {
    writes := PlanFor(nodes, poolName, spec, nodes.Keys);
    hide Touch;
  }

  /** Workers can always go on until the queue is empty and nobody is at work. */
  lemma WorkersRestIffQuiet(s: System)
    ensures Quiet(s) <==> forall a :: WorkerStep(a) ==> !Enabled(s, a)
  {
    hide IsPlan;
    if !Quiet(s) {
      if p :| p in s.active {
        assert Enabled(s, WriteNode(p)) || Enabled(s, Finish(p));
      } else {
        var p :| p in s.queue;
        var writes := [];
        if p in s.pools {
          writes := PlanExists(s.nodes, p, s.pools[p].spec);
        }
        assert Enabled(s, Start(p, writes));
      }
    }
  }

  ghost predicate AllCurrent(s: System) {
    forall p :: p in s.active ==> Current(s, p)
  }

  /** The same homes, for nodes and statuses. */
  ghost predicate SameHomes(s: System, s': System) {
    HomeNodes(View(s')) == HomeNodes(View(s)) && HomePools(View(s')) == HomePools(View(s))
  }

  /** What a run of current workers keeps: the store stays ready, and homes do not move. */
  ghost predicate Homing(s: System) {
    Inv(s) && Ready(View(s)) && AllInLine(View(s)) && AllCurrent(s)
  }

  lemma StepKeepsCurrent(s: System, a: Action)
    requires Inv(s) && Enabled(s, a) && WorkerStep(a) && AllCurrent(s)
    ensures AllCurrent(Step(s, a))
  {
    var s' := Step(s, a);
    match a
    case Start(_, _) =>
      StartFacts(s, a);
      hide Step, Enabled, Current, Inv, StaleWorks;
    case WriteNode(p) =>
      WriteOldSteps(s, p);
      NoOldSteps(s);
      NoOldSteps(s');
    case Finish(p) =>
      FinishOldSteps(s, p);
      NoOldSteps(s);
      NoOldSteps(s');
      hide Step, Enabled, Inv, OldSteps;
  }

  lemma NoOldSteps(s: System)
    ensures AllCurrent(s) <==> |OldSteps(s)| == 0
  {
    hide Current;
    if p :| p in s.active && !Current(s, p) {
      assert (p, 0) in OldSteps(s);
    }
  }

  /** An accepted write of a current worker leaves every home where it was. */
  lemma TouchOneKeepsHomes(c: State, name: string, poolName: string, c': State)
    requires Ready(c) && AllInLine(c) && name in c.nodes && poolName in c.pools && c'.pools == c.pools
    requires c'.nodes == c.nodes[name := Touch(c.nodes[name], poolName, c.pools[poolName].spec)]
    ensures Ready(c') && AllInLine(c')
    ensures HomeNodes(c') == HomeNodes(c) && HomePools(c') == HomePools(c)
  {
    ReadyFits(c, name);
    TouchKeepsHome(c.nodes[name], poolName, c.pools) by {
      hide *;
      LineOf(c, name);
    }
    TouchOneKeepsReady(c, name, poolName, c');
    hide *;
    OneSameHome(c, name, Touch(c.nodes[name], poolName, c.pools[poolName].spec), c');
  }

  lemma OneSameHome(c: State, name: string, n: Node, c': State)
    requires name in c.nodes && c'.pools == c.pools && c'.nodes == c.nodes[name := n]
    requires AllInLine(c) && InLine(n, c.pools) && Home(n, c.pools) == Home(c.nodes[name], c.pools)
    ensures AllInLine(c') && HomeNodes(c') == HomeNodes(c)
  {
    hide InLine, Home;
    assert HomeNodes(c') == HomeNodes(c);
  }

  lemma OneSameBase(c: State, name: string, n: Node, c': State)
    requires name in c.nodes && c'.pools == c.pools && c'.nodes == c.nodes[name := n]
    requires Ready(c) && Intact(n) && Strip(n) == Strip(c.nodes[name]) && SameClaims(c.nodes, c'.nodes)
    ensures SameBases(c, c')
  {
    SameClaimsHomes(c.nodes, c'.nodes, c.pools);
    AllIntact(c);
    hide Ready, Intact, Strip, HomePool, SameClaims;
  }

  lemma LineOf(c: State, name: string)
    requires AllInLine(c) && name in c.nodes
    ensures InLine(c.nodes[name], c.pools)
  {
    hide InLine;
  }

  lemma TouchOneKeepsReady(c: State, name: string, poolName: string, c': State)
    requires Ready(c) && name in c.nodes && poolName in c.pools && c'.pools == c.pools
    requires c'.nodes == c.nodes[name := Touch(c.nodes[name], poolName, c.pools[poolName].spec)]
    ensures Ready(c') && HomePools(c') == HomePools(c)
  {
    TouchedStaysGood(c, name, poolName, c');
    ReadyFits(c, name);
    TouchKeepsBase(c.nodes[name], poolName, c.pools);
    NamedIsPool(c, poolName);
    TouchedClaims(c.nodes, name, poolName, c.pools[poolName].spec);
    hide *;
    OneSameBase(c, name, Touch(c.nodes[name], poolName, c.pools[poolName].spec), c');
    SameBasesFacts(c, c');
  }

  lemma AllIntact(c: State)
    requires Ready(c)
    ensures forall name :: name in c.nodes ==> Intact(c.nodes[name])
  {
    hide Intact, Good, Separate;
  }

  lemma NamedIsPool(c: State, poolName: string)
    requires Ready(c) && poolName in c.pools
    ensures poolName != "" && ReservedFree(c.pools[poolName].spec)
  {
    hide Intact, Separate, NodeOk;
  }

  lemma TouchedStaysGood(c: State, name: string, poolName: string, c': State)
    requires Ready(c) && name in c.nodes && poolName in c.pools && c'.pools == c.pools
    requires c'.nodes == c.nodes[name := Touch(c.nodes[name], poolName, c.pools[poolName].spec)]
    ensures Good(c')
  {
    TouchFacts(c.nodes[name], poolName, c.pools[poolName].spec);
    TouchedOwner(c.nodes[name], poolName, c.pools[poolName].spec);
    hide Touch, Separate, Intact, NodeOk;
  }

  lemma SameClaimsHomes(nodes: map<string, Node>, nodes': map<string, Node>, pools: map<string, Pool>)
    requires SameClaims(nodes, nodes')
    ensures forall p :: p in pools ==> HomePool(nodes', p, pools[p]) == HomePool(nodes, p, pools[p])
  {
    forall p | p in pools ensures HomePool(nodes', p, pools[p]) == HomePool(nodes, p, pools[p]) {
      SameClaimsFacts(nodes, nodes', p);
      SameClaimsPlanned(nodes, nodes', p, pools[p]);
    }
  }

  lemma StatusKeepsHomes(c: State, poolName: string, c': State)
    requires Ready(c) && AllInLine(c) && poolName in c.pools && c'.nodes == c.nodes
    requires !StatusCurrent(c.nodes, poolName, c.pools[poolName].status)
    requires c'.pools == c.pools[poolName := c.pools[poolName].(status := StatusFor(c.nodes, poolName))]
    ensures Ready(c') && AllInLine(c')
    ensures HomeNodes(c') == HomeNodes(c) && HomePools(c') == HomePools(c)
  {
    StatusKeepsPools(c, poolName, c');
    StatusKeepsReady(c, poolName, c');
    hide *;
    SpecsKeepHomes(c, c');
  }

  lemma SpecsKeepHomes(c: State, c': State)
    requires AllInLine(c) && c'.nodes == c.nodes
    requires c'.pools.Keys == c.pools.Keys && forall p :: p in c.pools ==> c'.pools[p].spec == c.pools[p].spec
    ensures AllInLine(c') && HomeNodes(c') == HomeNodes(c)
  {
    hide Home, InLine;
    forall name | name in c.nodes
      ensures Home(c.nodes[name], c'.pools) == Home(c.nodes[name], c.pools)
      ensures InLine(c.nodes[name], c'.pools) <==> InLine(c.nodes[name], c.pools)
    {
      HomeBySpecs(c.nodes[name], c.pools, c'.pools);
    }
    assert HomeNodes(c') == HomeNodes(c);
  }

  lemma StatusKeepsPools(c: State, poolName: string, c': State)
    requires poolName in c.pools && c'.nodes == c.nodes
    requires !StatusCurrent(c.nodes, poolName, c.pools[poolName].status)
    requires c'.pools == c.pools[poolName := c.pools[poolName].(status := StatusFor(c.nodes, poolName))]
    ensures HomePools(c') == HomePools(c)
  {
    OwnStatusIsCurrent(c.nodes, poolName);
    hide StatusCurrent, StatusFor;
    assert HomePools(c') == HomePools(c);
  }

  lemma StatusKeepsReady(c: State, poolName: string, c': State)
    requires Ready(c) && poolName in c.pools && c'.nodes == c.nodes
    requires c'.pools == c.pools[poolName := c.pools[poolName].(status := StatusFor(c.nodes, poolName))]
    ensures Ready(c')
  {
    hide StatusFor, NodeOk, Intact, ReservedFree;
    SeparateKept(c.nodes, c'.nodes, c.pools, c'.pools) by {
      hide Good, Separate, Intact;
    }
    hide Separate;
  }

  lemma ReadyByStore(c: State, c': State)
    requires c'.nodes == c.nodes && c'.pools == c.pools
    ensures Ready(c') <==> Ready(c)
    ensures AllInLine(c') <==> AllInLine(c)
    ensures HomeNodes(c') == HomeNodes(c) && HomePools(c') == HomePools(c)
  {
    hide StoreOk, OwnersExist, Separate, Intact, InLine, Home, HomePool;
    assert HomeNodes(c') == HomeNodes(c) && HomePools(c') == HomePools(c);
  }

  /** Starting, a rejected write and an idle finish leave the store alone. */
  lemma StepStore(s: System, a: Action)
    requires Enabled(s, a) && WorkerStep(a)
    ensures a.Start? || (a.WriteNode? && !Accepted(s, a.poolName)) ||
            (a.Finish? && s.active[a.poolName].status.None?) ==>
              Step(s, a).nodes == s.nodes && Step(s, a).pools == s.pools
  {
    hide IsPlan, PlannedStatus, WokenByUpdate;
  }

  lemma FinishStore(s: System, p: string)
    requires Enabled(s, Finish(p)) && Current(s, p) && s.active[p].status.Some?
    ensures Step(s, Finish(p)).nodes == s.nodes && !StatusCurrent(s.nodes, p, s.pools[p].status)
    ensures Step(s, Finish(p)).pools == s.pools[p := s.pools[p].(status := StatusFor(s.nodes, p))]
  {
    hide StatusCurrent, StatusFor;
  }

  lemma StepKeepsHomes(s: System, a: Action)
    requires Homing(s) && Enabled(s, a) && WorkerStep(a)
    ensures Homing(Step(s, a)) && SameHomes(s, Step(s, a))
  {
    var s' := Step(s, a);
    StepKeepsInv(s, a);
    StepKeepsCurrent(s, a);
    StepStore(s, a);
    hide Step, Ready, AllInLine, HomeNodes, HomePools, Enabled, Inv, Accepted, Current, Touch;
    if a.WriteNode? && Accepted(s, a.poolName) {
      var name := AcceptedName(s, a.poolName, s');
      TouchOneKeepsHomes(View(s), name, a.poolName, View(s'));
    } else if a.Finish? && FinishWrites(s, a.poolName) {
      FinishedKeepsHomes(s, a.poolName);
    } else {
      ReadyByStore(View(s), View(s'));
    }
  }

  predicate FinishWrites(s: System, p: string) {
    p in s.active && s.active[p].status.Some?
  }

  lemma FinishedKeepsHomes(s: System, p: string)
    requires Homing(s) && Enabled(s, Finish(p)) && FinishWrites(s, p)
    ensures var s' := Step(s, Finish(p)); Ready(View(s')) && AllInLine(View(s')) && SameHomes(s, s')
  {
    CurrentPool(s, p);
    FinishStore(s, p);
    hide Step, Ready, AllInLine, HomeNodes, HomePools, Inv, Current, StatusCurrent, StatusFor;
    StatusKeepsHomes(View(s), p, View(Step(s, Finish(p))));
  }

  lemma AcceptedName(s: System, p: string, s': System) returns (name: string)
    requires Inv(s) && AllCurrent(s) && Accepted(s, p)
    requires Enabled(s, WriteNode(p)) && s' == Step(s, WriteNode(p))
    ensures name in s.nodes && p in s.pools
    ensures s'.pools == s.pools && s'.nodes == s.nodes[name := Touch(s.nodes[name], p, s.pools[p].spec)]
  {
    name := s.active[p].writes[0].name;
    AcceptedStep(s, p);
    CurrentPool(s, p);
    hide Step, Inv, Current, Touch, SameClaims;
  }

  /** A run in which only workers step. */
  ghost predicate IsWorkerRun(states: seq<System>, actions: seq<Action>) {
    && |states| == |actions| + 1
    && forall i :: 0 <= i < |actions| ==>
         WorkerStep(actions[i]) && Enabled(states[i], actions[i]) && states[i + 1] == Step(states[i], actions[i])
  }

  lemma {:induction false} WorkerRunKeepsHomes(states: seq<System>, actions: seq<Action>, i: nat)
    requires IsWorkerRun(states, actions) && Homing(states[0]) && i < |states|
    ensures Homing(states[i]) && SameHomes(states[0], states[i])
  {
    hide Homing, Step, Enabled;
    if i > 0 {
      WorkerRunKeepsHomes(states, actions, i - 1);
      StepKeepsHomes(states[i - 1], actions[i - 1]);
    } else {
      assert SameHomes(states[0], states[0]);
    }
  }

  /**
    Confluence of the interleaved system: wherever the workers come to rest, every node and status is at home, the same
    store that undisturbed reconciles of the pools end in.
   */
  lemma RestIsHome(states: seq<System>, actions: seq<Action>, i: nat)
    requires IsWorkerRun(states, actions) && Homing(states[0]) && i < |states| && Quiet(states[i])
    ensures states[i].nodes == HomeNodes(View(states[0])) && states[i].pools == HomePools(View(states[0]))
  {
    WorkerRunKeepsHomes(states, actions, i);
    var s := states[i];
    QuietSettled(s);
    hide Ready, Settled, HomeNodes, HomePools, Inv, IsWorkerRun, AllInLine, AllCurrent;
    AllSettledIsHome(View(s));
  }

  lemma QuietSettled(s: System)
    requires Inv(s) && Quiet(s)
    ensures forall p :: p in s.pools ==> Settled(s.nodes, s.pools, p)
  {
    hide StoreOk, Settled;
    forall p | p in s.pools ensures Settled(s.nodes, s.pools, p) {
      assert Awake(s, p);
    }
  }
}
