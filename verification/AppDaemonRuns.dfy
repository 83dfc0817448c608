/**
  One reconcile of a YurtAppDaemon's workloads as a relation between the states it goes through, and what reconciles
  guarantee: with arbitrary failures, over whole runs, and when nothing fails.
 */
module AppDaemonRuns {
  import opened AppDaemon
  import opened Stores

  // ---------- Classifying ----------

  function Of(s: Store, name: string): set<nat> {
    set u | u in s && s[u].pool == name
  }

  /** One workload per named pool, as listed: the last of several; workloads without a pool are left aside. */
  ghost predicate IsPicked(s: Store, picked: map<string, nat>) {
    && (forall name :: name in picked ==> name != "" && picked[name] in Of(s, name))
    && (forall u :: u in s && s[u].pool != "" ==> s[u].pool in picked)
  }

  function Creates(pools: Pools, picked: map<string, nat>): set<string> {
    pools.Keys - picked.Keys
  }

  function Deletes(pools: Pools, picked: map<string, nat>): set<string> {
    picked.Keys - pools.Keys
  }

  function Stale(template: Template, pools: Pools, s: Store, picked: map<string, nat>): set<string> {
    set name | && name in pools && name in picked && picked[name] in s
               && !Matches(s[picked[name]], name, pools[name], template.revision)
  }

  /** Classification finds nothing to create, delete or update. */
  predicate Settled(template: Template, pools: Pools, s: Store, picked: map<string, nat>) {
    Creates(pools, picked) == {} && Deletes(pools, picked) == {} && Stale(template, pools, s, picked) == {}
  }

  function PickedOf(picked: map<string, nat>, names: set<string>): set<nat> {
    set name | name in names && name in picked :: picked[name]
  }

  // ---------- The phases ----------

  ghost predicate CreatedFor(s: Store, s': Store, template: Template, pools: Pools, names: set<string>, all: bool)
    requires Safe(template)
  {
    && Sub(s, s')
    && (forall u :: u in s'.Keys - s.Keys ==>
          && s'[u].pool in names && s'[u].pool in pools
          && s'[u] == Applied(template, s'[u].pool, pools[s'[u].pool]))
    && (forall u, v :: u in s'.Keys - s.Keys && v in s'.Keys - s.Keys && s'[u].pool == s'[v].pool ==> u == v)
    && (all ==> forall name :: name in names ==> exists u :: u in s'.Keys - s.Keys && s'[u].pool == name)
  }

  ghost predicate UpdatedFor(s: Store, s': Store, template: Template, pools: Pools, picked: map<string, nat>,
                             names: set<string>, all: bool)
    requires Safe(template) && names <= picked.Keys && names <= pools.Keys
  {
    && s'.Keys == s.Keys
    && (forall u :: u in s && (forall name :: name in names ==> picked[name] != u) ==> s'[u] == s[u])
    && (forall name :: name in names && picked[name] in s ==>
          || s'[picked[name]] == s[picked[name]]
          || s'[picked[name]] == Applied(template, name, pools[name]))
    && (all ==> forall name :: name in names && picked[name] in s ==>
          s'[picked[name]] == Applied(template, name, pools[name]))
  }

  /** The states of one reconcile: listed, with new workloads, without those of vanished pools, updated. */
  datatype Pass = Pass(s0: Store, picked: map<string, nat>, s1: Store, s2: Store, s3: Store,
                       provisioned: bool, creationErrors: nat, deletionErrors: nat, clean: bool, calls: nat)

  ghost predicate IsPass(template: Template, pools: Pools, p: Pass)
    requires Safe(template)
  {
    && IsPicked(p.s0, p.picked)
    && CreatedFor(p.s0, p.s1, template, pools, Creates(pools, p.picked), p.clean)
    && Removed(p.s1, p.s2, PickedOf(p.picked, Deletes(pools, p.picked)), p.clean)
    && (p.clean ==> p.provisioned)
    && (p.provisioned <==> p.creationErrors == 0 && p.deletionErrors == 0)
    && (p.deletionErrors == 0 ==> p.s2.Keys !! PickedOf(p.picked, Deletes(pools, p.picked)))
    && (!p.provisioned ==> p.s3 == p.s2)
    && (p.provisioned ==>
          UpdatedFor(p.s2, p.s3, template, pools, p.picked, Stale(template, pools, p.s0, p.picked), p.clean))
    && (Settled(template, pools, p.s0, p.picked) ==> p.calls == 0)
  }

  // ---------- One reconcile with arbitrary failures ----------

  lemma PickedIsInjective(s: Store, picked: map<string, nat>)
    requires IsPicked(s, picked)
    ensures forall a, b :: a in picked && b in picked && a != b ==> picked[a] != picked[b]
  {
  }

  /** Only the picked workload of a vanished pool is ever deleted: a second one in a selected pool stays for good. */
  lemma OnlyPickedOfVanishedGoes(template: Template, pools: Pools, p: Pass, u: nat)
    requires Safe(template) && IsPass(template, pools, p) && u in p.s0
    requires u !in p.s3
    ensures p.s0[u].pool in p.picked && p.picked[p.s0[u].pool] == u && p.s0[u].pool !in pools
  {
    assert u in PickedOf(p.picked, Deletes(pools, p.picked)) by {
      hide PickedOf, Deletes, Creates, Stale, Settled, IsPicked, Applied;
    }
    hide CreatedFor, Removed, UpdatedFor, Matches;
  }

  /** Every workload that stays keeps its pool; only a picked one can change at all. */
  lemma StayingKeepsPool(template: Template, pools: Pools, p: Pass, u: nat)
    requires Safe(template) && IsPass(template, pools, p) && u in p.s0 && u in p.s3
    ensures p.s3[u].pool == p.s0[u].pool && u in p.s2 && p.s2[u] == p.s0[u]
    ensures p.s3[u] != p.s0[u] ==> p.s0[u].pool in p.picked && p.picked[p.s0[u].pool] == u
  {
    StayingUntilUpdate(template, pools, p, u);
    if p.provisioned {
      var names := Stale(template, pools, p.s0, p.picked);
      if name :| name in names && p.picked[name] == u {
        assert u in Of(p.s0, name);
      }
    }
    hide CreatedFor, Removed, Matches;
  }

  lemma StayingUntilUpdate(template: Template, pools: Pools, p: Pass, u: nat)
    requires Safe(template) && IsPass(template, pools, p) && u in p.s0 && u in p.s3
    ensures u in p.s2 && p.s2[u] == p.s0[u]
  {
    hide Matches, Applied, Stale, Settled, IsPicked, PickedOf, Deletes, Creates;
  }

  /** New workloads are written from the template for selected pools that had none, at most one each. */
  lemma CreatesOnlyMissing(template: Template, pools: Pools, p: Pass, u: nat)
    requires Safe(template) && IsPass(template, pools, p) && u in p.s3 && u !in p.s0
    ensures u in p.s1 && p.s3[u] == p.s1[u] && p.s3[u].pool in pools
    ensures p.s3[u] == Applied(template, p.s3[u].pool, pools[p.s3[u].pool])
    ensures p.s3[u].pool != "" ==> Of(p.s0, p.s3[u].pool) == {}
    ensures p.s3[u].pool !in p.picked
  {
    forall name | name in p.picked ensures p.picked[name] != u {
      assert p.picked[name] in Of(p.s0, name);
    }
    assert u in p.s1 && p.s3[u] == p.s1[u] by {
      hide Matches, Applied, Settled, PickedOf, Deletes, Creates, IsPicked;
    }
    hide Matches, Applied, Settled, PickedOf, Deletes, Removed, UpdatedFor, Stale;
  }

  ghost predicate AtMostOne(s: Store) {
    forall u, v :: u in s && v in s && s[u].pool != "" && s[u].pool == s[v].pool ==> u == v
  }

  lemma AtMostOneIsKept(template: Template, pools: Pools, p: Pass)
    requires Safe(template) && IsPass(template, pools, p) && AtMostOne(p.s0)
    ensures AtMostOne(p.s3)
  {
    forall u, v | u in p.s3 && v in p.s3 && p.s3[u].pool != "" && p.s3[u].pool == p.s3[v].pool ensures u == v {
      TwoOfOnePool(template, pools, p, u, v);
    }
  }

  lemma TwoOfOnePool(template: Template, pools: Pools, p: Pass, u: nat, v: nat)
    requires Safe(template) && IsPass(template, pools, p) && AtMostOne(p.s0) && u in p.s3 && v in p.s3
    requires p.s3[u].pool != "" && p.s3[u].pool == p.s3[v].pool
    ensures u == v
  {
    var name := p.s3[u].pool;
    if u in p.s0 {
      StayingKeepsPool(template, pools, p, u);
    } else {
      CreatesOnlyMissing(template, pools, p, u);
    }
    if v in p.s0 {
      StayingKeepsPool(template, pools, p, v);
    } else {
      CreatesOnlyMissing(template, pools, p, v);
    }
    assert u in p.s0 ==> u in Of(p.s0, name);
    assert v in p.s0 ==> v in Of(p.s0, name);
    if u !in p.s0 && v !in p.s0 {
      assert CreatedFor(p.s0, p.s1, template, pools, Creates(pools, p.picked), p.clean);
    }
    hide IsPass, Applied;
  }

  /**
    If a creation errs, other than by a timeout, or a deletion errs, every workload that is still there at the end is
    as it was listed.
   */
  lemma ErrorsBlockUpdates(template: Template, pools: Pools, p: Pass, u: nat)
    requires Safe(template) && IsPass(template, pools, p) && (p.creationErrors > 0 || p.deletionErrors > 0)
    requires u in p.s0 && u in p.s3
    ensures p.s3[u] == p.s0[u]
  {
    StayingUntilUpdate(template, pools, p, u);
    hide CreatedFor, Removed, UpdatedFor, Stale, Creates, Deletes, PickedOf, IsPicked, Settled;
  }

  /** If no deletion errs, no picked workload of a vanished pool is left, whatever else fails. */
  lemma VanishedIsGone(template: Template, pools: Pools, p: Pass, name: string)
    requires Safe(template) && IsPass(template, pools, p) && p.deletionErrors == 0
    requires name in p.picked && name !in pools
    ensures p.picked[name] !in p.s3
  {
    assert p.picked[name] in PickedOf(p.picked, Deletes(pools, p.picked));
    hide CreatedFor, Removed, Stale, Creates, Deletes, PickedOf, IsPicked, Settled, Applied;
  }

  // ---------- Nothing to do ----------

  lemma SettledIsQuiet(template: Template, pools: Pools, p: Pass)
    requires Safe(template) && IsPass(template, pools, p) && Settled(template, pools, p.s0, p.picked)
    ensures p.s3 == p.s0 && p.calls == 0
  {
    SettledFacts(template, pools, p);
    NothingCreated(p.s0, p.s1, template, pools, p.clean);
    NothingRemoved(p.s1, p.s2, p.clean);
    if p.provisioned {
      NothingUpdated(p.s2, p.s3, template, pools, p.picked, p.clean);
    }
    hide *;
  }

  lemma SettledFacts(template: Template, pools: Pools, p: Pass)
    requires Safe(template) && IsPass(template, pools, p) && Settled(template, pools, p.s0, p.picked)
    ensures p.calls == 0 && (!p.provisioned ==> p.s3 == p.s2)
    ensures CreatedFor(p.s0, p.s1, template, pools, {}, p.clean) && Removed(p.s1, p.s2, {}, p.clean)
    ensures p.provisioned ==> UpdatedFor(p.s2, p.s3, template, pools, p.picked, {}, p.clean)
  {
    assert PickedOf(p.picked, Deletes(pools, p.picked)) == {};
    hide CreatedFor, UpdatedFor, Removed, Stale, Creates, Deletes, PickedOf, IsPicked;
  }

  lemma NothingCreated(s: Store, s': Store, template: Template, pools: Pools, all: bool)
    requires Safe(template) && CreatedFor(s, s', template, pools, {}, all)
    ensures s' == s
  {
    hide Applied;
    assert s'.Keys - s.Keys == {};
  }

  lemma NothingUpdated(s: Store, s': Store, template: Template, pools: Pools, picked: map<string, nat>, all: bool)
    requires Safe(template) && UpdatedFor(s, s', template, pools, picked, {}, all)
    ensures s' == s
  {
    hide Applied;
  }

  // ---------- Convergence ----------

  /** The workloads that were not picked are all of selected pools and match. */
  ghost predicate OthersMatch(template: Template, pools: Pools, p: Pass) {
    forall u :: u in p.s0 && p.s0[u].pool != "" && p.s0[u].pool in p.picked && p.picked[p.s0[u].pool] != u ==>
      p.s0[u].pool in pools && Matches(p.s0[u], p.s0[u].pool, pools[p.s0[u].pool], template.revision)
  }

  ghost predicate SettledHowever(template: Template, pools: Pools, s: Store) {
    forall picked :: IsPicked(s, picked) ==> Settled(template, pools, s, picked)
  }

  /**
    After a reconcile without failures, classification finds nothing to do, however the workloads are listed, exactly
    if the workloads that were not picked happened to match already; with at most one workload per pool it always does.
   */
  lemma CleanPassSettlesIff(template: Template, pools: Pools, p: Pass)
    requires Safe(template) && IsPass(template, pools, p) && p.clean && "" !in pools
    ensures SettledHowever(template, pools, p.s3) <==> OthersMatch(template, pools, p)
    ensures AtMostOne(p.s0) ==> SettledHowever(template, pools, p.s3)
  {
    if OthersMatch(template, pools, p) {
      forall picked | IsPicked(p.s3, picked) ensures Settled(template, pools, p.s3, picked) {
        SettlesFor(template, pools, p, picked);
      }
    }
    if SettledHowever(template, pools, p.s3) {
      forall u | u in p.s0 && p.s0[u].pool != "" && p.s0[u].pool in p.picked && p.picked[p.s0[u].pool] != u
        ensures p.s0[u].pool in pools && Matches(p.s0[u], p.s0[u].pool, pools[p.s0[u].pool], template.revision)
      {
        OtherMustMatch(template, pools, p, u);
      }
    }
    if AtMostOne(p.s0) {
      forall u | u in p.s0 && p.s0[u].pool != "" && p.s0[u].pool in p.picked ensures p.picked[p.s0[u].pool] == u {
        assert p.picked[p.s0[u].pool] in Of(p.s0, p.s0[u].pool);
      }
    }
    hide IsPass, Matches, Settled, IsPicked, AtMostOne;
  }

  lemma SettlesFor(template: Template, pools: Pools, p: Pass, picked: map<string, nat>)
    requires Safe(template) && IsPass(template, pools, p) && p.clean && OthersMatch(template, pools, p) && "" !in pools
    requires IsPicked(p.s3, picked)
    ensures Settled(template, pools, p.s3, picked)
  {
    forall name | name in pools ensures name in picked {
      CleanHas(template, pools, p, name);
    }
    forall name | name in picked
      ensures name in pools && Matches(p.s3[picked[name]], name, pools[name], template.revision)
    {
      assert picked[name] in Of(p.s3, name);
      CleanMatches(template, pools, p, picked[name]);
    }
    hide IsPass, Matches, IsPicked, OthersMatch;
  }

  lemma CleanHas(template: Template, pools: Pools, p: Pass, name: string)
    requires Safe(template) && IsPass(template, pools, p) && p.clean && name in pools
    ensures Of(p.s3, name) != {}
  {
    if name in p.picked {
      var u := p.picked[name];
      assert u in Of(p.s0, name);
      if u !in p.s3 {
        OnlyPickedOfVanishedGoes(template, pools, p, u);
        assert false;
      }
      StayingKeepsPool(template, pools, p, u);
      assert u in Of(p.s3, name);
    } else {
      assert name in Creates(pools, p.picked);
      var u :| u in p.s1.Keys - p.s0.Keys && p.s1[u].pool == name;
      CreatedStays(template, pools, p, u);
      assert u in Of(p.s3, name);
    }
  }

  lemma CreatedStays(template: Template, pools: Pools, p: Pass, u: nat)
    requires Safe(template) && IsPass(template, pools, p) && u in p.s1 && u !in p.s0
    ensures u in p.s3 && p.s3[u] == p.s1[u]
  {
    forall name | name in p.picked ensures p.picked[name] != u {
      assert p.picked[name] in Of(p.s0, name);
    }
    assert u !in PickedOf(p.picked, Deletes(pools, p.picked));
    hide Matches, Applied, Settled, PickedOf, Deletes, Creates, IsPicked, CreatedFor;
  }

  lemma CleanMatches(template: Template, pools: Pools, p: Pass, u: nat)
    requires Safe(template) && IsPass(template, pools, p) && p.clean && OthersMatch(template, pools, p)
    requires u in p.s3 && p.s3[u].pool != ""
    ensures p.s3[u].pool in pools && Matches(p.s3[u], p.s3[u].pool, pools[p.s3[u].pool], template.revision)
  {
    if u !in p.s0 {
      CreatesOnlyMissing(template, pools, p, u);
      var name := p.s3[u].pool;
      AppliedMatchesIff(template, name, pools[name], pools[name], template.revision);
      hide IsPass, Matches, Applied;
    } else {
      StayingKeepsPool(template, pools, p, u);
      var name := p.s0[u].pool;
      if p.picked[name] == u {
        PickedMatches(template, pools, p, name);
      } else {
        hide IsPass, Matches, Applied;
      }
    }
  }

  lemma PickedMatches(template: Template, pools: Pools, p: Pass, name: string)
    requires Safe(template) && IsPass(template, pools, p) && p.clean && name in p.picked
    requires p.picked[name] in p.s3 && p.picked[name] in p.s2 && p.s2[p.picked[name]] == p.s0[p.picked[name]]
    ensures name in pools && Matches(p.s3[p.picked[name]], name, pools[name], template.revision)
  {
    var u, stale := p.picked[name], Stale(template, pools, p.s0, p.picked);
    assert name in Deletes(pools, p.picked) ==> u in PickedOf(p.picked, Deletes(pools, p.picked));
    assert name in pools by {
      hide UpdatedFor, CreatedFor, Matches, Stale;
    }
    AppliedMatchesIff(template, name, pools[name], pools[name], template.revision);
    PickedIsInjective(p.s0, p.picked);
    assert u in Of(p.s0, name);
    hide CreatedFor, Removed, Matches, Applied, IsPicked;
  }

  function Pools0(s: Store): set<string> {
    set u | u in s && s[u].pool != "" :: s[u].pool
  }

  /** Every store can be listed, with any one of its workloads picked. */
  lemma CanPick(s: Store, u: nat) returns (picked: map<string, nat>)
    requires u in s && s[u].pool != ""
    ensures IsPicked(s, picked) && s[u].pool in picked && picked[s[u].pool] == u
  {
    picked := map[];
    var todo := Pools0(s);
    while todo != {}
      invariant todo <= Pools0(s) && picked.Keys == Pools0(s) - todo
      invariant forall name :: name in picked ==> name != "" && picked[name] in Of(s, name)
      decreases |todo|
    {
      var name :| name in todo;
      var v :| v in s && s[v].pool == name;
      picked := picked[name := v];
      todo := todo - {name};
    }
    forall v | v in s && s[v].pool != "" ensures s[v].pool in picked {
      assert s[v].pool in Pools0(s);
    }
    picked := picked[s[u].pool := u];
  }

  lemma OtherMustMatch(template: Template, pools: Pools, p: Pass, u: nat)
    requires Safe(template) && IsPass(template, pools, p) && SettledHowever(template, pools, p.s3)
    requires u in p.s0 && p.s0[u].pool != "" && p.s0[u].pool in p.picked && p.picked[p.s0[u].pool] != u
    ensures p.s0[u].pool in pools && Matches(p.s0[u], p.s0[u].pool, pools[p.s0[u].pool], template.revision)
  {
    OtherStays(template, pools, p, u);
    var name := p.s0[u].pool;
    var picked := CanPick(p.s3, u);
    assert Settled(template, pools, p.s3, picked);
    assert name !in Deletes(pools, picked) && name !in Stale(template, pools, p.s3, picked);
    hide IsPass, Matches, IsPicked;
  }

  lemma OtherStays(template: Template, pools: Pools, p: Pass, u: nat)
    requires Safe(template) && IsPass(template, pools, p)
    requires u in p.s0 && p.s0[u].pool != "" && p.s0[u].pool in p.picked && p.picked[p.s0[u].pool] != u
    ensures u in p.s3 && p.s3[u] == p.s0[u]
  {
    if u in p.s3 {
      StayingKeepsPool(template, pools, p, u);
    } else {
      OnlyPickedOfVanishedGoes(template, pools, p, u);
    }
    hide IsPass;
  }

  // ---------- Whole runs ----------

  datatype Step = Reconcile(template: Template, pools: Pools, pass: Pass) | Drift

  ghost predicate IsStep(s: Store, s': Store, step: Step) {
    match step
    case Reconcile(template, pools, p) => Safe(template) && IsPass(template, pools, p) && p.s0 == s && p.s3 == s'
    case Drift => s'.Keys == s.Keys && forall u :: u in s ==> s'[u].pool == s[u].pool
  }

  ghost predicate IsRun(states: seq<Store>, steps: seq<Step>) {
    && |states| == |steps| + 1
    && forall i :: 0 <= i < |steps| ==> IsStep(states[i], states[i + 1], steps[i])
  }

  /** Over every run with changing templates, pools and taints and any failures: never two workloads for a pool. */
  lemma {:induction false} NeverTwo(states: seq<Store>, steps: seq<Step>, i: nat)
    requires IsRun(states, steps) && AtMostOne(states[0]) && i < |states|
    ensures AtMostOne(states[i])
  {
    if i > 0 {
      NeverTwo(states, steps, i - 1);
      assert IsStep(states[i - 1], states[i - 1 + 1], steps[i - 1]);
      if steps[i - 1].Reconcile? {
        AtMostOneIsKept(steps[i - 1].template, steps[i - 1].pools, steps[i - 1].pass);
      }
    }
    hide IsPass;
  }

  /** A second workload of a pool that stays selected is never cleaned up. */
  lemma {:induction false} DuplicatesStay(states: seq<Store>, steps: seq<Step>, u: nat, i: nat, j: nat)
    requires IsRun(states, steps) && i <= j < |states| && u in states[i]
    requires forall k :: i <= k < j && steps[k].Reconcile? ==> states[i][u].pool in steps[k].pools
    ensures u in states[j] && states[j][u].pool == states[i][u].pool
    decreases j
  {
    if i < j {
      var k := j - 1;
      DuplicatesStay(states, steps, u, i, k);
      assert IsStep(states[k], states[k + 1], steps[k]);
      if steps[k].Reconcile? {
        if u in states[j] {
          StayingKeepsPool(steps[k].template, steps[k].pools, steps[k].pass, u);
        } else {
          OnlyPickedOfVanishedGoes(steps[k].template, steps[k].pools, steps[k].pass, u);
          assert false;
        }
      }
    }
    hide IsPass;
  }
}
