/** The YurtAppDaemon controller's handling of its workloads, step by step over the API server's store. */
module AppDaemonController {
  import opened Common
  import opened NodeAttributes
  import opened AppDaemon
  import opened AppDaemonRuns
  import opened Stores
  import opened SlowStart
  import opened Tolerations

  /** A workload as it was listed. */
  datatype Listed = Listed(uid: nat, load: Load)

  const UPDATE_RETRIES := 5

  // ---------- Tolerations ----------

  method TaintsToTolerations(taints: seq<Taint>) returns (tolerations: seq<Toleration>)
    ensures tolerations == ToTolerations(taints)
    ensures |tolerations| == |taints|
    ensures forall i :: 0 <= i < |taints| ==>
              tolerations[i] == Toleration(taints[i].key, "Exists", "", taints[i].effect)
  {
    tolerations := [];
    for k := 0 to |taints|
      invariant tolerations == ToTolerations(taints)[..k]
    {
      tolerations := tolerations + [Toleration(taints[k].key, "Exists", "", taints[k].effect)];
    }
  }

  /** Whether every taint is tolerated by some toleration, by the scheduler's rule. */
  method IsTolerationsAllTaints(tolerations: seq<Toleration>, taints: seq<Taint>) returns (all: bool)
    ensures all <==> TolerateAll(tolerations, taints)
  {
    for k := 0 to |taints|
      invariant forall i :: 0 <= i < k ==> SomeTolerates(tolerations, taints[i])
    {
      if !SomeTolerates(tolerations, taints[k]) {
        return false;
      }
    }
    all := true;
  }

  /** `applyTemplate`: what a new or existing workload becomes. */
  method ApplyTemplate(template: Template, name: string, taints: seq<Taint>) returns (load: Load)
    requires Safe(template)
    ensures load == Applied(template, name, taints)
    ensures Matches(load, name, taints, template.revision)
  {
    var affinity := template.affinity;
    if affinity != NoAffinity && affinity.required {
      affinity := affinity.(required := false);
    }
    var tolerations := TaintsToTolerations(taints);
    load := Load(name, template.revision, map[LABEL_OWNER := name], template.tolerations + tolerations, affinity);
    AppliedMatchesIff(template, name, taints, taints, template.revision);
  }

  // ---------- Listing and classifying ----------

  function Uids(current: map<string, Listed>): map<string, nat> {
    map name | name in current :: current[name].uid
  }

  /** Picks the last workload listed for each pool; the list is in some order. */
  method GetNodePoolToWorkload(store: Store) returns (current: map<string, Listed>)
    ensures IsPicked(store, Uids(current))
    ensures forall name :: name in current ==>
              current[name].uid in store && current[name].load == store[current[name].uid]
  {
    current := map[];
    var todo := store.Keys;
    while todo != {}
      invariant todo <= store.Keys
      invariant forall name :: name in current ==> name != "" && current[name].uid in Of(store, name)
      invariant forall name :: name in current ==> current[name].load == store[current[name].uid]
      invariant forall u :: u in store && u !in todo && store[u].pool != "" ==> store[u].pool in current
      decreases |todo|
    {
      var u :| u in todo;
      if store[u].pool != "" {
        current := current[store[u].pool := Listed(u, store[u])];
      }
      todo := todo - {u};
    }
  }

  predicate InOrder(names: seq<string>, all: set<string>) {
    Distinct(names) && Elements(names) == all
  }

  /** The names among `names` of selected pools whose listed workload does not match. */
  function Unmatched(template: Template, pools: Pools, current: map<string, Listed>, names: set<string>): set<string> {
    set name | && name in names && name in current && name in pools
               && !Matches(current[name].load, name, pools[name], template.revision)
  }

  lemma UnmatchedStep(template: Template, pools: Pools, current: map<string, Listed>, names: set<string>, name: string)
    requires name in current && name !in names
    ensures var before, after := Unmatched(template, pools, current, names), Unmatched(template, pools, current,
                                                                                       names + {name});
            && name !in before
            && after == if name !in pools || Matches(current[name].load, name, pools[name], template.revision)
                        then before else before + {name}
  {
    hide Matches;
  }

  lemma UnmatchedIsStale(template: Template, pools: Pools, current: map<string, Listed>, s: Store)
    requires forall name :: name in current ==> current[name].uid in s && current[name].load == s[current[name].uid]
    ensures Unmatched(template, pools, current, current.Keys) == Stale(template, pools, s, Uids(current))
  {
    hide Matches;
  }

  /** The three checks of a listed workload. */
  method IsUpToDate(load: Load, name: string, taints: seq<Taint>, revision: string) returns (matches: bool)
    ensures matches <==> Matches(load, name, taints, revision)
  {
    var tolerated := IsTolerationsAllTaints(load.tolerations, taints);
    matches := load.selector == Selector(name) && tolerated && load.revision == revision;
  }

  /** Splits the listed pool names: those of vanished pools, and those whose workload does not match. */
  method ClassifyCurrent(template: Template, pools: Pools, current: map<string, Listed>)
    returns (needDeleted: seq<string>, needUpdate: seq<string>)
    ensures InOrder(needDeleted, current.Keys - pools.Keys)
    ensures InOrder(needUpdate, Unmatched(template, pools, current, current.Keys))
  {
    needDeleted, needUpdate := [], [];
    var todo := current.Keys;
    ghost var seen: set<string> := {};
    assert Splits(seen, todo, {}, current.Keys);
    hide *;
    NothingClassified(template, pools, current);
    while todo != {}
      invariant Splits(seen, todo, {}, current.Keys)
      invariant Classified(template, pools, current, seen, needDeleted, needUpdate)
      decreases |todo|
    {
      var name :| name in todo;
      SplitStep(seen, todo, {}, current.Keys, name);
      needDeleted, needUpdate := ClassifyOne(template, pools, current, name, needDeleted, needUpdate, seen);
      todo, seen := todo - {name}, seen + {name};
    }
    SplitFacts(seen, todo, {}, current.Keys);
    AllClassified(template, pools, current, {} + current.Keys, needDeleted, needUpdate);
  }

  /** The body of the loop: one listed pool. */
  method ClassifyOne(template: Template, pools: Pools, current: map<string, Listed>, name: string,
                     needDeleted: seq<string>, needUpdate: seq<string>, ghost seen: set<string>)
    returns (deleted: seq<string>, update: seq<string>)
    requires name in current && name !in seen
    requires Classified(template, pools, current, seen, needDeleted, needUpdate)
    ensures Classified(template, pools, current, seen + {name}, deleted, update)
  {
    hide *;
    deleted, update := needDeleted, needUpdate;
    if name in pools {
      var load := current[name].load;
      var matches := IsUpToDate(load, name, pools[name], template.revision);
      KeptStep(template, pools, current, seen, needDeleted, needUpdate, name, load, matches);
      if !matches {
        update := needUpdate + [name];
      }
    } else {
      VanishedStep(template, pools, current, seen, needDeleted, needUpdate, name);
      deleted := needDeleted + [name];
    }
  }

  /** The names seen so far are classified. */
  ghost predicate Classified(template: Template, pools: Pools, current: map<string, Listed>, seen: set<string>,
                             needDeleted: seq<string>, needUpdate: seq<string>)
  {
    InOrder(needDeleted, seen - pools.Keys) && InOrder(needUpdate, Unmatched(template, pools, current, seen))
  }

  lemma NothingClassified(template: Template, pools: Pools, current: map<string, Listed>)
    ensures Classified(template, pools, current, {}, [], [])
  {
    EmptyInOrder();
    assert Unmatched(template, pools, current, {}) == {} && {} - pools.Keys == {};
  }

  lemma AllClassified(template: Template, pools: Pools, current: map<string, Listed>, seen: set<string>,
                      needDeleted: seq<string>, needUpdate: seq<string>)
    requires Classified(template, pools, current, seen, needDeleted, needUpdate) && seen == {} + current.Keys
    ensures InOrder(needDeleted, current.Keys - pools.Keys)
    ensures InOrder(needUpdate, Unmatched(template, pools, current, current.Keys))
  {
    assert seen == current.Keys;
    hide InOrder, Unmatched;
  }

  lemma KeptStep(template: Template, pools: Pools, current: map<string, Listed>, seen: set<string>,
                 needDeleted: seq<string>, needUpdate: seq<string>, name: string, load: Load, matches: bool)
    requires Classified(template, pools, current, seen, needDeleted, needUpdate)
    requires name in current && name !in seen && name in pools && load == current[name].load
    requires matches <==> Matches(load, name, pools[name], template.revision)
    ensures Classified(template, pools, current, seen + {name}, needDeleted,
                       if matches then needUpdate else needUpdate + [name])
  {
    UnmatchedStep(template, pools, current, seen, name);
    DifferenceStep(seen, pools.Keys, name);
    hide Unmatched, Matches, InOrder;
    if !matches {
      AppendInOrder(needUpdate, Unmatched(template, pools, current, seen), name);
    }
  }

  lemma VanishedStep(template: Template, pools: Pools, current: map<string, Listed>, seen: set<string>,
                     needDeleted: seq<string>, needUpdate: seq<string>, name: string)
    requires Classified(template, pools, current, seen, needDeleted, needUpdate)
    requires name in current && name !in seen && name !in pools
    ensures Classified(template, pools, current, seen + {name}, needDeleted + [name], needUpdate)
  {
    UnmatchedStep(template, pools, current, seen, name);
    DifferenceStep(seen, pools.Keys, name);
    hide Unmatched, Matches, InOrder;
    AppendInOrder(needDeleted, seen - pools.Keys, name);
  }

  /** The selected pools without a listed workload. */
  method ClassifyMissing(pools: Pools, current: map<string, Listed>) returns (needCreate: seq<string>)
    ensures InOrder(needCreate, pools.Keys - current.Keys)
  {
    needCreate := [];
    var todo := pools.Keys;
    ghost var seen: set<string> := {};
    EmptyInOrder();
    assert Splits(seen, todo, {}, pools.Keys) && {} - current.Keys == {};
    hide *;
    while todo != {}
      invariant Splits(seen, todo, {}, pools.Keys)
      invariant InOrder(needCreate, seen - current.Keys)
      decreases |todo|
    {
      var name :| name in todo;
      SplitStep(seen, todo, {}, pools.Keys, name);
      DifferenceStep(seen, current.Keys, name);
      if name !in current {
        AppendInOrder(needCreate, seen - current.Keys, name);
        needCreate := needCreate + [name];
      }
      todo, seen := todo - {name}, seen + {name};
    }
    SplitFacts(seen, todo, {}, pools.Keys);
    assert {} + pools.Keys == pools.Keys;
  }

  lemma DifferenceStep(seen: set<string>, gone: set<string>, name: string)
    requires name !in seen
    ensures (seen + {name}) - gone == if name in gone then seen - gone else (seen - gone) + {name}
    ensures name !in seen - gone
  {
  }

  lemma AppendInOrder(names: seq<string>, all: set<string>, name: string)
    requires InOrder(names, all) && name !in all
    ensures InOrder(names + [name], all + {name})
  {
    AppendElement(names, name);
  }

  /** `classifyWorkloads`, its two loops above. */
  method ClassifyWorkloads(template: Template, pools: Pools, current: map<string, Listed>, ghost s: Store)
    returns (needDeleted: seq<string>, needUpdate: seq<string>, needCreate: seq<string>)
    requires forall name :: name in current ==> current[name].uid in s && current[name].load == s[current[name].uid]
    ensures InOrder(needDeleted, Deletes(pools, Uids(current)))
    ensures InOrder(needUpdate, Stale(template, pools, s, Uids(current)))
    ensures InOrder(needCreate, Creates(pools, Uids(current)))
  {
    assert Uids(current).Keys == current.Keys;
    UnmatchedIsStale(template, pools, current, s);
    hide InOrder, Stale, Unmatched;
    needDeleted, needUpdate := ClassifyCurrent(template, pools, current);
    needCreate := ClassifyMissing(pools, current);
  }

  /** Classification is a partition: each pool name is to be deleted, updated, created or left, and only one of them. */
  lemma ClassifyPartitions(template: Template, pools: Pools, s: Store, picked: map<string, nat>, name: string)
    requires forall other :: other in picked ==> picked[other] in s
    requires name in pools || name in picked
    ensures var left := name in pools && name in picked && Matches(s[picked[name]], name, pools[name],
                                                                   template.revision);
            var deleted, stale, created :=
              name in Deletes(pools, picked), name in Stale(template, pools, s, picked), name in Creates(pools, picked);
            && (left || deleted || stale || created)
            && !(left && stale) && !(deleted && created)
            && ((left || stale) <==> !(deleted || created))
  {
  }

  lemma EmptyInOrder()
    ensures InOrder([], {})
  {
    NoElements([]);
  }

  // ---------- Steps of the phases ----------

  lemma CreatedStep(s0: Store, s: Store, s': Store, template: Template, pools: Pools, done: set<string>, all: bool,
                    name: string, u: nat, made: bool)
    requires Safe(template) && CreatedFor(s0, s, template, pools, done, all) && name !in done && name in pools
    requires u !in s && u !in s0 && s' == if made then s[u := Applied(template, name, pools[name])] else s
    ensures CreatedFor(s0, s', template, pools, done + {name}, all && made)
  {
    assert Applied(template, name, pools[name]).pool == name;
    hide Applied;
    if made {
      assert s'.Keys - s0.Keys == (s.Keys - s0.Keys) + {u};
      forall other | all && other in done + {name} ensures exists v :: v in s'.Keys - s0.Keys && s'[v].pool == other {
        if other == name {
          assert s'[u].pool == other;
        } else {
          var v :| v in s.Keys - s0.Keys && s[v].pool == other;
          assert s'[v].pool == other;
        }
      }
    }
  }

  lemma CreatedWeakens(s0: Store, s: Store, template: Template, pools: Pools, done: set<string>, all: bool,
                       names: set<string>, all': bool)
    requires Safe(template) && CreatedFor(s0, s, template, pools, done, all) && done <= names
    requires all' ==> all && done == names
    ensures CreatedFor(s0, s, template, pools, names, all')
  {
    hide Applied;
  }

  lemma UpdatedStep(s0: Store, s: Store, s': Store, template: Template, pools: Pools, picked: map<string, nat>,
                    done: set<string>, all: bool, name: string, applied: bool)
    requires Safe(template) && done <= picked.Keys && done <= pools.Keys
    requires UpdatedFor(s0, s, template, pools, picked, done, all)
    requires name in picked && name in pools && name !in done && picked[name] in s
    requires forall other :: other in picked && other != name ==> picked[other] != picked[name]
    requires s' == s || s' == s[picked[name] := Applied(template, name, pools[name])]
    requires applied ==> s' == s[picked[name] := Applied(template, name, pools[name])]
    ensures UpdatedFor(s0, s', template, pools, picked, done + {name}, all && applied)
  {
    assert s[picked[name]] == s0[picked[name]];
    hide Applied;
    if s' == s {
      UpdatedWeaker(s0, s, template, pools, picked, done, all, name, all && applied);
    } else {
      UpdatedOneMore(s0, s, s', template, pools, picked, done, all, name);
    }
  }

  lemma UpdatedWeaker(s0: Store, s: Store, template: Template, pools: Pools, picked: map<string, nat>,
                      done: set<string>, all: bool, name: string, all': bool)
    requires Safe(template) && done <= picked.Keys && done <= pools.Keys
    requires UpdatedFor(s0, s, template, pools, picked, done, all) && (all' ==> all)
    requires name in picked && name in pools && picked[name] in s && s[picked[name]] == s0[picked[name]]
    requires all' ==> s[picked[name]] == Applied(template, name, pools[name])
    ensures UpdatedFor(s0, s, template, pools, picked, done + {name}, all')
  {
    hide Applied;
  }

  lemma UpdatedOneMore(s0: Store, s: Store, s': Store, template: Template, pools: Pools, picked: map<string, nat>,
                       done: set<string>, all: bool, name: string)
    requires Safe(template) && done <= picked.Keys && done <= pools.Keys
    requires UpdatedFor(s0, s, template, pools, picked, done, all)
    requires name in picked && name in pools && name !in done && picked[name] in s
    requires forall other :: other in picked && other != name ==> picked[other] != picked[name]
    requires s' == s[picked[name] := Applied(template, name, pools[name])]
    ensures UpdatedFor(s0, s', template, pools, picked, done + {name}, all)
  {
    hide Applied;
  }

  lemma UpdatedWeakens(s0: Store, s: Store, template: Template, pools: Pools, picked: map<string, nat>,
                       done: set<string>, all: bool, names: set<string>, all': bool)
    requires Safe(template) && done <= names <= picked.Keys && names <= pools.Keys
    requires UpdatedFor(s0, s, template, pools, picked, done, all) && (all' ==> all && done == names)
    requires forall a, b :: a in picked && b in picked && a != b ==> picked[a] != picked[b]
    ensures UpdatedFor(s0, s, template, pools, picked, names, all')
  {
    hide Applied;
  }

  lemma PickedOneMore(picked: map<string, nat>, names: seq<string>, k: nat)
    requires k < |names| && names[k] in picked && Distinct(names)
    ensures PickedOf(picked, Elements(names[..k + 1])) == PickedOf(picked, Elements(names[..k])) + {picked[names[k]]}
  {
    ElementsOneMore(names, k);
    hide Elements, Distinct;
  }

  // ---------- The controller ----------

  class DaemonReconciler {
    const client: Client<Load>

    constructor (client: Client<Load>)
      ensures this.client == client
    {
      this.client := client;
    }

    /** `CreateWorkload`: the template applied to a blank workload. */
    method CreateWorkload(template: Template, name: string, taints: seq<Taint>) returns (reply: Reply)
      requires Safe(template) && client.Valid()
      modifies client`store, client`nextUid, client`calls, client`failures, client`createErrors
      ensures client.Valid() && client.nextUid == old(client.nextUid) + 1 && client.calls == old(client.calls) + 1
      ensures var u, load := old(client.nextUid), Applied(template, name, taints);
              && client.store == (if u in client.store then old(client.store)[u := load] else old(client.store))
              && (reply == Ok ==> u in client.store)
      ensures reply != NotFound && client.createErrors == old(client.createErrors) + if reply == Error then 1 else 0
      ensures client.failures == old(client.failures) + if reply == Ok then 0 else 1
    {
      var load := ApplyTemplate(template, name, taints);
      reply := client.Create(load);
      hide Applied;
    }

    /** `CreateWorkload` for one batch, in any order; a timeout counts as success. Returns the number of errors. */
    method CreateBatch(template: Template, pools: Pools, batch: set<string>, ghost s0: Store, ghost done: set<string>,
                       ghost clean0: bool)
      returns (errors: nat, ghost errs: set<string>, ghost clean: bool)
      requires Safe(template) && client.Valid() && batch !! done && batch <= pools.Keys
      requires forall u :: u in s0 ==> u < client.nextUid
      requires CreatedFor(s0, client.store, template, pools, done, clean0)
      modifies client`store, client`nextUid, client`calls, client`failures, client`createErrors
      ensures client.Valid() && client.nextUid >= old(client.nextUid)
      ensures client.failures >= old(client.failures) && client.calls >= old(client.calls)
      ensures clean <==> clean0 && client.failures == old(client.failures)
      ensures CreatedFor(s0, client.store, template, pools, done + batch, clean)
      ensures errs <= batch && (errors == 0 <==> errs == {})
      ensures client.createErrors == old(client.createErrors) + errors
      ensures client.failures == old(client.failures) ==> errs == {}
    {
      errors, errs, clean := 0, {}, clean0;
      var pending := batch;
      ghost var tried := done;
      assert Splits(tried, pending, done, batch);
      hide *;
      while pending != {}
        invariant Splits(tried, pending, done, batch)
        invariant client.Valid() && client.nextUid >= old(client.nextUid)
        invariant client.failures >= old(client.failures) && client.calls >= old(client.calls)
        invariant clean <==> clean0 && client.failures == old(client.failures)
        invariant CreatedFor(s0, client.store, template, pools, tried, clean)
        invariant errs <= batch && (errors == 0 <==> errs == {})
        invariant client.createErrors == old(client.createErrors) + errors
        invariant client.failures == old(client.failures) ==> errs == {}
        decreases |pending|
      {
        var name :| name in pending;
        SplitStep(tried, pending, done, batch, name);
        ghost var u, s := client.nextUid, client.store;
        var reply := CreateWorkload(template, name, pools[name]);
        ghost var made := u in client.store;
        CreatedStep(s0, s, client.store, template, pools, tried, clean, name, u, made);
        tried := tried + {name};
        CreatedWeakens(s0, client.store, template, pools, tried, clean && made, tried, clean && reply == Ok);
        clean := clean && reply == Ok;
        pending := pending - {name};
        if reply != Ok && reply != Timeout {
          errors, errs := errors + 1, errs + {name};
        }
      }
      SplitFacts(tried, pending, done, batch);
    }

    /** Slow start: batches double until one has an error, and none is started after that. */
    method CreateWorkloads(template: Template, pools: Pools, needCreate: seq<string>)
      returns (err: bool, ghost tried: nat, ghost errs: set<string>, ghost clean: bool)
      requires Safe(template) && client.Valid() && Distinct(needCreate) && Elements(needCreate) <= pools.Keys
      modifies client`store, client`nextUid, client`calls, client`failures, client`createErrors
      ensures client.Valid() && client.nextUid >= old(client.nextUid)
      ensures client.failures >= old(client.failures) && client.calls >= old(client.calls)
      ensures clean <==> client.failures == old(client.failures)
      ensures SlowStarted(needCreate, tried, errs) && (err <==> errs != {}) && (clean ==> !err)
      ensures client.createErrors >= old(client.createErrors)
      ensures err <==> client.createErrors > old(client.createErrors)
      ensures CreatedFor(old(client.store), client.store, template, pools, Elements(needCreate[..tried]), clean)
      ensures needCreate == [] ==> client.calls == old(client.calls)
    {
      err, tried, errs, clean := false, 0, {}, true;
      var remaining, index := |needCreate|, 0;
      var batchSize := Min(remaining, INITIAL_BATCH_SIZE);
      assert 0 <= batchSize <= remaining && (batchSize == 0 ==> remaining == 0);
      assert needCreate[..0] == [];
      assert CreatedFor(client.store, client.store, template, pools, Elements(needCreate[..0]), true);
      FirstBatch(|needCreate|, INITIAL_BATCH_SIZE);
      hide *;
      while batchSize > 0
        invariant 0 <= index && remaining == |needCreate| - index && 0 <= batchSize <= remaining
        invariant batchSize == 0 ==> remaining == 0
        invariant AtBatch(index, batchSize, |needCreate|, INITIAL_BATCH_SIZE) && !err
        invariant client.Valid() && client.nextUid >= old(client.nextUid)
        invariant client.failures >= old(client.failures) && client.calls >= old(client.calls)
        invariant clean <==> client.failures == old(client.failures)
        invariant CreatedFor(old(client.store), client.store, template, pools, Elements(needCreate[..index]), clean)
        invariant client.createErrors == old(client.createErrors)
        invariant needCreate == [] ==> client.calls == old(client.calls)
        decreases remaining
      {
        var next := index + batchSize;
        ElementsSplit(needCreate, index, next);
        PrefixElements(needCreate, next);
        var errors;
        errors, errs, clean := CreateBatch(template, pools, Elements(needCreate[index..next]), old(client.store),
                                           Elements(needCreate[..index]), clean);
        remaining := remaining - batchSize;
        tried := next;
        if errors > 0 {
          SlowStops(needCreate, index, batchSize, next, errs);
          err := true;
          return;
        }
        var doubled := Next(batchSize, remaining);
        NextBatch(index, batchSize, |needCreate|, INITIAL_BATCH_SIZE, next, remaining, doubled);
        index := next;
        batchSize := doubled;
      }
      tried, errs := index, {};
      SlowFinishes(needCreate, index, batchSize);
    }

    /** Deletes the listed workloads of vanished pools, going on after errors. */
    method DeleteWorkloads(needDeleted: seq<string>, current: map<string, Listed>)
      returns (errors: nat, ghost clean: bool)
      requires client.Valid() && Distinct(needDeleted) && Elements(needDeleted) <= current.Keys
      modifies client`store, client`calls, client`failures, client`deleteErrors
      ensures client.Valid() && client.failures >= old(client.failures) && client.calls >= old(client.calls)
      ensures clean <==> client.failures == old(client.failures)
      ensures Removed(old(client.store), client.store, PickedOf(Uids(current), Elements(needDeleted)), clean)
      ensures errors == client.deleteErrors - old(client.deleteErrors) && (clean <==> errors == 0)
      ensures needDeleted == [] ==> client.calls == old(client.calls)
    {
      errors, clean := 0, true;
      ghost var picked := Uids(current);
      assert PickedOf(picked, Elements(needDeleted[..0])) == {};
      ElementsIn(needDeleted, current.Keys);
      UidsAt(current);
      NothingGone(client.store);
      hide PickedOf, Elements, Distinct, Uids, Removed;
      for k := 0 to |needDeleted|
        invariant client.Valid() && client.failures >= old(client.failures) && client.calls >= old(client.calls)
        invariant clean <==> client.failures == old(client.failures)
        invariant Removed(old(client.store), client.store, PickedOf(picked, Elements(needDeleted[..k])), clean)
        invariant errors == client.deleteErrors - old(client.deleteErrors) && (clean <==> errors == 0)
        invariant needDeleted == [] ==> client.calls == old(client.calls)
      {
        ghost var s, us := client.store, PickedOf(picked, Elements(needDeleted[..k]));
        var u := current[needDeleted[k]].uid;
        var reply := client.Delete(u);
        RemovedStep(old(client.store), s, client.store, us, clean, u, reply == Ok);
        PickedOneMore(picked, needDeleted, k);
        clean := clean && reply == Ok;
        if reply != Ok {
          errors := errors + 1;
        }
      }
      assert needDeleted[..|needDeleted|] == needDeleted;
    }

    /** Gets, rewrites and updates a workload, with up to five attempts; a failing get ends them. */
    method UpdateWorkload(template: Template, name: string, taints: seq<Taint>, uid: nat) returns (err: bool)
      requires Safe(template) && client.Valid() && uid in client.store
      modifies client`store, client`calls, client`failures, client`gets, client`getErrors
      ensures client.Valid() && client.failures >= old(client.failures) && client.calls >= old(client.calls)
      ensures var written := old(client.store)[uid := Applied(template, name, taints)];
              && (client.store == old(client.store) || client.store == written)
              && (!err ==> client.store == written)
              && (client.failures == old(client.failures) ==> !err)
      ensures err ==>
                || client.getErrors > old(client.getErrors)
                || client.failures == old(client.failures) + UPDATE_RETRIES
    {
      err := true;
      hide Applied;
      for i := 0 to UPDATE_RETRIES
        invariant client.Valid() && client.failures >= old(client.failures) && client.calls >= old(client.calls)
        invariant || client.store == old(client.store)
                  || client.store == old(client.store)[uid := Applied(template, name, taints)]
        invariant client.failures == old(client.failures) + i && client.getErrors == old(client.getErrors)
      {
        var found := client.Get(uid);
        if found.None? {
          return;
        }
        var load := ApplyTemplate(template, name, taints);
        var reply := client.Update(uid, load);
        if reply == Ok {
          return false;
        }
      }
    }

    /** `UpdateWorkload` for one batch, in any order. */
    method UpdateBatch(template: Template, pools: Pools, batch: set<string>, current: map<string, Listed>,
                       ghost s0: Store, ghost done: set<string>)
      returns (errors: nat, ghost errs: set<string>)
      requires Safe(template) && client.Valid() && batch !! done
      requires batch + done <= current.Keys && batch + done <= pools.Keys
      requires forall a, b :: a in current && b in current && a != b ==> current[a].uid != current[b].uid
      requires forall name :: name in batch ==> current[name].uid in client.store
      requires UpdatedFor(s0, client.store, template, pools, Uids(current), done, true)
      modifies client`store, client`calls, client`failures, client`gets, client`getErrors
      ensures client.Valid() && client.failures >= old(client.failures) && client.calls >= old(client.calls)
      ensures client.store.Keys == old(client.store).Keys
      ensures UpdatedFor(s0, client.store, template, pools, Uids(current), done + batch, errors == 0)
      ensures errs <= batch && (errors == 0 <==> errs == {})
      ensures client.failures == old(client.failures) ==> errs == {}
    {
      errors, errs := 0, {};
      ghost var picked, tried, all := Uids(current), done, true;
      var pending := batch;
      UidsAt(current);
      assert Splits(tried, pending, done, batch);
      hide *;
      while pending != {}
        invariant Splits(tried, pending, done, batch)
        invariant client.store.Keys == old(client.store).Keys
        invariant client.Valid() && client.failures >= old(client.failures) && client.calls >= old(client.calls)
        invariant tried <= picked.Keys && tried <= pools.Keys
        invariant UpdatedFor(s0, client.store, template, pools, picked, tried, all)
        invariant errs <= batch && (all <==> errors == 0) && (all <==> errs == {})
        invariant client.failures == old(client.failures) ==> all
        decreases |pending|
      {
        SplitFacts(tried, pending, done, batch);
        var name :| name in pending;
        ghost var s := client.store;
        var err := UpdateWorkload(template, name, pools[name], current[name].uid);
        UpdatedStep(s0, s, client.store, template, pools, picked, tried, all, name, !err);
        SplitStep(tried, pending, done, batch, name);
        tried, all := tried + {name}, all && !err;
        pending := pending - {name};
        if err {
          errors, errs := errors + 1, errs + {name};
        }
      }
      SplitFacts(tried, pending, done, batch);
    }

    /** Slow start over the workloads that do not match. */
    method UpdateWorkloads(template: Template, pools: Pools, needUpdate: seq<string>, current: map<string, Listed>)
      returns (err: bool, ghost tried: nat, ghost errs: set<string>)
      requires Safe(template) && client.Valid() && Distinct(needUpdate)
      requires Elements(needUpdate) <= current.Keys && Elements(needUpdate) <= pools.Keys
      requires forall a, b :: a in current && b in current && a != b ==> current[a].uid != current[b].uid
      requires forall name :: name in Elements(needUpdate) ==> current[name].uid in client.store
      modifies client`store, client`calls, client`failures, client`gets, client`getErrors
      ensures client.Valid() && client.failures >= old(client.failures) && client.calls >= old(client.calls)
      ensures SlowStarted(needUpdate, tried, errs) && (err <==> errs != {})
      ensures Elements(needUpdate[..tried]) <= current.Keys && Elements(needUpdate[..tried]) <= pools.Keys
      ensures UpdatedFor(old(client.store), client.store, template, pools, Uids(current), Elements(needUpdate[..tried]),
                         !err)
      ensures client.failures == old(client.failures) ==> !err
      ensures needUpdate == [] ==> client.calls == old(client.calls)
    {
      err, tried, errs := false, 0, {};
      ghost var picked := Uids(current);
      var remaining, index := |needUpdate|, 0;
      var batchSize := Min(remaining, INITIAL_BATCH_SIZE);
      assert 0 <= batchSize <= remaining && (batchSize == 0 ==> remaining == 0);
      assert needUpdate[..0] == [];
      NothingUpdatedYet(client.store, template, pools, picked);
      NoElements(needUpdate[..0]);
      FirstBatch(|needUpdate|, INITIAL_BATCH_SIZE);
      UidsAt(current);
      hide *;
      while batchSize > 0
        invariant 0 <= index && remaining == |needUpdate| - index && 0 <= batchSize <= remaining
        invariant batchSize == 0 ==> remaining == 0
        invariant AtBatch(index, batchSize, |needUpdate|, INITIAL_BATCH_SIZE) && !err
        invariant client.Valid() && client.failures >= old(client.failures) && client.calls >= old(client.calls)
        invariant client.store.Keys == old(client.store).Keys
        invariant Elements(needUpdate[..index]) <= Elements(needUpdate)
        invariant UpdatedFor(old(client.store), client.store, template, pools, picked, Elements(needUpdate[..index]),
                             true)
        invariant needUpdate == [] ==> client.calls == old(client.calls)
        decreases remaining
      {
        var next := index + batchSize;
        ElementsSplit(needUpdate, index, next);
        PrefixElements(needUpdate, next);
        ghost var before := Elements(needUpdate[..index]);
        var batch := Elements(needUpdate[index..next]);
        var errors;
        errors, errs := UpdateBatch(template, pools, batch, current, old(client.store), before);
        remaining := remaining - batchSize;
        tried := next;
        if errors > 0 {
          SlowStops(needUpdate, index, batchSize, next, errs);
          err := true;
          return;
        }
        var doubled := Next(batchSize, remaining);
        NextBatch(index, batchSize, |needUpdate|, INITIAL_BATCH_SIZE, next, remaining, doubled);
        index := next;
        batchSize := doubled;
      }
      tried, errs := index, {};
      SlowFinishes(needUpdate, index, batchSize);
    }

    /** Creates and deletes; an error of either is reported, a creation that timed out is none. */
    method ManageWorkloadsProvision(template: Template, pools: Pools, needDeleted: seq<string>, needCreate: seq<string>,
                                    current: map<string, Listed>, ghost picked: map<string, nat>)
      returns (err: bool, ghost s1: Store, ghost creationErrors: nat, ghost deletionErrors: nat, ghost clean: bool)
      requires Safe(template) && client.Valid() && picked == Uids(current)
      requires Distinct(needCreate) && Elements(needCreate) == Creates(pools, picked)
      requires Elements(needCreate) <= pools.Keys
      requires Distinct(needDeleted) && Elements(needDeleted) == Deletes(pools, picked)
      requires Elements(needDeleted) <= current.Keys
      modifies client`store, client`nextUid, client`calls, client`failures, client`createErrors, client`deleteErrors
      ensures client.Valid() && client.failures >= old(client.failures) && client.calls >= old(client.calls)
      ensures clean <==> client.failures == old(client.failures)
      ensures CreatedFor(old(client.store), s1, template, pools, Creates(pools, picked), clean)
      ensures Removed(s1, client.store, PickedOf(picked, Deletes(pools, picked)), clean)
      ensures deletionErrors == 0 ==> client.store.Keys !! PickedOf(picked, Deletes(pools, picked))
      ensures creationErrors == client.createErrors - old(client.createErrors)
      ensures deletionErrors == client.deleteErrors - old(client.deleteErrors)
      ensures (err <==> creationErrors > 0 || deletionErrors > 0) && (clean ==> !err)
      ensures needCreate == [] && needDeleted == [] ==> client.calls == old(client.calls)
    {
      hide *;
      ghost var s0 := client.store;
      ghost var tried, errs, clean1, clean2;
      var createErr, deleteErrors;
      createErr, tried, errs, clean1 := CreateWorkloads(template, pools, needCreate);
      s1 := client.store;
      AllTried(needCreate, tried, errs);
      deleteErrors, clean2 := DeleteWorkloads(needDeleted, current);
      clean := clean1 && clean2;
      AllRemoved(s1, client.store, PickedOf(picked, Deletes(pools, picked)), clean2);
      RemovedWeakens(s1, client.store, PickedOf(picked, Deletes(pools, picked)), clean2, clean);
      CreatedWeakens(s0, s1, template, pools, Elements(needCreate[..tried]), clean1, Creates(pools, picked), clean);
      creationErrors, deletionErrors := client.createErrors - old(client.createErrors), deleteErrors;
      err := createErr || deleteErrors > 0;
    }

    /** Provisions, and updates the workloads that do not match if that went without an error. */
    method ManageWorkloads(template: Template, pools: Pools, needDeleted: seq<string>, needUpdate: seq<string>,
                           needCreate: seq<string>, current: map<string, Listed>, ghost picked: map<string, nat>)
      returns (ghost p: Pass)
      requires Safe(template) && client.Valid() && picked == Uids(current) && IsPicked(client.store, picked)
      requires Lists(template, pools, client.store, current, needDeleted, needUpdate, needCreate)
      modifies client
      ensures client.Valid()
      ensures IsPass(template, pools, p)
      ensures p.s0 == old(client.store) && p.s3 == client.store && p.calls == client.calls - old(client.calls)
      ensures p.clean <==> client.failures == old(client.failures)
      ensures p.creationErrors == client.createErrors - old(client.createErrors)
      ensures p.deletionErrors == client.deleteErrors - old(client.deleteErrors)
    {
      hide *;
      ghost var s0 := client.store;
      ListsFacts(template, pools, s0, current, needDeleted, needUpdate, needCreate);
      var err;
      ghost var s1, creationErrors, deletionErrors, clean1;
      err, s1, creationErrors, deletionErrors, clean1 :=
        ManageWorkloadsProvision(template, pools, needDeleted, needCreate, current, picked);
      ghost var s2, clean := client.store, clean1;
      PickedStay(template, pools, current, s0, s1, s2, clean1, clean1);
      if !err {
        clean := UpdateStale(template, pools, needUpdate, current, Stale(template, pools, s0, picked), clean1);
      }
      p := Pass(s0, picked, s1, s2, client.store, !err, creationErrors, deletionErrors, clean,
                client.calls - old(client.calls));
      RemovedWeakens(s1, s2, PickedOf(picked, Deletes(pools, picked)), clean1, clean);
      CreatedWeakens(s0, s1, template, pools, Creates(pools, picked), clean1, Creates(pools, picked), clean);
      Assembled(template, pools, p);
    }

    method UpdateStale(template: Template, pools: Pools, needUpdate: seq<string>, current: map<string, Listed>,
                       ghost stale: set<string>, ghost clean0: bool)
      returns (ghost clean: bool)
      requires Safe(template) && client.Valid() && Distinct(needUpdate) && Elements(needUpdate) == stale
      requires stale <= current.Keys && stale <= pools.Keys && stale <= Uids(current).Keys
      requires forall a, b :: a in current && b in current && a != b ==> current[a].uid != current[b].uid
      requires forall name :: name in stale ==> current[name].uid in client.store
      modifies client`store, client`calls, client`failures, client`gets, client`getErrors
      ensures client.Valid() && client.failures >= old(client.failures) && client.calls >= old(client.calls)
      ensures clean <==> clean0 && client.failures == old(client.failures)
      ensures UpdatedFor(old(client.store), client.store, template, pools, Uids(current), stale, clean)
      ensures needUpdate == [] ==> client.calls == old(client.calls)
    {
      hide *;
      var updateErr;
      ghost var tried, errs;
      updateErr, tried, errs := UpdateWorkloads(template, pools, needUpdate, current);
      clean := clean0 && client.failures == old(client.failures);
      AllTried(needUpdate, tried, errs);
      UidsAt(current);
      UpdatedWeakens(old(client.store), client.store, template, pools, Uids(current), Elements(needUpdate[..tried]),
                     !updateErr, stale, clean);
    }

    /** One reconcile over the current store: every run of it is a `Pass`, whatever the API calls do. */
    method Reconcile(template: Template, pools: Pools) returns (ghost p: Pass)
      requires Safe(template) && client.Valid()
      modifies client
      ensures client.Valid()
      ensures IsPass(template, pools, p)
      ensures p.s0 == old(client.store) && p.s3 == client.store && p.calls == client.calls - old(client.calls)
      ensures p.clean <==> client.failures == old(client.failures)
      ensures p.creationErrors == client.createErrors - old(client.createErrors)
      ensures p.deletionErrors == client.deleteErrors - old(client.deleteErrors)
    {
      var current := GetNodePoolToWorkload(client.store);
      var needDeleted, needUpdate, needCreate := ClassifyWorkloads(template, pools, current, client.store);
      assert Lists(template, pools, client.store, current, needDeleted, needUpdate, needCreate) by {
        UidsAt(current);
        hide InOrder, Stale, Creates, Deletes, IsPicked, IsPass;
      }
      hide *;
      p := ManageWorkloads(template, pools, needDeleted, needUpdate, needCreate, current, Uids(current));
    }
  }

  /** The three lists as classified over a store in which the listed workloads are stored. */
  ghost predicate Lists(template: Template, pools: Pools, s: Store, current: map<string, Listed>,
                        needDeleted: seq<string>, needUpdate: seq<string>, needCreate: seq<string>)
  {
    && InOrder(needDeleted, Deletes(pools, Uids(current)))
    && InOrder(needUpdate, Stale(template, pools, s, Uids(current)))
    && InOrder(needCreate, Creates(pools, Uids(current)))
  }

  lemma ListsFacts(template: Template, pools: Pools, s: Store, current: map<string, Listed>,
                   needDeleted: seq<string>, needUpdate: seq<string>, needCreate: seq<string>)
    requires IsPicked(s, Uids(current)) && Lists(template, pools, s, current, needDeleted, needUpdate, needCreate)
    ensures var picked := Uids(current);
            && (Settled(template, pools, s, picked) <==> needDeleted == [] && needUpdate == [] && needCreate == [])
            && Elements(needDeleted) == Deletes(pools, picked) && Elements(needCreate) == Creates(pools, picked)
            && Elements(needUpdate) == Stale(template, pools, s, picked)
            && Deletes(pools, picked) <= current.Keys && Creates(pools, picked) <= pools.Keys
            && Stale(template, pools, s, picked) <= current.Keys && Stale(template, pools, s, picked) <= pools.Keys
            && Stale(template, pools, s, picked) <= picked.Keys
    ensures Distinct(needDeleted) && Distinct(needUpdate) && Distinct(needCreate)
    ensures forall a, b :: a in current && b in current && a != b ==> current[a].uid != current[b].uid
  {
    UidsAt(current);
    PickedIsInjective(s, Uids(current));
    ListsEmpty(template, pools, s, Uids(current), needDeleted, needUpdate, needCreate);
    hide InOrder, Settled, Elements, Distinct, IsPicked, Matches;
  }

  lemma NothingUpdatedYet(s: Store, template: Template, pools: Pools, picked: map<string, nat>)
    requires Safe(template)
    ensures UpdatedFor(s, s, template, pools, picked, {}, true)
  {
  }

  lemma UidsAt(current: map<string, Listed>)
    ensures Uids(current).Keys == current.Keys
    ensures forall name :: name in current ==> Uids(current)[name] == current[name].uid
  {
  }

  lemma ListsEmpty(template: Template, pools: Pools, s: Store, picked: map<string, nat>,
                   needDeleted: seq<string>, needUpdate: seq<string>, needCreate: seq<string>)
    requires InOrder(needDeleted, Deletes(pools, picked)) && InOrder(needUpdate, Stale(template, pools, s, picked))
    requires InOrder(needCreate, Creates(pools, picked))
    ensures Settled(template, pools, s, picked) <==> needDeleted == [] && needUpdate == [] && needCreate == []
    ensures Distinct(needDeleted) && Distinct(needUpdate) && Distinct(needCreate)
    ensures Elements(needDeleted) == Deletes(pools, picked) && Elements(needCreate) == Creates(pools, picked)
    ensures Elements(needUpdate) == Stale(template, pools, s, picked)
  {
    NoElements(needDeleted);
    NoElements(needUpdate);
    NoElements(needCreate);
  }

  /** The picked workloads of selected pools are still there when updates begin. */
  lemma PickedStay(template: Template, pools: Pools, current: map<string, Listed>, s0: Store, s1: Store, s2: Store,
                   a: bool, b: bool)
    requires Safe(template) && IsPicked(s0, Uids(current))
    requires CreatedFor(s0, s1, template, pools, Creates(pools, Uids(current)), a)
    requires Removed(s1, s2, PickedOf(Uids(current), Deletes(pools, Uids(current))), b)
    ensures forall name :: name in Stale(template, pools, s0, Uids(current)) ==> current[name].uid in s2
  {
    var picked := Uids(current);
    PickedIsInjective(s0, picked);
    forall name | name in Stale(template, pools, s0, picked) ensures current[name].uid in s2 {
      assert picked[name] in s0 && picked[name] !in PickedOf(picked, Deletes(pools, picked));
    }
    hide Matches, Applied;
  }

  lemma Assembled(template: Template, pools: Pools, p: Pass)
    requires Safe(template) && IsPicked(p.s0, p.picked)
    requires CreatedFor(p.s0, p.s1, template, pools, Creates(pools, p.picked), p.clean)
    requires Removed(p.s1, p.s2, PickedOf(p.picked, Deletes(pools, p.picked)), p.clean)
    requires (p.clean ==> p.provisioned) && (!p.provisioned ==> p.s3 == p.s2)
    requires p.provisioned <==> p.creationErrors == 0 && p.deletionErrors == 0
    requires p.deletionErrors == 0 ==> p.s2.Keys !! PickedOf(p.picked, Deletes(pools, p.picked))
    requires p.provisioned ==>
               UpdatedFor(p.s2, p.s3, template, pools, p.picked, Stale(template, pools, p.s0, p.picked), p.clean)
    requires Settled(template, pools, p.s0, p.picked) ==> p.calls == 0
    ensures IsPass(template, pools, p)
  {
  }
}
