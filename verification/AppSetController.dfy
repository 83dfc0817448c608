/**
  The YurtAppSet controller's handling of its pools, step by step over the API server's store.
 */
module AppSetController {
  import opened Common
  import opened Stores
  import opened AppSet
  import opened SlowStart
  import Names
  import AppSetRuns

  /** A workload as it was listed. */
  datatype Listed = Listed(uid: nat, name: string, w: Workload)

  const UPDATE_RETRIES := 5

  // ---------- Listing and classifying ----------

  ghost predicate IsListing(pools: seq<Listed>, s: Store, kind: Kind) {
    && (forall i :: 0 <= i < |pools| ==> IsListed(pools[i], s, kind))
    && (forall i, j :: 0 <= i < j < |pools| ==> pools[i].uid != pools[j].uid)
    && (forall u :: u in OfKind(s, kind) ==> exists i :: 0 <= i < |pools| && pools[i].uid == u)
  }

  ghost predicate IsListed(l: Listed, s: Store, kind: Kind) {
    l.uid in OfKind(s, kind) && s[l.uid] == l.w && l.w.pool == Some(l.name)
  }

  function Named(pools: seq<Listed>, name: string): seq<Listed> {
    if pools == [] then []
    else
      var rest := Named(pools[..|pools| - 1], name);
      if pools[|pools| - 1].name == name then rest + [pools[|pools| - 1]] else rest
  }

  ghost predicate IsClassified(m: map<string, seq<Listed>>, pools: seq<Listed>) {
    && (forall name :: name in m ==> m[name] == Named(pools, name) && m[name] != [])
    && (forall i :: 0 <= i < |pools| ==> pools[i].name in m)
  }

  lemma {:induction false} NamedFacts(pools: seq<Listed>, name: string)
    ensures forall l :: l in Named(pools, name) <==> l in pools && l.name == name
    ensures (forall i, j :: 0 <= i < j < |pools| ==> pools[i].uid != pools[j].uid) ==>
              forall i, j :: 0 <= i < j < |Named(pools, name)| ==>
                Named(pools, name)[i].uid != Named(pools, name)[j].uid
  {
    if pools != [] {
      var k := |pools| - 1;
      NamedFacts(pools[..k], name);
      assert pools == pools[..k] + [pools[k]];
    }
  }

  function HeadUids(m: map<string, seq<Listed>>): map<string, nat>
    requires forall name :: name in m ==> m[name] != []
  {
    map name | name in m :: m[name][0].uid
  }

  predicate IsTail(m: map<string, seq<Listed>>, name: string, i: int, u: nat) {
    name in m && 1 <= i < |m[name]| && m[name][i].uid == u
  }

  lemma InSomeClass(s: Store, kind: Kind, pools: seq<Listed>, m: map<string, seq<Listed>>, u: nat) returns (i: nat)
    requires IsListing(pools, s, kind) && IsClassified(m, pools) && u in OfKind(s, kind)
    ensures s[u].pool.Some? && s[u].pool.value in m
    ensures i < |m[s[u].pool.value]| && m[s[u].pool.value][i].uid == u
  {
    var j :| 0 <= j < |pools| && pools[j].uid == u;
    var name := pools[j].name;
    NamedFacts(pools, name);
    i :| 0 <= i < |m[name]| && m[name][i] == pools[j];
  }

  lemma HeadsAreHeads(s: Store, kind: Kind, pools: seq<Listed>, m: map<string, seq<Listed>>)
    requires IsListing(pools, s, kind) && IsClassified(m, pools)
    ensures IsHeads(s, kind, HeadUids(m))
    ensures forall name :: name in m ==> m[name] != [] && IsListed(m[name][0], s, kind) && m[name][0].name == name
  {
    forall name | name in m ensures IsListed(m[name][0], s, kind) && m[name][0].name == name {
      ClassifiedIsListed(s, kind, pools, m, name, 0);
    }
    forall u | u in OfKind(s, kind) ensures s[u].pool.Some? && s[u].pool.value in m {
      var _ := InSomeClass(s, kind, pools, m, u);
    }
    hide IsListing, IsClassified, Named;
  }

  lemma TailIsDuplicate(s: Store, kind: Kind, pools: seq<Listed>, m: map<string, seq<Listed>>, name: string, i: int,
                        u: nat)
    requires IsListing(pools, s, kind) && IsClassified(m, pools) && IsTail(m, name, i, u)
    ensures u in Duplicates(s, kind, HeadUids(m))
  {
    ClassifiedIsListed(s, kind, pools, m, name, i);
    NamedFacts(pools, name);
    assert m[name][0].uid != m[name][i].uid;
    forall other | other in m ensures HeadUids(m)[other] != u {
      ClassifiedIsListed(s, kind, pools, m, other, 0);
    }
    hide IsListing, IsClassified, Named;
  }

  lemma DuplicateIsTail(s: Store, kind: Kind, pools: seq<Listed>, m: map<string, seq<Listed>>, u: nat)
    requires IsListing(pools, s, kind) && IsClassified(m, pools) && u in Duplicates(s, kind, HeadUids(m))
    ensures exists name, i :: IsTail(m, name, i, u)
  {
    var i := InSomeClass(s, kind, pools, m, u);
    var name := s[u].pool.value;
    assert HeadUids(m)[name] == m[name][0].uid;
    assert i > 0 ==> IsTail(m, name, i, u);
    hide IsListing, IsClassified, Named, IsTail;
    assert HeadUids(m)[name] in HeadUids(m).Values;
  }

  /** All but the first of each pool name are the duplicates. */
  lemma TailsAreDuplicates(s: Store, kind: Kind, pools: seq<Listed>, m: map<string, seq<Listed>>)
    requires IsListing(pools, s, kind) && IsClassified(m, pools)
    ensures IsHeads(s, kind, HeadUids(m))
    ensures forall name, i, u :: IsTail(m, name, i, u) ==> u in Duplicates(s, kind, HeadUids(m))
    ensures forall u :: u in Duplicates(s, kind, HeadUids(m)) ==> exists name, i :: IsTail(m, name, i, u)
    ensures forall name :: name in m ==> m[name] != [] && IsListed(m[name][0], s, kind) && m[name][0].name == name
  {
    HeadsAreHeads(s, kind, pools, m);
    forall name, i, u | IsTail(m, name, i, u) ensures u in Duplicates(s, kind, HeadUids(m)) {
      TailIsDuplicate(s, kind, pools, m, name, i, u);
    }
    forall u | u in Duplicates(s, kind, HeadUids(m)) ensures exists name, i :: IsTail(m, name, i, u) {
      DuplicateIsTail(s, kind, pools, m, u);
    }
    hide *;
  }

  lemma ClassifiedIsListed(s: Store, kind: Kind, pools: seq<Listed>, m: map<string, seq<Listed>>, name: string, i: nat)
    requires IsListing(pools, s, kind) && IsClassified(m, pools) && name in m && i < |m[name]|
    ensures IsListed(m[name][i], s, kind) && m[name][i].name == name
  {
    NamedFacts(pools, name);
    assert m[name][i] in Named(pools, name);
  }

  // ---------- Steps of the phases ----------

  lemma CreatedStep(s0: Store, s: Store, s': Store, spec: Spec, done: set<string>, used: set<nat>, all: bool,
                    name: string, u: nat, made: bool)
    requires CreatedFor(s0, s, spec, done, used, all) && name !in done && u !in s && u !in used
    requires s' == if made then s[u := Fresh(spec, name)] else s
    ensures CreatedFor(s0, s', spec, done + {name}, used, all && made)
  {
    FreshPool(spec, name);
    hide Fresh;
    if made {
      assert s'.Keys - s0.Keys == (s.Keys - s0.Keys) + {u};
      forall other | all && other in done + {name}
        ensures exists v :: v in s'.Keys - s0.Keys && s'[v].pool == Some(other)
      {
        if other == name {
          assert s'[u].pool == Some(other);
        } else {
          var v :| v in s.Keys - s0.Keys && s[v].pool == Some(other);
          assert s'[v].pool == Some(other);
        }
      }
    }
  }

  lemma FreshPool(spec: Spec, name: string)
    ensures Fresh(spec, name).pool == Some(name)
  {
  }

  lemma CreatedWeakens(s0: Store, s: Store, spec: Spec, done: set<string>, all: bool, names: set<string>,
                       used: set<nat>, all': bool)
    requires CreatedFor(s0, s, spec, done, used, all) && done <= names && (all' ==> all && done == names)
    ensures CreatedFor(s0, s, spec, names, used, all')
  {
    hide Fresh;
  }

  lemma UpdatedStep(s0: Store, s: Store, s': Store, spec: Spec, heads: map<string, nat>, done: set<string>,
                    errs: set<string>, name: string, err: bool)
    requires done <= heads.Keys && name in heads && UpdatedFor(s0, s, spec, heads, done, errs)
    requires forall other :: other in heads && other != name ==> heads[other] != heads[name]
    requires name !in done && heads[name] in s
    requires || s' == s
             || (&& Apply(spec, name, s[heads[name]]).Some?
                 && s' == s[heads[name] := Apply(spec, name, s[heads[name]]).value])
    requires !err ==>
               && Apply(spec, name, s[heads[name]]).Some?
               && s' == s[heads[name] := Apply(spec, name, s[heads[name]]).value]
    ensures UpdatedFor(s0, s', spec, heads, done + {name}, if err then errs + {name} else errs)
  {
    assert s[heads[name]] == s0[heads[name]];
    hide Apply;
  }

  lemma NothingUpdatedYet(s: Store, spec: Spec, heads: map<string, nat>)
    ensures UpdatedFor(s, s, spec, heads, {}, {})
  {
  }

  /** The three provisioning phases, and what their errors say. */
  ghost predicate Provisioned(spec: Spec, heads: map<string, nat>, used: set<nat>, s1: Store, s2: Store, s3: Store,
                              s4: Store, r: Reported, err: bool, clean: bool)
  {
    var us := OtherKind(s3, spec.kind);
    && CreatedFor(s1, s2, spec, Creates(spec, heads), used, clean)
    && Removed(s2, s3, HeadsOf(heads, Deletes(spec, heads)), clean)
    && Removed(s3, s4, us, clean && AllLabelled(s3, us))
    && (err <==> !NoneReported(r) || !AllLabelled(s3, us))
    && (r.deletions == 0 ==> s3.Keys !! HeadsOf(heads, Deletes(spec, heads)))
    && (!err ==> s4.Keys !! us)
    && (clean ==> NoneReported(r))
  }

  lemma ProvisionedWeakens(spec: Spec, heads: map<string, nat>, used: set<nat>, s1: Store, s2: Store, s3: Store,
                           s4: Store, r: Reported, err: bool, clean: bool, clean': bool)
    requires Provisioned(spec, heads, used, s1, s2, s3, s4, r, err, clean) && (clean' ==> clean)
    ensures Provisioned(spec, heads, used, s1, s2, s3, s4, r, err, clean')
  {
    hide Creates, HeadsOf, Deletes, OtherKind, AllLabelled, Fresh;
  }

  lemma PhasesAreProvisioned(spec: Spec, heads: map<string, nat>, used: set<nat>, s1: Store, s2: Store, s3: Store,
                             s4: Store, a: bool, b: bool, c: bool, r: Reported, err: bool, clean: bool)
    requires CreatedFor(s1, s2, spec, Creates(spec, heads), used, a) && (clean ==> a && b && c)
    requires Removed(s2, s3, HeadsOf(heads, Deletes(spec, heads)), b)
    requires var us := OtherKind(s3, spec.kind);
             && Removed(s3, s4, us, c && AllLabelled(s3, us))
             && (err <==> !NoneReported(r) || !AllLabelled(s3, us))
    requires (a ==> r.creations == 0) && (b <==> r.deletions == 0) && (c <==> r.cleanings == 0)
    ensures Provisioned(spec, heads, used, s1, s2, s3, s4, r, err, clean)
  {
    hide Creates, HeadsOf, Deletes, OtherKind, AllLabelled, Fresh;
  }

  lemma ReportedMeans(r: Reported)
    ensures NoneReported(r) <==> r.creations == 0 && r.deletions == 0 && r.cleanings == 0
  {
  }

  ghost predicate Injective(heads: map<string, nat>) {
    forall a, b :: a in heads && b in heads && a != b ==> heads[a] != heads[b]
  }

  function Uids(pools: map<string, Listed>): map<string, nat> {
    map name | name in pools :: pools[name].uid
  }

  // ---------- The controller ----------

  class PoolReconciler {
    const client: Client<Workload>

    constructor (client: Client<Workload>)
      ensures this.client == client
    {
      this.client := client;
    }

    // ---------- Listing ----------

    /** Lists the workloads of a kind in some order; fails if one lacks a pool name. */
    method GetAllPools(kind: Kind) returns (pools: Option<seq<Listed>>)
      ensures pools.Some? <==> AllLabelled(client.store, OfKind(client.store, kind))
      ensures pools.Some? ==> IsListing(pools.value, client.store, kind)
    {
      var listed: seq<Listed> := [];
      var todo := OfKind(client.store, kind);
      while todo != {}
        invariant todo <= OfKind(client.store, kind)
        invariant AllLabelled(client.store, OfKind(client.store, kind) - todo)
        invariant forall i :: 0 <= i < |listed| ==> IsListed(listed[i], client.store, kind) && listed[i].uid !in todo
        invariant forall i, j :: 0 <= i < j < |listed| ==> listed[i].uid != listed[j].uid
        invariant forall u :: u in OfKind(client.store, kind) - todo ==>
                    exists i :: 0 <= i < |listed| && listed[i].uid == u
        decreases |todo|
      {
        var u :| u in todo;
        if !Labelled(client.store[u]) {
          return None;
        }
        ghost var before := listed;
        listed := listed + [Listed(u, client.store[u].pool.value, client.store[u])];
        assert listed[|before|].uid == u;
        forall v | v in OfKind(client.store, kind) - (todo - {u})
          ensures exists i :: 0 <= i < |listed| && listed[i].uid == v
        {
          if v != u {
            assert v in OfKind(client.store, kind) - todo;
            var i :| 0 <= i < |before| && before[i].uid == v;
            assert listed[i].uid == v;
          }
        }
        todo := todo - {u};
      }
      assert OfKind(client.store, kind) - todo == OfKind(client.store, kind);
      pools := Some(listed);
    }

    method ClassifyPoolByPoolName(pools: seq<Listed>) returns (mapping: map<string, seq<Listed>>)
      ensures IsClassified(mapping, pools)
    {
      mapping := map[];
      for k := 0 to |pools|
        invariant IsClassified(mapping, pools[..k])
      {
        var name := pools[k].name;
        assert pools[..k + 1][..k] == pools[..k];
        if name !in mapping {
          NoneNamed(pools[..k], name);
        }
        mapping := mapping[name := (if name in mapping then mapping[name] else []) + [pools[k]]];
      }
      assert pools[..|pools|] == pools;
    }

    /** Deletes all but the first workload of each pool name; stops at the first error other than "not found". */
    method DeleteDupPool(mapping: map<string, seq<Listed>>, ghost dups: set<nat>)
      returns (nameToPool: map<string, Listed>, ok: bool)
      requires client.Valid() && forall name :: name in mapping ==> mapping[name] != []
      requires forall name, i, u :: IsTail(mapping, name, i, u) ==> u in dups
      requires forall u :: u in dups ==> exists name, i :: IsTail(mapping, name, i, u)
      modifies client`store, client`calls, client`failures, client`deleteErrors
      ensures client.Valid()
      ensures Removed(old(client.store), client.store, dups, ok)
      ensures ok ==> nameToPool == Picked(mapping)
      ensures client.failures == old(client.failures) ==> ok
      ensures client.calls >= old(client.calls) && client.failures >= old(client.failures)
      ensures dups == {} ==> client.calls == old(client.calls) && client.failures == old(client.failures)
      ensures client.deleteErrors >= old(client.deleteErrors)
      ensures dups == {} ==> client.deleteErrors == old(client.deleteErrors)
    {
      nameToPool := map[];
      var todo := mapping.Keys;
      ghost var s0 := client.store;
      NothingPruned(mapping, s0, dups);
      assert nameToPool == PickedFrom(mapping, mapping.Keys - todo);
      hide *;
      while todo != {}
        invariant todo <= mapping.Keys
        invariant client.Valid() && client.calls >= old(client.calls)
        invariant client.failures >= old(client.failures)
        invariant Removed(s0, client.store, dups, false)
        invariant Pruned(mapping, client.store, todo, "", 1)
        invariant nameToPool == PickedFrom(mapping, mapping.Keys - todo)
        invariant dups == {} ==> client.calls == old(client.calls) && client.failures == old(client.failures)
        invariant client.deleteErrors >= old(client.deleteErrors)
        invariant dups == {} ==> client.deleteErrors == old(client.deleteErrors)
        decreases |todo|
      {
        var name :| name in todo;
        var pools := mapping[name];
        var i := 1;
        PruneFirst(mapping, client.store, todo, name);
        while i < |pools|
          invariant 1 <= i <= |pools|
          invariant client.Valid()
          invariant client.calls >= old(client.calls) && client.failures >= old(client.failures)
          invariant Removed(s0, client.store, dups, false)
          invariant Pruned(mapping, client.store, todo, name, i)
          invariant dups == {} ==> client.calls == old(client.calls) && client.failures == old(client.failures)
          invariant client.deleteErrors >= old(client.deleteErrors)
          invariant dups == {} ==> client.deleteErrors == old(client.deleteErrors)
        {
          ghost var s := client.store;
          TailAt(mapping, name, i);
          var reply := client.Delete(pools[i].uid);
          PrunedStep(mapping, s0, s, client.store, dups, todo, name, i, reply == Ok || reply == NotFound);
          if reply != Ok && reply != NotFound {
            ok := false;
            return;
          }
          i := i + 1;
        }
        PruneRest(mapping, client.store, todo, name);
        PickOne(mapping, todo, name);
        nameToPool := nameToPool[name := pools[0]];
        todo := todo - {name};
      }
      ok := true;
      AllPruned(mapping, s0, client.store, dups);
      PickedAll(mapping);
      assert mapping.Keys - todo == mapping.Keys;
    }

    // ---------- Creating and deleting pools ----------

    /** `CreatePool` for one batch, in any order; a timeout counts as success. Returns the number of errors. */
    method CreateBatch(spec: Spec, batch: set<string>, ghost s0: Store, ghost done: set<string>, ghost used: set<nat>,
                       ghost clean0: bool)
      returns (errors: nat, ghost errs: set<string>, ghost clean: bool)
      requires client.Valid() && batch !! done
      requires forall u :: u in used ==> u < client.nextUid
      requires CreatedFor(s0, client.store, spec, done, used, clean0)
      modifies client`store, client`nextUid, client`calls, client`failures, client`createErrors
      ensures client.Valid() && client.nextUid >= old(client.nextUid)
      ensures client.failures >= old(client.failures) && client.calls >= old(client.calls)
      ensures clean <==> clean0 && client.failures == old(client.failures)
      ensures CreatedFor(s0, client.store, spec, done + batch, used, clean)
      ensures errs <= batch && (errors == 0 <==> errs == {})
      ensures client.createErrors == old(client.createErrors) + errors
      ensures client.failures == old(client.failures) ==> errs == {}
    {
      errors, errs, clean := 0, {}, clean0;
      var pending := batch;
      ghost var tried := done;
      assert Splits(tried, pending, done, batch);
      hide CreatedFor, Fresh, Splits;
      while pending != {}
        invariant Splits(tried, pending, done, batch)
        invariant client.Valid() && client.nextUid >= old(client.nextUid)
        invariant client.failures >= old(client.failures) && client.calls >= old(client.calls)
        invariant clean <==> clean0 && client.failures == old(client.failures)
        invariant CreatedFor(s0, client.store, spec, tried, used, clean)
        invariant errs <= batch && (errors == 0 <==> errs == {})
        invariant client.createErrors == old(client.createErrors) + errors
        invariant client.failures == old(client.failures) ==> errs == {}
        decreases |pending|
      {
        var name :| name in pending;
        ghost var u, s := client.nextUid, client.store;
        SplitStep(tried, pending, done, batch, name);
        var reply := client.Create(Fresh(spec, name));
        ghost var made := u in client.store;
        CreatedStep(s0, s, client.store, spec, tried, used, clean, name, u, made);
        tried := tried + {name};
        CreatedWeakens(s0, client.store, spec, tried, clean && made, tried, used, clean && reply == Ok);
        clean := clean && reply == Ok;
        pending := pending - {name};
        if reply != Ok && reply != Timeout {
          errors, errs := errors + 1, errs + {name};
        }
      }
      SplitFacts(tried, pending, done, batch);
    }

    /** Slow start: batches double until one has an error, and none is started after that. */
    method CreatePools(spec: Spec, creates: seq<string>, ghost used: set<nat>)
      returns (err: bool, ghost tried: nat, ghost errs: set<string>, ghost clean: bool)
      requires client.Valid() && Distinct(creates) && forall u :: u in used ==> u < client.nextUid
      modifies client`store, client`nextUid, client`calls, client`failures, client`createErrors
      ensures client.Valid() && client.nextUid >= old(client.nextUid)
      ensures client.failures >= old(client.failures) && client.calls >= old(client.calls)
      ensures clean <==> client.failures == old(client.failures)
      ensures SlowStarted(creates, tried, errs) && (err <==> errs != {}) && (clean ==> !err)
      ensures client.createErrors >= old(client.createErrors)
      ensures err <==> client.createErrors > old(client.createErrors)
      ensures CreatedFor(old(client.store), client.store, spec, Elements(creates[..tried]), used, clean)
      ensures creates == [] ==> client.calls == old(client.calls)
    {
      err, tried, errs, clean := false, 0, {}, true;
      var remaining, index := |creates|, 0;
      var batchSize := Min(remaining, INITIAL_BATCH_SIZE);
      assert 0 <= batchSize <= remaining && (batchSize == 0 ==> remaining == 0);
      assert creates[..0] == [];
      assert CreatedFor(client.store, client.store, spec, Elements(creates[..0]), used, true);
      FirstBatch(|creates|, INITIAL_BATCH_SIZE);
      hide *;
      while batchSize > 0
        invariant 0 <= index && remaining == |creates| - index && 0 <= batchSize <= remaining
        invariant batchSize == 0 ==> remaining == 0
        invariant AtBatch(index, batchSize, |creates|, INITIAL_BATCH_SIZE) && !err
        invariant client.Valid() && client.nextUid >= old(client.nextUid)
        invariant client.failures >= old(client.failures) && client.calls >= old(client.calls)
        invariant clean <==> client.failures == old(client.failures)
        invariant CreatedFor(old(client.store), client.store, spec, Elements(creates[..index]), used, clean)
        invariant client.createErrors == old(client.createErrors)
        invariant creates == [] ==> client.calls == old(client.calls)
        decreases remaining
      {
        var next := index + batchSize;
        ElementsSplit(creates, index, next);
        var errors;
        errors, errs, clean := CreateBatch(spec, Elements(creates[index..next]), old(client.store),
                                           Elements(creates[..index]), used, clean);
        remaining := remaining - batchSize;
        tried := next;
        if errors > 0 {
          SlowStops(creates, index, batchSize, next, errs);
          err := true;
          return;
        }
        var doubled := Next(batchSize, remaining);
        NextBatch(index, batchSize, |creates|, INITIAL_BATCH_SIZE, next, remaining, doubled);
        index := next;
        batchSize := doubled;
      }
      tried, errs := index, {};
      SlowFinishes(creates, index, batchSize);
    }

    /** Deletes the listed workloads of the named pools, going on after errors. */
    method DeletePools(deletes: seq<string>, nameToPool: map<string, Listed>) returns (errors: nat, ghost clean: bool)
      requires client.Valid() && forall i :: 0 <= i < |deletes| ==> deletes[i] in nameToPool
      modifies client`store, client`calls, client`failures, client`deleteErrors
      ensures client.Valid()
      ensures client.failures >= old(client.failures) && client.calls >= old(client.calls)
      ensures clean <==> client.failures == old(client.failures)
      ensures Removed(old(client.store), client.store, HeadsOf(Uids(nameToPool), Elements(deletes)), clean)
      ensures errors == client.deleteErrors - old(client.deleteErrors) && (clean <==> errors == 0)
      ensures deletes == [] ==> client.calls == old(client.calls)
    {
      errors, clean := 0, true;
      ghost var heads := Uids(nameToPool);
      assert HeadsOf(heads, Elements(deletes[..0])) == {};
      assert forall i :: 0 <= i < |deletes| ==> deletes[i] in heads && heads[deletes[i]] == nameToPool[deletes[i]].uid;
      hide HeadsOf, Elements, Uids;
      for k := 0 to |deletes|
        invariant client.Valid()
        invariant client.failures >= old(client.failures) && client.calls >= old(client.calls)
        invariant clean <==> client.failures == old(client.failures)
        invariant Removed(old(client.store), client.store, HeadsOf(heads, Elements(deletes[..k])), clean)
        invariant errors == client.deleteErrors - old(client.deleteErrors) && (clean <==> errors == 0)
        invariant deletes == [] ==> client.calls == old(client.calls)
      {
        ghost var s, us := client.store, HeadsOf(heads, Elements(deletes[..k]));
        var u := nameToPool[deletes[k]].uid;
        var reply := client.Delete(u);
        RemovedStep(old(client.store), s, client.store, us, clean, u, reply == Ok);
        HeadsOneMore(heads, deletes, k);
        clean := clean && reply == Ok;
        if reply != Ok {
          errors := errors + 1;
        }
      }
      assert deletes[..|deletes|] == deletes;
    }

    /** Deletes every workload of the kind that is not selected. */
    method CleanOtherKind(kind: Kind) returns (errors: nat, ghost clean: bool)
      requires client.Valid()
      modifies client`store, client`calls, client`failures, client`deleteErrors
      ensures client.Valid()
      ensures client.failures >= old(client.failures) && client.calls >= old(client.calls)
      ensures clean <==> client.failures == old(client.failures)
      ensures var us := OtherKind(old(client.store), kind);
              && Removed(old(client.store), client.store, us, clean && AllLabelled(old(client.store), us))
              && client.deleteErrors >= old(client.deleteErrors)
              && (clean <==> client.deleteErrors == old(client.deleteErrors))
              && errors == client.deleteErrors - old(client.deleteErrors) +
                           (if AllLabelled(old(client.store), us) then 0 else 1)
              && (us == {} ==> client.calls == old(client.calls))
    {
      var other := if kind == StatefulSet then Deployment else StatefulSet;
      errors, clean := 0, true;
      ghost var us := OtherKind(client.store, kind);
      assert us == OfKind(client.store, other);
      var pools := GetAllPools(other);
      if pools.None? {
        errors := 1;
        return;
      }
      assert UidsOf(pools.value[..0]) == {};
      ListingUids(pools.value, client.store, other);
      hide IsListing, OfKind, OtherKind, AllLabelled, UidsOf;
      for k := 0 to |pools.value|
        invariant client.Valid()
        invariant client.failures >= old(client.failures) && client.calls >= old(client.calls)
        invariant clean <==> client.failures == old(client.failures)
        invariant Removed(old(client.store), client.store, UidsOf(pools.value[..k]), clean)
        invariant errors == client.deleteErrors - old(client.deleteErrors) && (clean <==> errors == 0)
        invariant k == 0 ==> client.calls == old(client.calls)
      {
        ghost var s, before := client.store, UidsOf(pools.value[..k]);
        var reply := client.Delete(pools.value[k].uid);
        RemovedStep(old(client.store), s, client.store, before, clean, pools.value[k].uid, reply == Ok);
        UidsOneMore(pools.value, k);
        clean := clean && reply == Ok;
        if reply != Ok {
          errors := errors + 1;
        }
      }
      assert pools.value[..|pools.value|] == pools.value;
    }

    // ---------- Updating pools ----------

    /** Gets, rewrites and updates a workload, with up to five attempts; a failing get ends them. */
    method UpdatePool(spec: Spec, pool: Listed) returns (err: bool)
      requires client.Valid() && pool.uid in client.store
      modifies client`store, client`calls, client`failures, client`gets, client`getErrors
      ensures client.Valid()
      ensures client.failures >= old(client.failures) && client.calls >= old(client.calls)
      ensures var applied := Apply(spec, pool.name, old(client.store)[pool.uid]);
              && (|| client.store == old(client.store)
                  || (applied.Some? && client.store == old(client.store)[pool.uid := applied.value]))
              && (!err ==> applied.Some? && client.store == old(client.store)[pool.uid := applied.value])
              && (client.failures == old(client.failures) ==> (err <==> !Appliable(spec, pool.name)))
      ensures err && Appliable(spec, pool.name) ==>
                || client.getErrors > old(client.getErrors)
                || client.failures == old(client.failures) + UPDATE_RETRIES
    {
      err := true;
      ghost var applied := Apply(spec, pool.name, client.store[pool.uid]);
      AppliesIff(spec, pool.name, client.store[pool.uid]);
      if applied.Some? {
        ApplyIsIdempotent(spec, pool.name, client.store[pool.uid]);
      }
      hide Apply;
      for i := 0 to UPDATE_RETRIES
        invariant client.Valid()
        invariant client.failures >= old(client.failures) && client.calls >= old(client.calls)
        invariant || client.store == old(client.store)
                  || (applied.Some? && client.store == old(client.store)[pool.uid := applied.value])
        invariant client.failures == old(client.failures) + i && client.getErrors == old(client.getErrors)
      {
        var found := client.Get(pool.uid);
        if found.None? {
          return;
        }
        var rewritten := Apply(spec, pool.name, found.value);
        if rewritten.None? {
          return;
        }
        var reply := client.Update(pool.uid, rewritten.value);
        if reply == Ok {
          return false;
        }
      }
    }

    /** `UpdatePool` for one of the outdated pools. */
    method UpdateOne(spec: Spec, nameToPool: map<string, Listed>, name: string, ghost s0: Store,
                     ghost tried: set<string>, ghost errs: set<string>)
      returns (err: bool)
      requires client.Valid() && name in nameToPool && nameToPool[name].name == name && name !in tried
      requires Injective(Uids(nameToPool)) && tried <= Uids(nameToPool).Keys
      requires nameToPool[name].uid in client.store
      requires UpdatedFor(s0, client.store, spec, Uids(nameToPool), tried, errs)
      modifies client`store, client`calls, client`failures, client`gets, client`getErrors
      ensures client.Valid() && client.store.Keys == old(client.store).Keys
      ensures client.failures >= old(client.failures) && client.calls >= old(client.calls)
      ensures tried + {name} <= Uids(nameToPool).Keys
      ensures UpdatedFor(s0, client.store, spec, Uids(nameToPool), tried + {name},
                         if err then errs + {name} else errs)
      ensures client.failures == old(client.failures) ==> (err <==> !Appliable(spec, name))
    {
      InjectiveUids(nameToPool);
      hide *;
      ghost var s := client.store;
      err := UpdatePool(spec, nameToPool[name]);
      UpdatedStep(s0, s, client.store, spec, Uids(nameToPool), tried, errs, name, err);
    }

    /** `UpdatePool` for one batch, in any order. */
    method UpdateBatch(spec: Spec, batch: set<string>, nameToPool: map<string, Listed>, ghost s0: Store,
                       ghost done: set<string>)
      returns (errors: nat, ghost errs: set<string>)
      requires client.Valid() && batch !! done && batch + done <= nameToPool.Keys
      requires Injective(Uids(nameToPool)) && forall name :: name in nameToPool ==> nameToPool[name].name == name
      requires forall name :: name in batch ==> nameToPool[name].uid in client.store
      requires UpdatedFor(s0, client.store, spec, Uids(nameToPool), done, {})
      modifies client`store, client`calls, client`failures, client`gets, client`getErrors
      ensures client.Valid()
      ensures client.failures >= old(client.failures) && client.calls >= old(client.calls)
      ensures client.store.Keys == old(client.store).Keys
      ensures UpdatedFor(s0, client.store, spec, Uids(nameToPool), done + batch, errs)
      ensures errs <= batch && (errors == 0 <==> errs == {})
      ensures client.failures == old(client.failures) ==> errs == Refused(spec, batch)
    {
      errors, errs := 0, {};
      ghost var heads, tried := Uids(nameToPool), done;
      var pending := batch;
      hide *;
      UpdatesBegin(spec, nameToPool, done, batch);
      while pending != {}
        invariant Splits(tried, pending, done, batch)
        invariant client.store.Keys == old(client.store).Keys
        invariant client.Valid()
        invariant client.failures >= old(client.failures) && client.calls >= old(client.calls)
        invariant tried <= heads.Keys && UpdatedFor(s0, client.store, spec, heads, tried, errs)
        invariant errs <= batch && (errors == 0 <==> errs == {})
        invariant client.failures == old(client.failures) ==> StillRefused(spec, errs, pending, batch)
        decreases |pending|
      {
        SplitFacts(tried, pending, done, batch);
        var name :| name in pending;
        var err := UpdateOne(spec, nameToPool, name, s0, tried, errs);
        RefusedStep(spec, errs, pending, batch, name);
        SplitStep(tried, pending, done, batch, name);
        tried := tried + {name};
        pending := pending - {name};
        if err {
          errors, errs := errors + 1, errs + {name};
        }
      }
      SplitFacts(tried, pending, done, batch);
      RefusedEnd(spec, errs, batch);
    }

    /** Slow start over the outdated pools. */
    method UpdatePools(spec: Spec, needUpdate: seq<string>, nameToPool: map<string, Listed>)
      returns (err: bool, ghost tried: nat, ghost errs: set<string>, ghost clean: bool)
      requires client.Valid() && Distinct(needUpdate) && Elements(needUpdate) <= nameToPool.Keys
      requires Injective(Uids(nameToPool)) && forall name :: name in nameToPool ==> nameToPool[name].name == name
      requires forall name :: name in Elements(needUpdate) ==> nameToPool[name].uid in client.store
      modifies client`store, client`calls, client`failures, client`gets, client`getErrors
      ensures client.Valid() && client.failures >= old(client.failures) && client.calls >= old(client.calls)
      ensures clean <==> client.failures == old(client.failures)
      ensures UpdatedInOrder(old(client.store), client.store, spec, Uids(nameToPool), needUpdate, tried, errs, clean)
      ensures err <==> errs != {}
      ensures needUpdate == [] ==> client.calls == old(client.calls)
    {
      err, tried, errs, clean := false, 0, {}, true;
      ghost var heads := Uids(nameToPool);
      var remaining, index := |needUpdate|, 0;
      var batchSize := Min(remaining, INITIAL_BATCH_SIZE);
      assert 0 <= batchSize <= remaining && (batchSize == 0 ==> remaining == 0);
      assert needUpdate[..0] == [] && Elements([]) == {};
      NothingUpdatedYet(client.store, spec, heads);
      NoneRefused(spec);
      InjectiveUids(nameToPool);
      FirstBatch(|needUpdate|, INITIAL_BATCH_SIZE);
      hide *;
      while batchSize > 0
        invariant 0 <= index && remaining == |needUpdate| - index && 0 <= batchSize <= remaining
        invariant batchSize == 0 ==> remaining == 0
        invariant AtBatch(index, batchSize, |needUpdate|, INITIAL_BATCH_SIZE) && !err
        invariant client.Valid() && client.failures >= old(client.failures) && client.calls >= old(client.calls)
        invariant client.store.Keys == old(client.store).Keys
        invariant Elements(needUpdate[..index]) <= Elements(needUpdate)
        invariant UpdatedFor(old(client.store), client.store, spec, heads, Elements(needUpdate[..index]), {})
        invariant client.failures == old(client.failures) ==> Refused(spec, Elements(needUpdate[..index])) == {}
        invariant needUpdate == [] ==> client.calls == old(client.calls)
        decreases remaining
      {
        var next := index + batchSize;
        ElementsSplit(needUpdate, index, next);
        PrefixElements(needUpdate, next);
        ghost var before := Elements(needUpdate[..index]);
        var batch := Elements(needUpdate[index..next]);
        RefusedSplit(spec, before, batch);
        var errors;
        errors, errs := UpdateBatch(spec, batch, nameToPool, old(client.store), before);
        remaining := remaining - batchSize;
        tried := next;
        if errors > 0 {
          SlowStops(needUpdate, index, batchSize, next, errs);
          err, clean := true, client.failures == old(client.failures);
          Ordered(old(client.store), client.store, spec, heads, needUpdate, tried, errs, clean);
          return;
        }
        var doubled := Next(batchSize, remaining);
        NextBatch(index, batchSize, |needUpdate|, INITIAL_BATCH_SIZE, next, remaining, doubled);
        index := next;
        batchSize := doubled;
      }
      tried, errs, clean := index, {}, client.failures == old(client.failures);
      SlowFinishes(needUpdate, index, batchSize);
      Ordered(old(client.store), client.store, spec, heads, needUpdate, tried, errs, clean);
    }

    // ---------- The whole reconcile ----------

    /** The names of a sorted list that are not in a set. */
    method NotIn(names: seq<string>, has: set<string>) returns (missing: seq<string>)
      requires Distinct(names)
      ensures Distinct(missing) && Elements(missing) == Elements(names) - has
    {
      missing := [];
      assert names[..0] == [];
      for k := 0 to |names|
        invariant Distinct(missing) && Elements(missing) == Elements(names[..k]) - has
      {
        ElementsOneMore(names, k);
        if names[k] !in has {
          AppendElement(missing, names[k]);
          missing := missing + [names[k]];
        }
      }
      assert names[..|names|] == names;
    }

    method ManagePoolProvision(spec: Spec, nameToPool: map<string, Listed>, ghost used: set<nat>)
      returns (kept: seq<string>, err: bool, ghost s2: Store, ghost s3: Store, ghost r: Reported, ghost clean: bool)
      requires client.Valid() && forall u :: u in used ==> u < client.nextUid
      modifies client`store, client`nextUid, client`calls, client`failures, client`createErrors, client`deleteErrors
      ensures client.Valid() && client.failures >= old(client.failures) && client.calls >= old(client.calls)
      ensures clean <==> client.failures == old(client.failures)
      ensures kept == Names.Listing(Kept(spec, Uids(nameToPool)))
      ensures Provisioned(spec, Uids(nameToPool), used, old(client.store), s2, s3, client.store, r, err, clean)
      ensures r.creations == client.createErrors - old(client.createErrors)
      ensures r.deletions + r.cleanings == client.deleteErrors - old(client.deleteErrors)
      ensures NothingToProvision(spec, Uids(nameToPool), old(client.store)) ==> client.calls == old(client.calls)
    {
      ghost var heads := Uids(nameToPool);
      var expected, got := Topology(spec.pools), nameToPool.Keys;
      PoolSets(spec, nameToPool);
      ListingElements(expected);
      ListingElements(got);
      hide *;
      var expectedList := Names.List(expected);
      var creates := NotIn(expectedList, got);
      var gotList := Names.List(got);
      var deletes := NotIn(gotList, expected);
      NoElements(creates);
      NoElements(deletes);
      ElementsIn(deletes, got);
      ghost var s1 := client.store;
      var createErr;
      ghost var tried, errs, clean1, clean2, clean3;
      createErr, tried, errs, clean1 := CreatePools(spec, creates, used);
      s2 := client.store;
      AllTried(creates, tried, errs);
      CreatedWeakens(s1, s2, spec, Elements(creates[..tried]), clean1, Creates(spec, heads), used, clean1);
      var deleteErrors;
      deleteErrors, clean2 := DeletePools(deletes, nameToPool);
      s3 := client.store;
      NothingDone(s1, s2, s3, spec, heads, used, clean1, clean2);
      ghost var deleted := client.deleteErrors;
      var cleanErrors;
      cleanErrors, clean3 := CleanOtherKind(spec.kind);
      kept := Names.List(expected * got);
      err := createErr || deleteErrors > 0 || cleanErrors > 0;
      clean := clean1 && clean2 && clean3;
      r := Reported(client.createErrors - old(client.createErrors), deleteErrors, client.deleteErrors - deleted);
      ReportedMeans(r);
      PhasesAreProvisioned(spec, heads, used, s1, s2, s3, client.store, clean1, clean2, clean3, r, err, clean);
    }

    /** The kept pools whose listed workload has another revision, replica count or patch than wanted, in order. */
    method ListOutdated(spec: Spec, kept: seq<string>, nameToPool: map<string, Listed>)
      returns (needUpdate: seq<string>)
      requires Names.StrictlySorted(kept) && forall i :: 0 <= i < |kept| ==> kept[i] in nameToPool
      ensures Names.StrictlySorted(needUpdate)
      ensures forall name :: name in needUpdate <==>
                name in kept && name in nameToPool && NeedsUpdate(spec, name, nameToPool[name].w)
    {
      needUpdate := [];
      hide NeedsUpdate, Names.Less;
      for k := 0 to |kept|
        invariant Names.StrictlySorted(needUpdate)
        invariant forall i, j :: 0 <= i < |needUpdate| && k <= j < |kept| ==> Names.Less(needUpdate[i], kept[j])
        invariant forall name :: name in needUpdate <==>
                    name in kept[..k] && name in nameToPool && NeedsUpdate(spec, name, nameToPool[name].w)
      {
        assert kept[..k + 1] == kept[..k] + [kept[k]];
        if NeedsUpdate(spec, kept[k], nameToPool[kept[k]].w) {
          needUpdate := needUpdate + [kept[k]];
        }
      }
      assert kept[..|kept|] == kept;
    }

    /** Creates, deletes and cleans; updates the outdated pools only if all of that went without an error. */
    method ManagePools(spec: Spec, nameToPool: map<string, Listed>, ghost s0: Store) returns (ghost o: Outcome)
      requires client.Valid() && AreHeads(s0, spec.kind, nameToPool)
      requires (forall u :: u in s0 ==> u < client.nextUid) && Sub(client.store, s0)
      requires AreThere(nameToPool, nameToPool.Keys, client.store)
      modifies client
      ensures client.Valid() && client.failures >= old(client.failures) && client.calls >= old(client.calls)
      ensures o.clean <==> client.failures == old(client.failures)
      ensures Managed(spec, Uids(nameToPool), s0, old(client.store), o) && o.s5 == client.store
      ensures o.calls == client.calls - old(client.calls)
      ensures o.reported.creations == client.createErrors - old(client.createErrors)
      ensures o.reported.deletions + o.reported.cleanings == client.deleteErrors - old(client.deleteErrors)
    {
      ghost var heads, s1 := Uids(nameToPool), client.store;
      assert forall u :: u in s0.Keys ==> u < client.nextUid;
      hide *;
      var kept, err;
      ghost var s2, s3, r, clean1;
      kept, err, s2, s3, r, clean1 := ManagePoolProvision(spec, nameToPool, s0.Keys);
      ghost var s4, calls1 := client.store, client.calls - old(client.calls);
      KeptStay(spec, nameToPool, s0, s1, s2, s3, s4, r, err, clean1);
      if err {
        o := Outcome(s2, s3, s4, s4, false, r, 0, {}, clean1, calls1);
        FailedManaged(spec, heads, s0, s1, o);
      } else {
        o := UpdateProvisioned(spec, kept, nameToPool, s0, s1, s2, s3, r, clean1, calls1);
      }
    }

    /** The update phase after provisioning without an error. */
    method UpdateProvisioned(spec: Spec, kept: seq<string>, nameToPool: map<string, Listed>, ghost s0: Store,
                             ghost s1: Store, ghost s2: Store, ghost s3: Store, ghost r: Reported, ghost clean1: bool,
                             ghost calls1: nat)
      returns (ghost o: Outcome)
      requires client.Valid() && AreHeads(s0, spec.kind, nameToPool) && Injective(Uids(nameToPool))
      requires kept == Names.Listing(Kept(spec, Uids(nameToPool)))
      requires AreThere(nameToPool, Kept(spec, Uids(nameToPool)), client.store)
      requires Provisioned(spec, Uids(nameToPool), s0.Keys, s1, s2, s3, client.store, r, false, clean1)
      requires NothingToProvision(spec, Uids(nameToPool), s1) ==> calls1 == 0
      modifies client`store, client`calls, client`failures, client`gets, client`getErrors
      ensures client.Valid() && client.failures >= old(client.failures) && client.calls >= old(client.calls)
      ensures o.clean <==> clean1 && client.failures == old(client.failures)
      ensures Managed(spec, Uids(nameToPool), s0, s1, o) && o.s5 == client.store && o.reported == r
      ensures o.calls == calls1 + client.calls - old(client.calls)
    {
      hide *;
      ghost var heads, s4, calls0 := Uids(nameToPool), client.store, client.calls;
      ghost var tried, errs, clean2;
      tried, errs, clean2 := UpdateOutdated(spec, kept, nameToPool, s0);
      o := Outcome(s2, s3, s4, client.store, true, r, tried, errs, clean1 && clean2, calls1 + client.calls - calls0);
      FinishedManaged(spec, heads, s0, s1, o, clean1, clean2);
    }

    method UpdateOutdated(spec: Spec, kept: seq<string>, nameToPool: map<string, Listed>, ghost s0: Store)
      returns (ghost tried: nat, ghost errs: set<string>, ghost clean: bool)
      requires client.Valid() && AreHeads(s0, spec.kind, nameToPool) && Injective(Uids(nameToPool))
      requires kept == Names.Listing(Kept(spec, Uids(nameToPool)))
      requires AreThere(nameToPool, Kept(spec, Uids(nameToPool)), client.store)
      modifies client`store, client`calls, client`failures, client`gets, client`getErrors
      ensures client.Valid() && client.failures >= old(client.failures) && client.calls >= old(client.calls)
      ensures clean <==> client.failures == old(client.failures)
      ensures var names := Names.Listing(Outdated(spec, s0, Uids(nameToPool)));
              UpdatedInOrder(old(client.store), client.store, spec, Uids(nameToPool), names, tried, errs, clean)
      ensures Outdated(spec, s0, Uids(nameToPool)) == {} ==> client.calls == old(client.calls)
    {
      ghost var outdated := Outdated(spec, s0, Uids(nameToPool));
      KeptAreHeads(spec, nameToPool);
      OutdatedAsListed(spec, nameToPool, s0);
      hide *;
      ListingFacts(kept, Kept(spec, Uids(nameToPool)), nameToPool.Keys);
      var needUpdate := ListOutdated(spec, kept, nameToPool);
      Names.StrictIsListing(needUpdate, outdated);
      ListingFacts(needUpdate, outdated, nameToPool.Keys);
      var updateErr;
      updateErr, tried, errs, clean := UpdatePools(spec, needUpdate, nameToPool);
    }

    /** Lists, classifies and removes duplicates; `listed` and `ok` tell which of these failed. */
    method GetNameToPool(kind: Kind)
      returns (nameToPool: map<string, Listed>, listed: bool, ok: bool, ghost heads: map<string, nat>)
      requires client.Valid()
      modifies client`store, client`calls, client`failures, client`deleteErrors
      ensures client.Valid()
      ensures client.failures >= old(client.failures) && client.calls >= old(client.calls)
      ensures listed <==> AllLabelled(old(client.store), OfKind(old(client.store), kind))
      ensures !listed ==> client.store == old(client.store)
      ensures !listed ==> client.calls == old(client.calls) && client.failures == old(client.failures)
      ensures listed ==> IsHeads(old(client.store), kind, heads)
      ensures listed ==> Removed(old(client.store), client.store, Duplicates(old(client.store), kind, heads), ok)
      ensures listed && client.failures == old(client.failures) ==> ok
      ensures listed && ok ==> Uids(nameToPool) == heads && AreHeads(old(client.store), kind, nameToPool)
      ensures listed && Duplicates(old(client.store), kind, heads) == {} ==> client.calls == old(client.calls)
      ensures client.deleteErrors >= old(client.deleteErrors)
      ensures !listed || Duplicates(old(client.store), kind, heads) == {} ==>
                client.deleteErrors == old(client.deleteErrors)
    {
      var pools := GetAllPools(kind);
      heads := map[];
      if pools.None? {
        return map[], false, false, heads;
      }
      listed := true;
      var mapping := ClassifyPoolByPoolName(pools.value);
      TailsAreDuplicates(client.store, kind, pools.value, mapping);
      heads := HeadUids(mapping);
      PickedAreHeads(client.store, kind, mapping);
      hide *;
      nameToPool, ok := DeleteDupPool(mapping, Duplicates(client.store, kind, heads));
    }

    /** One reconcile over the current store: every run of it is a `Pass`, whatever the API calls do. */
    method Reconcile(spec: Spec) returns (ghost p: Pass)
      requires client.Valid()
      modifies client
      ensures client.Valid()
      ensures IsPass(spec, p) && CallsForWork(spec, p)
      ensures p.s0 == old(client.store) && p.s5 == client.store && p.calls == client.calls - old(client.calls)
      ensures p.clean <==> client.failures == old(client.failures)
      ensures p.reported.creations == client.createErrors - old(client.createErrors)
      ensures p.reported.deletions + p.reported.cleanings <= client.deleteErrors - old(client.deleteErrors)
      ensures p.listed && Duplicates(p.s0, spec.kind, p.heads) == {} ==>
                p.reported.deletions + p.reported.cleanings == client.deleteErrors - old(client.deleteErrors)
    {
      ghost var s0, calls0, failures0 := client.store, client.calls, client.failures;
      var nameToPool, listed, ok;
      ghost var heads;
      assert forall u :: u in s0 ==> u < client.nextUid;
      hide *;
      nameToPool, listed, ok, heads := GetNameToPool(spec.kind);
      ghost var s1 := client.store;
      if !listed {
        p := Pass(s0, heads, s0, s0, s0, s0, s0, false, false, false, Reported(0, 0, 0), 0, {}, true, 0);
        UnlistedIsPass(spec, p);
      } else if !ok {
        p := Pass(s0, heads, s1, s1, s1, s1, s1, true, false, false, Reported(0, 0, 0), 0, {},
                  client.failures == failures0, client.calls - calls0);
        StoppedIsPass(spec, p);
      } else {
        p := ReconcileListed(spec, nameToPool, s0, heads, client.calls - calls0, client.failures == failures0);
      }
    }

    /** The rest of a reconcile once the duplicates are gone. */
    method ReconcileListed(spec: Spec, nameToPool: map<string, Listed>, ghost s0: Store, ghost heads: map<string, nat>,
                           ghost dedupCalls: nat, ghost clean0: bool)
      returns (ghost p: Pass)
      requires client.Valid() && forall u :: u in s0 ==> u < client.nextUid
      requires Uids(nameToPool) == heads && AreHeads(s0, spec.kind, nameToPool) && IsHeads(s0, spec.kind, heads)
      requires AllLabelled(s0, OfKind(s0, spec.kind))
      requires Removed(s0, client.store, Duplicates(s0, spec.kind, heads), true)
      requires Duplicates(s0, spec.kind, heads) == {} ==> dedupCalls == 0
      modifies client
      ensures client.Valid() && client.failures >= old(client.failures) && client.calls >= old(client.calls)
      ensures IsPass(spec, p) && CallsForWork(spec, p)
      ensures p.s0 == s0 && p.heads == heads && p.s5 == client.store
      ensures p.calls == dedupCalls + client.calls - old(client.calls)
      ensures p.clean <==> clean0 && client.failures == old(client.failures)
      ensures p.reported.creations == client.createErrors - old(client.createErrors)
      ensures p.reported.deletions + p.reported.cleanings == client.deleteErrors - old(client.deleteErrors)
    {
      hide *;
      ghost var s1 := client.store;
      HeadsAreThere(s0, s1, spec.kind, nameToPool);
      ghost var o;
      o := ManagePools(spec, nameToPool, s0);
      p := PassOf(s0, heads, s1, o, clean0 && o.clean, dedupCalls + o.calls);
      FinishedIsPass(spec, s0, heads, s1, o, p, dedupCalls);
    }
  }

  lemma UidsAt(nameToPool: map<string, Listed>)
    ensures Uids(nameToPool).Keys == nameToPool.Keys
    ensures forall name :: name in nameToPool ==> Uids(nameToPool)[name] == nameToPool[name].uid
  {
  }

  function Picked(mapping: map<string, seq<Listed>>): map<string, Listed>
    requires forall name :: name in mapping ==> mapping[name] != []
  {
    map name | name in mapping :: mapping[name][0]
  }

  function PickedFrom(mapping: map<string, seq<Listed>>, names: set<string>): map<string, Listed>
    requires forall name :: name in mapping ==> mapping[name] != []
  {
    map name | name in mapping && name in names :: mapping[name][0]
  }

  lemma PickOne(mapping: map<string, seq<Listed>>, todo: set<string>, name: string)
    requires (forall other :: other in mapping ==> mapping[other] != []) && todo <= mapping.Keys && name in todo
    ensures PickedFrom(mapping, mapping.Keys - todo)[name := mapping[name][0]] ==
            PickedFrom(mapping, mapping.Keys - (todo - {name}))
  {
  }

  lemma PickedAll(mapping: map<string, seq<Listed>>)
    requires forall name :: name in mapping ==> mapping[name] != []
    ensures PickedFrom(mapping, mapping.Keys) == Picked(mapping)
  {
  }

  /** The duplicates of all names but those to do are gone, and the first `i` of one name's workloads but its head. */
  ghost predicate Pruned(mapping: map<string, seq<Listed>>, s: Store, todo: set<string>, name: string, i: nat) {
    forall other, j, u :: IsTail(mapping, other, j, u) && (other !in todo || (other == name && j < i)) ==> u !in s
  }

  lemma NothingPruned(mapping: map<string, seq<Listed>>, s: Store, dups: set<nat>)
    ensures Pruned(mapping, s, mapping.Keys, "", 1) && Removed(s, s, dups, false)
  {
  }

  lemma TailAt(mapping: map<string, seq<Listed>>, name: string, i: nat)
    requires name in mapping && 1 <= i < |mapping[name]|
    ensures IsTail(mapping, name, i, mapping[name][i].uid)
  {
  }

  lemma PruneFirst(mapping: map<string, seq<Listed>>, s: Store, todo: set<string>, name: string)
    requires Pruned(mapping, s, todo, "", 1)
    ensures Pruned(mapping, s, todo, name, 1)
  {
  }

  lemma PrunedStep(mapping: map<string, seq<Listed>>, s0: Store, s: Store, s': Store, dups: set<nat>, todo: set<string>,
                   name: string, i: nat, gone: bool)
    requires Removed(s0, s, dups, false) && Pruned(mapping, s, todo, name, i)
    requires name in mapping && i < |mapping[name]| && mapping[name][i].uid in dups
    requires s' == s || s' == s - {mapping[name][i].uid}
    requires gone ==> mapping[name][i].uid !in s'
    ensures Removed(s0, s', dups, false) && Pruned(mapping, s', todo, name, if gone then i + 1 else i)
  {
  }

  lemma PruneRest(mapping: map<string, seq<Listed>>, s: Store, todo: set<string>, name: string)
    requires name in mapping && Pruned(mapping, s, todo, name, |mapping[name]|)
    ensures Pruned(mapping, s, todo - {name}, "", 1)
  {
  }

  lemma AllPruned(mapping: map<string, seq<Listed>>, s0: Store, s: Store, dups: set<nat>)
    requires Removed(s0, s, dups, false) && Pruned(mapping, s, {}, "", 1)
    requires forall u :: u in dups ==> exists name, i :: IsTail(mapping, name, i, u)
    ensures Removed(s0, s, dups, true)
  {
    forall u | u in dups ensures u !in s {
      var name, i :| IsTail(mapping, name, i, u);
    }
  }

  lemma PickedAreHeads(s: Store, kind: Kind, mapping: map<string, seq<Listed>>)
    requires forall name :: name in mapping ==> mapping[name] != []
    requires forall name :: name in mapping ==> IsListed(mapping[name][0], s, kind) && mapping[name][0].name == name
    requires IsHeads(s, kind, HeadUids(mapping))
    ensures Uids(Picked(mapping)) == HeadUids(mapping) && AreHeads(s, kind, Picked(mapping))
  {
    assert Uids(Picked(mapping)) == HeadUids(mapping);
    hide IsHeads, IsListed;
  }

  lemma UnlistedIsPass(spec: Spec, p: Pass)
    requires !p.listed && !AllLabelled(p.s0, OfKind(p.s0, spec.kind)) && p.s5 == p.s0 && p.calls == 0
    ensures IsPass(spec, p) && CallsForWork(spec, p)
  {
  }

  lemma HeadsOutliveDuplicates(s0: Store, s1: Store, kind: Kind, heads: map<string, nat>)
    requires IsHeads(s0, kind, heads) && Removed(s0, s1, Duplicates(s0, kind, heads), true)
    ensures Sub(s1, s0) && forall name :: name in heads ==> heads[name] in s1
  {
  }

  lemma HeadsAreThere(s0: Store, s1: Store, kind: Kind, nameToPool: map<string, Listed>)
    requires IsHeads(s0, kind, Uids(nameToPool))
    requires Removed(s0, s1, Duplicates(s0, kind, Uids(nameToPool)), true)
    ensures Sub(s1, s0) && AreThere(nameToPool, nameToPool.Keys, s1)
  {
    UidsAt(nameToPool);
    HeadsOutliveDuplicates(s0, s1, kind, Uids(nameToPool));
    hide IsHeads, Duplicates, Uids, Removed;
  }

  lemma StoppedIsPass(spec: Spec, p: Pass)
    requires p.listed && AllLabelled(p.s0, OfKind(p.s0, spec.kind)) && !p.deduped && !p.clean && p.s5 == p.s1
    requires IsHeads(p.s0, spec.kind, p.heads) && Removed(p.s0, p.s1, Duplicates(p.s0, spec.kind, p.heads), false)
    requires Duplicates(p.s0, spec.kind, p.heads) == {} ==> p.calls == 0
    ensures IsPass(spec, p) && CallsForWork(spec, p)
  {
    hide Provision, Removed, IsHeads, OfKind, AllLabelled;
  }

  /** Labels of the other kind's workloads are not touched before the cleaning phase. */
  lemma OtherKindFrom(spec: Spec, p: Pass)
    requires Sub(p.s1, p.s0) && Sub(p.s3, p.s2)
    requires CreatedFor(p.s1, p.s2, spec, Creates(spec, p.heads), p.s0.Keys, false)
    ensures AllLabelled(p.s0, OtherKind(p.s0, spec.kind)) ==> AllLabelled(p.s3, OtherKind(p.s3, spec.kind))
  {
    forall u | u in p.s3 && p.s3[u].kind != spec.kind ensures u in p.s0 && p.s3[u] == p.s0[u] {
    }
    hide NeedsUpdate, Creates;
  }

  function PassOf(s0: Store, heads: map<string, nat>, s1: Store, o: Outcome, clean: bool, calls: nat): (p: Pass)
    ensures p.s0 == s0 && p.s5 == o.s5 && p.clean == clean && p.calls == calls && p.reported == o.reported
    ensures p.listed && p.deduped && p.heads == heads
  {
    Pass(s0, heads, s1, o.s2, o.s3, o.s4, o.s5, true, true, o.provisioned, o.reported, o.tried, o.errs, clean, calls)
  }

  lemma FinishedIsPass(spec: Spec, s0: Store, heads: map<string, nat>, s1: Store, o: Outcome, p: Pass, dedupCalls: nat)
    requires p == PassOf(s0, heads, s1, o, p.clean, dedupCalls + o.calls) && (p.clean ==> o.clean)
    requires AllLabelled(s0, OfKind(s0, spec.kind)) && IsHeads(s0, spec.kind, heads)
    requires Removed(s0, s1, Duplicates(s0, spec.kind, heads), true)
    requires Managed(spec, heads, s0, s1, o)
    requires Duplicates(s0, spec.kind, heads) == {} ==> dedupCalls == 0
    ensures IsPass(spec, p) && CallsForWork(spec, p)
  {
    ProvisionedIsProvision(spec, p, o.clean);
    if o.provisioned {
      OrderedWeakens(p.s4, p.s5, spec, heads, Queue(spec, p), p.tried, p.errs, o.clean, p.clean);
    }
    assert OtherKind(s0, spec.kind) == {} ==> OtherKind(s1, spec.kind) == {};
    hide Provision, Provisioned, UpdatedInOrder, IsHeads, OfKind, AllLabelled, OtherKind, Duplicates, Outdated, Creates,
         Deletes, Removed;
  }

  lemma ProvisionedIsProvision(spec: Spec, p: Pass, clean: bool)
    requires Provisioned(spec, p.heads, p.s0.Keys, p.s1, p.s2, p.s3, p.s4, p.reported, !p.provisioned, clean)
    requires p.clean ==> clean
    requires Removed(p.s0, p.s1, Duplicates(p.s0, spec.kind, p.heads), true)
    ensures Provision(spec, p)
  {
    ProvisionedWeakens(spec, p.heads, p.s0.Keys, p.s1, p.s2, p.s3, p.s4, p.reported, !p.provisioned, clean, p.clean);
    CreatedWeakens(p.s1, p.s2, spec, Creates(spec, p.heads), p.clean, Creates(spec, p.heads), p.s0.Keys, false);
    OtherKindFrom(spec, p);
    RemovedWeakens(p.s3, p.s4, OtherKind(p.s3, spec.kind), p.clean && AllLabelled(p.s3, OtherKind(p.s3, spec.kind)),
                   p.clean && AllLabelled(p.s0, OtherKind(p.s0, spec.kind)));
    hide CreatedFor, Removed, OtherKind, AllLabelled, Creates, Deletes, HeadsOf, Duplicates;
  }

  /** What managing the pools leaves, and the states on the way. */
  datatype Outcome = Outcome(s2: Store, s3: Store, s4: Store, s5: Store, provisioned: bool, reported: Reported,
                             tried: nat, errs: set<string>, clean: bool, calls: nat)

  ghost predicate Managed(spec: Spec, heads: map<string, nat>, s0: Store, s1: Store, o: Outcome) {
    && Provisioned(spec, heads, s0.Keys, s1, o.s2, o.s3, o.s4, o.reported, !o.provisioned, o.clean)
    && (!o.provisioned ==> o.s5 == o.s4)
    && (o.provisioned ==>
          UpdatedInOrder(o.s4, o.s5, spec, heads, Names.Listing(Outdated(spec, s0, heads)), o.tried, o.errs, o.clean))
    && (NothingToProvision(spec, heads, s1) && Outdated(spec, s0, heads) == {} ==> o.calls == 0)
  }

  lemma FailedManaged(spec: Spec, heads: map<string, nat>, s0: Store, s1: Store, o: Outcome)
    requires Provisioned(spec, heads, s0.Keys, s1, o.s2, o.s3, o.s4, o.reported, true, o.clean)
    requires !o.provisioned && o.s5 == o.s4
    requires NothingToProvision(spec, heads, s1) ==> o.calls == 0
    ensures Managed(spec, heads, s0, s1, o)
  {
    hide Provisioned, NothingToProvision;
  }

  lemma FinishedManaged(spec: Spec, heads: map<string, nat>, s0: Store, s1: Store, o: Outcome, clean1: bool,
                        clean2: bool)
    requires Provisioned(spec, heads, s0.Keys, s1, o.s2, o.s3, o.s4, o.reported, false, clean1) && o.provisioned
    requires UpdatedInOrder(o.s4, o.s5, spec, heads, Names.Listing(Outdated(spec, s0, heads)), o.tried, o.errs, clean2)
    requires o.clean ==> clean1 && clean2
    requires NothingToProvision(spec, heads, s1) && Outdated(spec, s0, heads) == {} ==> o.calls == 0
    ensures Managed(spec, heads, s0, s1, o)
  {
    ProvisionedWeakens(spec, heads, s0.Keys, s1, o.s2, o.s3, o.s4, o.reported, false, clean1, o.clean);
    OrderedWeakens(o.s4, o.s5, spec, heads, Names.Listing(Outdated(spec, s0, heads)), o.tried, o.errs, clean2, o.clean);
    hide Provisioned, NothingToProvision, UpdatedInOrder, Outdated;
  }

  /** The pools as listed before duplicates were deleted. */
  ghost predicate AreHeads(s0: Store, kind: Kind, nameToPool: map<string, Listed>) {
    && IsHeads(s0, kind, Uids(nameToPool))
    && forall name :: name in nameToPool ==> IsListed(nameToPool[name], s0, kind) && nameToPool[name].name == name
  }

  lemma KeptAreHeads(spec: Spec, nameToPool: map<string, Listed>)
    ensures Kept(spec, Uids(nameToPool)) <= nameToPool.Keys
  {
  }

  lemma OutdatedAsListed(spec: Spec, nameToPool: map<string, Listed>, s0: Store)
    requires AreHeads(s0, spec.kind, nameToPool)
    ensures forall name :: name in Outdated(spec, s0, Uids(nameToPool)) <==>
              && name in Kept(spec, Uids(nameToPool)) && name in nameToPool
              && NeedsUpdate(spec, name, nameToPool[name].w)
    ensures Outdated(spec, s0, Uids(nameToPool)) <= Kept(spec, Uids(nameToPool))
    ensures Outdated(spec, s0, Uids(nameToPool)) <= nameToPool.Keys
  {
    hide NeedsUpdate, Topology;
  }

  ghost predicate AreThere(nameToPool: map<string, Listed>, names: set<string>, s: Store) {
    forall name :: name in names && name in nameToPool ==> nameToPool[name].uid in s
  }

  /** The listed workloads of topology pools are still there when updates begin. */
  lemma KeptStay(spec: Spec, nameToPool: map<string, Listed>, s0: Store, s1: Store, s2: Store, s3: Store, s4: Store,
                 r: Reported, err: bool, clean: bool)
    requires AreHeads(s0, spec.kind, nameToPool) && Sub(s1, s0)
    requires AreThere(nameToPool, nameToPool.Keys, s1)
    requires Provisioned(spec, Uids(nameToPool), s0.Keys, s1, s2, s3, s4, r, err, clean)
    ensures Injective(Uids(nameToPool)) && AreThere(nameToPool, Kept(spec, Uids(nameToPool)), s4)
  {
    var heads := Uids(nameToPool);
    forall a, b | a in heads && b in heads && a != b ensures heads[a] != heads[b] {
      assert IsListed(nameToPool[a], s0, spec.kind) && IsListed(nameToPool[b], s0, spec.kind);
    }
    forall name | name in Kept(spec, heads) ensures nameToPool[name].uid in s4 {
      var u := nameToPool[name].uid;
      assert u in s2 && s2[u] == s0[u];
      assert u !in HeadsOf(heads, Deletes(spec, heads));
    }
    hide Topology, Fresh;
  }

  ghost predicate NothingToProvision(spec: Spec, heads: map<string, nat>, s: Store) {
    Creates(spec, heads) == {} && Deletes(spec, heads) == {} && OtherKind(s, spec.kind) == {}
  }

  lemma PoolSets(spec: Spec, nameToPool: map<string, Listed>)
    ensures var heads, expected, got := Uids(nameToPool), Topology(spec.pools), nameToPool.Keys;
            Creates(spec, heads) == expected - got && Deletes(spec, heads) == got - expected &&
            Kept(spec, heads) == expected * got
  {
    assert Uids(nameToPool).Keys == nameToPool.Keys;
  }

  lemma NothingDone(s1: Store, s2: Store, s3: Store, spec: Spec, heads: map<string, nat>, used: set<nat>, a: bool,
                    b: bool)
    requires CreatedFor(s1, s2, spec, Creates(spec, heads), used, a)
    requires Removed(s2, s3, HeadsOf(heads, Deletes(spec, heads)), b)
    ensures Creates(spec, heads) == {} && Deletes(spec, heads) == {} ==> s3 == s1
    ensures NothingToProvision(spec, heads, s1) ==>
              Creates(spec, heads) == {} && Deletes(spec, heads) == {} && OtherKind(s3, spec.kind) == {}
  {
    if Creates(spec, heads) == {} && Deletes(spec, heads) == {} {
      AppSetRuns.NothingCreated(s1, s2, spec, used, a);
      assert HeadsOf(heads, Deletes(spec, heads)) == {};
      NothingRemoved(s2, s3, b);
    }
  }

  lemma ListingFacts(names: seq<string>, all: set<string>, keys: set<string>)
    requires names == Names.Listing(all) && all <= keys
    ensures Names.StrictlySorted(names) && Distinct(names) && Elements(names) == all && (names == [] <==> all == {})
    ensures forall name :: name in names <==> name in all
    ensures forall i :: 0 <= i < |names| ==> names[i] in keys
  {
    Names.ListingIsDuplicateFree(all);
    ListingElements(all);
    NoElements(names);
    hide Names.Listing, Names.Less, Elements, Distinct;
  }

  lemma UpdatesBegin(spec: Spec, nameToPool: map<string, Listed>, done: set<string>, batch: set<string>)
    requires batch !! done && batch + done <= nameToPool.Keys
    ensures Splits(done, batch, done, batch) && StillRefused(spec, {}, batch, batch)
    ensures done <= Uids(nameToPool).Keys
  {
    NoneRefused(spec);
    UidsAt(nameToPool);
  }

  lemma NoneRefused(spec: Spec)
    ensures Refused(spec, {}) == {}
  {
  }

  /** The errors so far and those of the pending pools are the refusals of the batch. */
  ghost predicate StillRefused(spec: Spec, errs: set<string>, pending: set<string>, batch: set<string>) {
    errs + Refused(spec, pending) == Refused(spec, batch)
  }

  lemma RefusedStep(spec: Spec, errs: set<string>, pending: set<string>, batch: set<string>, name: string)
    requires name in pending
    ensures StillRefused(spec, errs, pending, batch) ==>
              StillRefused(spec, if Appliable(spec, name) then errs else errs + {name}, pending - {name}, batch)
  {
    hide Appliable;
    assert Refused(spec, pending) ==
           Refused(spec, pending - {name}) + if Appliable(spec, name) then {} else {name};
  }

  lemma RefusedEnd(spec: Spec, errs: set<string>, batch: set<string>)
    ensures StillRefused(spec, errs, {}, batch) ==> errs == Refused(spec, batch)
  {
    assert Refused(spec, {}) == {};
  }

  lemma OrderedWeakens(s: Store, s': Store, spec: Spec, heads: map<string, nat>, names: seq<string>, tried: nat,
                       errs: set<string>, clean: bool, clean': bool)
    requires UpdatedInOrder(s, s', spec, heads, names, tried, errs, clean) && (clean' ==> clean)
    ensures UpdatedInOrder(s, s', spec, heads, names, tried, errs, clean')
  {
    hide UpdatedFor, SlowStarted, Elements, Refused;
  }

  lemma RefusedSplit(spec: Spec, a: set<string>, b: set<string>)
    ensures Refused(spec, a + b) == Refused(spec, a) + Refused(spec, b)
  {
    hide Appliable;
  }

  lemma Ordered(s: Store, s': Store, spec: Spec, heads: map<string, nat>, names: seq<string>, tried: nat,
                errs: set<string>, clean: bool)
    requires SlowStarted(names, tried, errs) && Elements(names[..tried]) <= heads.Keys
    requires UpdatedFor(s, s', spec, heads, Elements(names[..tried]), errs)
    requires clean ==> errs == Refused(spec, Elements(names[..tried]))
    ensures UpdatedInOrder(s, s', spec, heads, names, tried, errs, clean)
  {
    hide UpdatedFor, SlowStarted, Elements, Refused;
  }

  lemma InjectiveUids(nameToPool: map<string, Listed>)
    requires Injective(Uids(nameToPool))
    ensures Uids(nameToPool).Keys == nameToPool.Keys
    ensures forall name :: name in nameToPool ==> Uids(nameToPool)[name] == nameToPool[name].uid
    ensures forall a, b :: a in nameToPool && b in nameToPool && a != b ==> Uids(nameToPool)[a] != Uids(nameToPool)[b]
  {
  }

  lemma HeadsOneMore(heads: map<string, nat>, names: seq<string>, k: nat)
    requires k < |names| && names[k] in heads
    ensures HeadsOf(heads, Elements(names[..k + 1])) == HeadsOf(heads, Elements(names[..k])) + {heads[names[k]]}
  {
    assert Elements(names[..k + 1]) == Elements(names[..k]) + {names[k]} by {
      assert names[..k + 1] == names[..k] + [names[k]];
      forall name | name in Elements(names[..k]) ensures name in Elements(names[..k + 1]) {
        var i :| 0 <= i < k && names[..k][i] == name;
        assert names[..k + 1][i] == name;
      }
      assert names[..k + 1][k] == names[k];
    }
  }

  function UidsOf(pools: seq<Listed>): set<nat> {
    set i | 0 <= i < |pools| :: pools[i].uid
  }

  lemma UidsOneMore(pools: seq<Listed>, k: nat)
    requires k < |pools|
    ensures UidsOf(pools[..k + 1]) == UidsOf(pools[..k]) + {pools[k].uid}
  {
    assert pools[..k + 1] == pools[..k] + [pools[k]];
    forall u | u in UidsOf(pools[..k]) ensures u in UidsOf(pools[..k + 1]) {
      var i :| 0 <= i < k && pools[..k][i].uid == u;
      assert pools[..k + 1][i].uid == u;
    }
    assert pools[..k + 1][k].uid == pools[k].uid;
  }

  lemma ListingUids(pools: seq<Listed>, s: Store, kind: Kind)
    requires IsListing(pools, s, kind)
    ensures UidsOf(pools) == OfKind(s, kind)
    ensures OfKind(s, kind) == {} ==> pools == []
  {
    assert pools != [] ==> pools[0].uid in UidsOf(pools);
  }

  lemma {:induction false} NoneNamed(pools: seq<Listed>, name: string)
    requires forall i :: 0 <= i < |pools| ==> pools[i].name != name
    ensures Named(pools, name) == []
  {
    if pools != [] {
      NoneNamed(pools[..|pools| - 1], name);
    }
  }
}
