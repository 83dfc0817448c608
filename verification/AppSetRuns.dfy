/** What reconciles of a YurtAppSet guarantee: with arbitrary failures, over whole runs, and when nothing fails. */
module AppSetRuns {
  import opened Common
  import opened SlowStart
  import opened Stores
  import opened AppSet
  import Names

  // ---------- One reconcile with arbitrary failures ----------

  /** A workload that is there before and after a reconcile keeps its kind and its pool. */
  lemma IdentityIsKept(spec: Spec, p: Pass, u: nat)
    requires IsPass(spec, p) && u in p.s0 && u in p.s5
    ensures p.s5[u].kind == p.s0[u].kind && p.s5[u].pool == p.s0[u].pool
  {
    if p.listed && p.deduped && p.provisioned {
      SurvivorIsUnchanged(spec, p, u);
      UpdateKeepsIdentity(spec, p.s0, p.s4, p.s5, p.heads, Elements(Queue(spec, p)[..p.tried]), p.errs, u);
    } else if p.listed && p.deduped {
      SurvivorIsUnchanged(spec, p, u);
    }
    hide NeedsUpdate, Fresh, Apply, OtherKind, Duplicates, Queue, SlowStarted, Elements, Provision, IsHeads, Quiet,
         AllLabelled, OfKind;
  }

  lemma UpdateKeepsIdentity(spec: Spec, s0: Store, s: Store, s': Store, heads: map<string, nat>, names: set<string>,
                            errs: set<string>, u: nat)
    requires names <= heads.Keys && UpdatedFor(s, s', spec, heads, names, errs) && IsHeads(s0, spec.kind, heads)
    requires u in s0 && u in s && s[u] == s0[u]
    ensures u in s' && s'[u].kind == s0[u].kind && s'[u].pool == s0[u].pool
  {
    if name :| name in names && heads[name] == u {
      assert u in Of(s0, spec.kind, name);
      if s'[u] != s[u] {
        ApplyIsIdempotent(spec, name, s[u]);
      }
      hide Apply;
    }
  }

  /** Before the update phase, listed workloads that are still there are unchanged. */
  lemma SurvivorIsUnchanged(spec: Spec, p: Pass, u: nat)
    requires IsPass(spec, p) && p.listed && p.deduped && u in p.s0 && u in p.s4
    ensures p.s4[u] == p.s0[u] && u in p.s1 && u in p.s3
  {
    hide NeedsUpdate, Fresh, Apply, OtherKind, Duplicates, UpdatedInOrder, IsHeads, Quiet;
  }

  /** The listed workload of a pool in the topology is never deleted, whatever fails: it is there in every state. */
  lemma HeadSurvives(spec: Spec, p: Pass, name: string)
    requires IsPass(spec, p) && Of(p.s0, spec.kind, name) != {} && name in Topology(spec.pools)
    ensures Of(p.s0, spec.kind, name) * Of(p.s5, spec.kind, name) != {}
    ensures p.listed && p.deduped ==>
              && name in p.heads
              && p.heads[name] in p.s1 && p.heads[name] in p.s2 && p.heads[name] in p.s3 && p.heads[name] in p.s4
  {
    var any :| any in Of(p.s0, spec.kind, name);
    if p.listed {
      var u := p.heads[name];
      HeadIsNotSurplus(spec, p, name);
      HeadStays(spec, p, u);
      IdentityIsKept(spec, p, u);
      assert u in Of(p.s0, spec.kind, name) * Of(p.s5, spec.kind, name);
    } else {
      assert any in Of(p.s0, spec.kind, name) * Of(p.s5, spec.kind, name);
    }
  }

  lemma HeadIsNotSurplus(spec: Spec, p: Pass, name: string)
    requires IsHeads(p.s0, spec.kind, p.heads) && name in p.heads && name in Topology(spec.pools)
    ensures p.heads[name] !in Duplicates(p.s0, spec.kind, p.heads)
    ensures p.heads[name] !in HeadsOf(p.heads, Deletes(spec, p.heads))
    ensures p.heads[name] in p.s0 && p.s0[p.heads[name]].kind == spec.kind
  {
  }

  lemma HeadStays(spec: Spec, p: Pass, u: nat)
    requires IsPass(spec, p) && p.listed && u in p.s0 && p.s0[u].kind == spec.kind
    requires u !in Duplicates(p.s0, spec.kind, p.heads) && u !in HeadsOf(p.heads, Deletes(spec, p.heads))
    ensures u in p.s5 && u in p.s1
    ensures p.deduped ==> u in p.s2 && u in p.s3 && u in p.s4
  {
    hide NeedsUpdate, Fresh, Apply, Duplicates, IsHeads, Quiet, Deletes, HeadsOf;
  }

  /** The workload is of the selected kind and as the template has it, for a topology pool that had none. */
  ghost predicate MadeForMissing(spec: Spec, p: Pass, u: nat)
    requires u in p.s5
  {
    && p.listed && p.deduped && p.s5[u].kind == spec.kind && p.s5[u].pool.Some?
    && var name := p.s5[u].pool.value;
       name in Topology(spec.pools) && Of(p.s0, spec.kind, name) == {} && p.s5[u] == Fresh(spec, name)
  }

  /** A reconcile only creates workloads of the selected kind for topology pools that had none. */
  lemma CreatesOnlyMissing(spec: Spec, p: Pass)
    requires IsPass(spec, p)
    ensures forall u :: u in p.s5 && u !in p.s0 ==> MadeForMissing(spec, p, u)
  {
    forall u | u in p.s5 && u !in p.s0 ensures MadeForMissing(spec, p, u) {
      CreatedAt(spec, p, u);
    }
    hide IsPass, Topology, Of, Fresh;
  }

  lemma CreatedAt(spec: Spec, p: Pass, u: nat)
    requires IsPass(spec, p) && u in p.s5 && u !in p.s0
    ensures p.listed && p.deduped && u in p.s2 && u !in p.s1
    ensures p.s5[u].kind == spec.kind && p.s5[u].pool.Some?
    ensures var name := p.s5[u].pool.value;
            && name in Topology(spec.pools) && Of(p.s0, spec.kind, name) == {}
            && p.s5[u] == p.s2[u] == Fresh(spec, name)
  {
    NewIsFresh(spec, p, u);
    var name := p.s5[u].pool.value;
    assert name !in p.heads;
    forall v ensures v !in Of(p.s0, spec.kind, name) {
    }
  }

  lemma NewIsFresh(spec: Spec, p: Pass, u: nat)
    requires IsPass(spec, p) && u in p.s5 && u !in p.s0
    ensures p.listed && p.deduped && u in p.s2 && u !in p.s1
    ensures p.s5[u] == p.s2[u] && p.s2[u].pool.Some? && p.s2[u].pool.value in Creates(spec, p.heads)
    ensures p.s5[u] == Fresh(spec, p.s2[u].pool.value)
    ensures IsHeads(p.s0, spec.kind, p.heads)
  {
    assert p.listed && p.deduped;
    forall name | name in Outdated(spec, p.s0, p.heads) ensures p.heads[name] != u {
      assert p.heads[name] in p.s0;
    }
    hide NeedsUpdate, Fresh, Apply, Duplicates, IsHeads, Quiet, Deletes, HeadsOf, Creates, Outdated, AllLabelled;
  }

  predicate SamePool(s: Store, kind: Kind, u: nat, v: nat)
    requires u in s && v in s
  {
    s[u].kind == s[v].kind == kind && s[u].pool.Some? && s[u].pool == s[v].pool
  }

  ghost predicate AtMostOne(s: Store, kind: Kind) {
    forall u, v :: u in s && v in s && SamePool(s, kind, u, v) ==> u == v
  }

  /** At most one workload of a kind per pool: kept by every reconcile, whatever fails and for either kind. */
  lemma AtMostOneIsKept(spec: Spec, p: Pass, kind: Kind)
    requires IsPass(spec, p) && AtMostOne(p.s0, kind)
    ensures AtMostOne(p.s5, kind)
  {
    forall u, v | u in p.s5 && v in p.s5 && SamePool(p.s5, kind, u, v)
      ensures u == v
    {
      TwoOfOnePool(spec, p, u, v);
    }
  }

  lemma TwoOfOnePool(spec: Spec, p: Pass, u: nat, v: nat)
    requires IsPass(spec, p) && u in p.s5 && v in p.s5 && AtMostOne(p.s0, p.s5[u].kind)
    requires p.s5[u].kind == p.s5[v].kind && p.s5[u].pool.Some? && p.s5[u].pool == p.s5[v].pool
    ensures u == v
  {
    if u in p.s0 {
      IdentityIsKept(spec, p, u);
    } else {
      CreatedAt(spec, p, u);
    }
    if v in p.s0 {
      IdentityIsKept(spec, p, v);
    } else {
      CreatedAt(spec, p, v);
    }
    var name := p.s5[u].pool.value;
    assert u in p.s0 && p.s0[u].kind == spec.kind ==> u in Of(p.s0, spec.kind, name);
    assert v in p.s0 && p.s0[v].kind == spec.kind ==> v in Of(p.s0, spec.kind, name);
    assert u in p.s0 && v in p.s0 ==> SamePool(p.s0, p.s5[u].kind, u, v);
    if u !in p.s0 && v !in p.s0 {
      assert CreatedFor(p.s1, p.s2, spec, Creates(spec, p.heads), p.s0.Keys, p.clean);
    }
    hide IsPass, Fresh;
  }

  /** One workload without a pool label stops the whole pass if of the selected kind, the updates if of the other. */
  lemma UnlabelledBlocks(spec: Spec, p: Pass, u: nat)
    requires IsPass(spec, p) && u in p.s0 && (p.s0[u].pool == None || p.s0[u].pool == Some(""))
    ensures p.s0[u].kind == spec.kind ==> p.s5 == p.s0 && p.calls == 0
    ensures p.s0[u].kind != spec.kind && p.listed && p.deduped ==> !p.provisioned && p.s5 == p.s4
  {
    if p.s0[u].kind == spec.kind {
      assert u in OfKind(p.s0, spec.kind);
    } else if p.listed && p.deduped {
      OtherKindUntouched(spec, p, u);
      assert u in OtherKind(p.s3, spec.kind);
    }
  }

  /** A reconcile gets past its listing exactly if every workload of the selected kind names a pool. */
  lemma ListedIff(spec: Spec, p: Pass)
    requires IsPass(spec, p)
    ensures p.listed <==>
            forall u :: u in p.s0 && p.s0[u].kind == spec.kind ==> p.s0[u].pool.Some? && p.s0[u].pool.value != ""
  {
    hide Provision, UpdatedInOrder, IsHeads, Removed, Queue, Duplicates;
  }

  /** Up to the cleaning phase, workloads of the other kind stay as they are. */
  lemma OtherKindUntouched(spec: Spec, p: Pass, u: nat)
    requires IsPass(spec, p) && p.listed && p.deduped && u in p.s0 && p.s0[u].kind != spec.kind
    ensures u in p.s3 && p.s3[u] == p.s0[u]
  {
    assert u !in Duplicates(p.s0, spec.kind, p.heads);
    forall name | name in p.heads ensures p.heads[name] != u {
      assert p.heads[name] in Of(p.s0, spec.kind, name);
    }
    assert u !in HeadsOf(p.heads, Deletes(spec, p.heads));
    hide NeedsUpdate, Fresh, Apply, OtherKind, Duplicates, UpdatedInOrder, IsHeads, Quiet, HeadsOf, Deletes;
  }

  /**
    Updates follow provisioning exactly if no creation, deletion or cleaning returned an error, where a creation that
    timed out is none, and no workload of the other kind lacks its pool label.
   */
  lemma ProvisionedIff(spec: Spec, p: Pass)
    requires IsPass(spec, p) && p.listed && p.deduped
    ensures p.provisioned <==> NoneReported(p.reported) && AllLabelled(p.s0, OtherKind(p.s0, spec.kind))
  {
    forall u | u in p.s0 && p.s0[u].kind != spec.kind ensures u in p.s3 && p.s3[u] == p.s0[u] {
      OtherKindUntouched(spec, p, u);
    }
    forall u | u in p.s3 && p.s3[u].kind != spec.kind ensures u in p.s0 && p.s0[u] == p.s3[u] {
      OtherKindIsOld(spec, p, u);
    }
    ProvisionedAt(spec, p);
    hide IsPass;
  }

  lemma ProvisionedAt(spec: Spec, p: Pass)
    requires IsPass(spec, p) && p.listed && p.deduped
    ensures p.provisioned <==> NoneReported(p.reported) && AllLabelled(p.s3, OtherKind(p.s3, spec.kind))
  {
    hide UpdatedInOrder, CreatedFor, Removed, IsHeads, OtherKind, AllLabelled, NoneReported;
  }

  lemma OtherKindIsOld(spec: Spec, p: Pass, u: nat)
    requires IsPass(spec, p) && p.listed && p.deduped && u in p.s3 && p.s3[u].kind != spec.kind
    ensures u in p.s0 && p.s0[u] == p.s3[u]
  {
    if u !in p.s1 {
      FreshKind(spec, p, u);
    }
    hide NeedsUpdate, Fresh, OtherKind, Duplicates, UpdatedInOrder, IsHeads, HeadsOf, Deletes, Creates;
  }

  /** If a creation, a deletion or a cleaning errs, every workload that is still there is as it was listed. */
  lemma ErrorsBlockUpdates(spec: Spec, p: Pass, u: nat)
    requires IsPass(spec, p) && (!p.deduped || !NoneReported(p.reported)) && u in p.s0 && u in p.s5
    ensures p.s5[u] == p.s0[u]
  {
    if p.listed && p.deduped {
      ProvisionedAt(spec, p);
      UnprovisionedEnds(spec, p);
      SurvivorIsUnchanged(spec, p, u);
    }
    hide NeedsUpdate, Fresh, OtherKind, Duplicates, UpdatedInOrder, IsHeads, HeadsOf, Deletes, Creates, Provision;
  }

  /** If no deletion errs, no listed workload of a surplus pool is left, whatever else fails. */
  lemma SurplusIsGone(spec: Spec, p: Pass, name: string)
    requires IsPass(spec, p) && p.listed && p.deduped && p.reported.deletions == 0
    requires name in p.heads && name !in Topology(spec.pools)
    ensures p.heads[name] !in p.s5
  {
    assert p.heads[name] in HeadsOf(p.heads, Deletes(spec, p.heads));
    if p.provisioned {
      KeysStay(spec, p);
    } else {
      UnprovisionedEnds(spec, p);
    }
    hide UpdatedInOrder, CreatedFor, IsHeads, OtherKind, AllLabelled, NoneReported, HeadsOf, Deletes, Topology;
  }

  // ---------- When there is nothing to do ----------

  /** One workload of the selected kind per topology pool, each as wanted, and nothing else. */
  ghost predicate Converged(spec: Spec, s: Store) {
    && (forall u :: u in s ==>
          && s[u].kind == spec.kind && s[u].pool.Some? && s[u].pool.value in Topology(spec.pools)
          && !NeedsUpdate(spec, s[u].pool.value, s[u]))
    && AtMostOne(s, spec.kind)
    && (forall name :: name in Topology(spec.pools) ==> Of(s, spec.kind, name) != {})
  }

  /** A reconcile has nothing to do exactly if the store has converged; then it makes no writing call. */
  lemma QuietIffConverged(spec: Spec, p: Pass)
    requires IsPass(spec, p) && CallsForWork(spec, p) && "" !in Topology(spec.pools)
    ensures Quiet(spec, p) <==> Converged(spec, p.s0)
    ensures Quiet(spec, p) ==> p.s5 == p.s0 && p.calls == 0
  {
    if Quiet(spec, p) {
      QuietIsConverged(spec, p);
      QuietKeepsAll(spec, p);
    } else if Converged(spec, p.s0) {
      ConvergedIsQuiet(spec, p);
    }
  }

  lemma QuietIsConverged(spec: Spec, p: Pass)
    requires IsPass(spec, p) && Quiet(spec, p)
    ensures Converged(spec, p.s0)
  {
    forall u | u in p.s0
      ensures && p.s0[u].kind == spec.kind && p.s0[u].pool.Some? && p.s0[u].pool.value in p.heads
              && u == p.heads[p.s0[u].pool.value]
    {
      assert u !in OtherKind(p.s0, spec.kind);
      assert u in OfKind(p.s0, spec.kind) && u !in Duplicates(p.s0, spec.kind, p.heads);
      HeadOfItsPool(spec, p, u);
    }
    forall name | name in p.heads
      ensures name in Topology(spec.pools) && !NeedsUpdate(spec, name, p.s0[p.heads[name]])
    {
      assert name !in Deletes(spec, p.heads);
      assert name !in Outdated(spec, p.s0, p.heads);
    }
    forall name | name in Topology(spec.pools) ensures Of(p.s0, spec.kind, name) != {} {
      assert name !in Creates(spec, p.heads);
      assert p.heads[name] in Of(p.s0, spec.kind, name);
    }
    hide IsPass, Quiet, IsHeads, NeedsUpdate, Topology, Of;
  }

  lemma HeadOfItsPool(spec: Spec, p: Pass, u: nat)
    requires IsHeads(p.s0, spec.kind, p.heads) && u in OfKind(p.s0, spec.kind)
    requires u !in Duplicates(p.s0, spec.kind, p.heads)
    ensures p.s0[u].pool.Some? && p.s0[u].pool.value in p.heads && p.heads[p.s0[u].pool.value] == u
  {
    var name :| name in p.heads && p.heads[name] == u;
    assert u in Of(p.s0, spec.kind, name);
  }

  lemma NothingCreated(s: Store, s': Store, spec: Spec, used: set<nat>, all: bool)
    requires CreatedFor(s, s', spec, {}, used, all)
    ensures s' == s
  {
    assert s'.Keys - s.Keys == {};
    hide Fresh;
  }

  lemma NothingUpdated(s: Store, s': Store, spec: Spec, heads: map<string, nat>, names: seq<string>, tried: nat,
                       errs: set<string>, clean: bool)
    requires UpdatedInOrder(s, s', spec, heads, names, tried, errs, clean) && names == []
    ensures s' == s
  {
    NoElements(names[..tried]);
    hide Apply, SlowStarted;
  }

  lemma QuietKeepsAll(spec: Spec, p: Pass)
    requires IsPass(spec, p) && Quiet(spec, p)
    ensures p.s5 == p.s0
  {
    NothingRemoved(p.s0, p.s1, p.deduped);
    if p.deduped {
      assert HeadsOf(p.heads, Deletes(spec, p.heads)) == {};
      NothingCreated(p.s1, p.s2, spec, p.s0.Keys, p.clean);
      NothingRemoved(p.s2, p.s3, p.clean);
      NothingRemoved(p.s3, p.s4, p.clean && AllLabelled(p.s0, OtherKind(p.s0, spec.kind)));
      Names.ListingIsDuplicateFree({});
      hide UpdatedInOrder, CreatedFor, Removed;
      if p.provisioned {
        NothingUpdated(p.s4, p.s5, spec, p.heads, Queue(spec, p), p.tried, p.errs, p.clean);
      }
    }
  }

  lemma ConvergedIsQuiet(spec: Spec, p: Pass)
    requires IsPass(spec, p) && "" !in Topology(spec.pools) && Converged(spec, p.s0)
    ensures Quiet(spec, p)
  {
    ConvergedIsListed(spec, p);
    ConvergedHasNoSurplus(spec, p);
    ConvergedHasAll(spec, p);
    hide IsPass, Converged, IsHeads, Duplicates, OtherKind, Creates, Deletes, Outdated, Topology;
  }

  lemma ConvergedHasNoSurplus(spec: Spec, p: Pass)
    requires IsHeads(p.s0, spec.kind, p.heads) && Converged(spec, p.s0)
    ensures Duplicates(p.s0, spec.kind, p.heads) == {} && OtherKind(p.s0, spec.kind) == {}
  {
    forall u | u in OfKind(p.s0, spec.kind) ensures u in p.heads.Values {
      ConvergedHead(spec, p, u);
    }
    hide NeedsUpdate, Topology, IsHeads, Of, AtMostOne;
  }

  lemma ConvergedHasAll(spec: Spec, p: Pass)
    requires IsHeads(p.s0, spec.kind, p.heads) && Converged(spec, p.s0)
    ensures Creates(spec, p.heads) == {} && Deletes(spec, p.heads) == {} && Outdated(spec, p.s0, p.heads) == {}
  {
    forall name | name in p.heads
      ensures name in Topology(spec.pools) && !NeedsUpdate(spec, name, p.s0[p.heads[name]])
    {
      ConvergedPool(spec, p, name);
    }
    forall name | name in Topology(spec.pools) ensures name in p.heads {
      var u :| u in Of(p.s0, spec.kind, name);
    }
    hide NeedsUpdate, Topology, Converged, IsHeads, Of;
  }

  lemma ConvergedIsListed(spec: Spec, p: Pass)
    requires IsPass(spec, p) && "" !in Topology(spec.pools) && Converged(spec, p.s0)
    ensures p.listed && IsHeads(p.s0, spec.kind, p.heads)
  {
    hide NeedsUpdate, Topology, IsHeads, Removed, Provision, UpdatedInOrder, Outdated, Quiet, AtMostOne, Of;
  }

  lemma ConvergedHead(spec: Spec, p: Pass, u: nat)
    requires IsHeads(p.s0, spec.kind, p.heads) && Converged(spec, p.s0) && u in OfKind(p.s0, spec.kind)
    ensures u in p.heads.Values
  {
    var name := p.s0[u].pool.value;
    assert p.heads[name] in Of(p.s0, spec.kind, name);
    hide NeedsUpdate, Topology;
  }

  lemma ConvergedPool(spec: Spec, p: Pass, name: string)
    requires IsHeads(p.s0, spec.kind, p.heads) && Converged(spec, p.s0) && name in p.heads
    ensures p.heads[name] in p.s0 && name in Topology(spec.pools) && !NeedsUpdate(spec, name, p.s0[p.heads[name]])
  {
    assert p.heads[name] in Of(p.s0, spec.kind, name);
    hide NeedsUpdate, Topology;
  }

  // ---------- A pass without failures ----------

  /** What a pass without failures does before the updates: it removes all that it sets out to remove. */
  ghost predicate Swept(spec: Spec, p: Pass) {
    && IsHeads(p.s0, spec.kind, p.heads) && AllLabelled(p.s0, p.s0.Keys)
    && p.s1 == p.s0 - Duplicates(p.s0, spec.kind, p.heads)
    && Sub(p.s1, p.s2) && p.s2.Keys * p.s0.Keys == p.s1.Keys
    && p.s3 == p.s2 - HeadsOf(p.heads, Deletes(spec, p.heads))
    && p.s4 == p.s3 - OtherKind(p.s3, spec.kind)
    && p.s5.Keys == p.s4.Keys
  }

  lemma AllRemoved(s: Store, s': Store, us: set<nat>)
    requires Removed(s, s', us, true)
    ensures s' == s - us
  {
  }

  lemma CleanReachesTheEnd(spec: Spec, p: Pass)
    requires IsPass(spec, p) && p.clean && AllLabelled(p.s0, p.s0.Keys)
    ensures p.listed && p.deduped && p.provisioned && Swept(spec, p)
  {
    AllRemoved(p.s0, p.s1, Duplicates(p.s0, spec.kind, p.heads));
    AllRemoved(p.s2, p.s3, HeadsOf(p.heads, Deletes(spec, p.heads)));
    AllRemoved(p.s3, p.s4, OtherKind(p.s3, spec.kind));
    hide Removed, IsHeads, Quiet, Fresh, Duplicates, HeadsOf, Deletes, OtherKind, Creates, Queue, SlowStarted, Refused;
  }

  /** What is left of the old workloads: the heads of the topology pools. */
  lemma OldIsKeptHead(spec: Spec, p: Pass, u: nat)
    requires Swept(spec, p) && u in p.s0 && u in p.s5
    ensures p.s0[u].kind == spec.kind && p.s0[u].pool.Some?
    ensures var name := p.s0[u].pool.value; name in p.heads && u == p.heads[name] && name in Topology(spec.pools)
    ensures u in p.s4 && p.s4[u] == p.s0[u]
  {
    assert u in p.s1 && p.s3[u] == p.s0[u] && p.s4[u] == p.s0[u];
    assert u !in OtherKind(p.s3, spec.kind);
    assert u in OfKind(p.s0, spec.kind) && u !in Duplicates(p.s0, spec.kind, p.heads);
    HeadOfItsPool(spec, p, u);
    var name := p.s0[u].pool.value;
    assert name in Deletes(spec, p.heads) ==> u in HeadsOf(p.heads, Deletes(spec, p.heads));
  }

  /** Every workload after a clean reconcile is the head of its pool, or new in a pool that had none. */
  ghost predicate Side(spec: Spec, p: Pass, u: nat)
    requires u in p.s5
  {
    && p.s5[u].kind == spec.kind && p.s5[u].pool.Some? && p.s5[u].pool.value in Topology(spec.pools)
    && var name := p.s5[u].pool.value;
       if u in p.s0 then name in p.heads && u == p.heads[name] && u in p.s4 && p.s4[u] == p.s0[u]
       else name !in p.heads && u in p.s2 && u !in p.s1 && p.s2[u] == p.s5[u] == Fresh(spec, name)
  }

  lemma SideOf(spec: Spec, p: Pass, u: nat)
    requires IsPass(spec, p) && Swept(spec, p) && u in p.s5
    ensures Side(spec, p, u)
  {
    hide IsPass, Fresh;
    if u in p.s0 {
      OldIsKeptHead(spec, p, u);
      IdentityIsKept(spec, p, u);
    } else {
      CreatedAt(spec, p, u);
      NewIsFresh(spec, p, u);
    }
  }

  lemma SideIsSingle(spec: Spec, p: Pass, all: bool, u: nat, v: nat)
    requires CreatedFor(p.s1, p.s2, spec, Creates(spec, p.heads), p.s0.Keys, all)
    requires u in p.s5 && v in p.s5 && Side(spec, p, u) && Side(spec, p, v) && p.s5[u].pool == p.s5[v].pool
    ensures u == v
  {
    hide Fresh, Topology;
  }

  lemma PassCreates(spec: Spec, p: Pass)
    requires IsPass(spec, p) && p.listed && p.deduped
    ensures CreatedFor(p.s1, p.s2, spec, Creates(spec, p.heads), p.s0.Keys, p.clean)
  {
    hide CreatedFor, Creates;
  }

  lemma CleanHas(spec: Spec, p: Pass, name: string)
    requires IsPass(spec, p) && p.clean && AllLabelled(p.s0, p.s0.Keys) && name in Topology(spec.pools)
    ensures Of(p.s5, spec.kind, name) != {}
  {
    CleanReachesTheEnd(spec, p);
    if Of(p.s0, spec.kind, name) != {} {
      HeadSurvives(spec, p, name);
    } else {
      assert name in Creates(spec, p.heads);
      var u :| u in p.s2.Keys - p.s1.Keys && p.s2[u].pool == Some(name);
      CreatedStays(spec, p, u);
      assert u in Of(p.s5, spec.kind, name);
    }
  }

  lemma CreatedStays(spec: Spec, p: Pass, u: nat)
    requires IsPass(spec, p) && u in p.s2 && u !in p.s1
    ensures p.listed && p.deduped && p.provisioned ==>
              u in p.s5 && p.s5[u] == p.s2[u] && p.s2[u].kind == spec.kind
  {
    if p.listed && p.deduped && p.provisioned {
      CreatedStaysToTheEnd(spec, p, u);
    }
    hide *;
  }

  lemma CreatedStaysToTheEnd(spec: Spec, p: Pass, u: nat)
    requires Provision(spec, p) && IsHeads(p.s0, spec.kind, p.heads) && Sub(p.s1, p.s0) && u in p.s2 && u !in p.s1
    requires UpdatedInOrder(p.s4, p.s5, spec, p.heads, Queue(spec, p), p.tried, p.errs, p.clean)
    ensures u in p.s5 && p.s5[u] == p.s2[u] && p.s2[u].kind == spec.kind
  {
    forall name | name in p.heads ensures p.heads[name] != u {
      assert p.heads[name] in p.s0;
    }
    assert u !in HeadsOf(p.heads, Deletes(spec, p.heads));
    FreshKind(spec, p, u);
    hide NeedsUpdate, Fresh, Apply, Duplicates, IsHeads, Quiet, Deletes, HeadsOf, Creates, AllLabelled, Queue,
         SlowStarted, Elements;
  }

  lemma FreshKind(spec: Spec, p: Pass, u: nat)
    requires Provision(spec, p) && u in p.s2 && u !in p.s1
    ensures p.s2[u].kind == spec.kind
  {
    hide Removed, Creates, NeedsUpdate, AllLabelled;
  }

  // ---------- Which pools are updated ----------

  /** Which updates are refused, by position. */
  function RefusedAt(spec: Spec, names: seq<string>): int -> bool {
    j => 0 <= j < |names| && !Appliable(spec, names[j])
  }

  /** Without API failures, the calls made are those that slow start makes when exactly the refused ones fail. */
  lemma RefusalsDecide(spec: Spec, names: seq<string>, tried: nat, errs: set<string>)
    requires Distinct(names) && SlowStarted(names, tried, errs) && errs == Refused(spec, Elements(names[..tried]))
    ensures tried == Calls(|names|, INITIAL_BATCH_SIZE, RefusedAt(spec, names))
  {
    forall i | 0 <= i < tried ensures ErrorAt(names, errs)(i) == RefusedAt(spec, names)(i) {
      assert names[..tried][i] == names[i] && names[i] in Elements(names[..tried]);
    }
    hide Appliable, Elements, Calls;
    CallsAgree(|names|, INITIAL_BATCH_SIZE, ErrorAt(names, errs), RefusedAt(spec, names));
  }

  lemma HeadsDiffer(s: Store, kind: Kind, heads: map<string, nat>)
    requires IsHeads(s, kind, heads)
    ensures forall a, b :: a in heads && b in heads && a != b ==> heads[a] != heads[b]
  {
    forall a, b | a in heads && b in heads && a != b ensures heads[a] != heads[b] {
      assert heads[a] in Of(s, kind, a) && heads[b] in Of(s, kind, b);
    }
  }

  lemma OnlyTriedChange(s: Store, s': Store, spec: Spec, heads: map<string, nat>, names: seq<string>, tried: nat,
                        errs: set<string>, name: string)
    requires Distinct(names) && tried <= |names| && Elements(names[..tried]) <= heads.Keys && name in heads
    requires forall a, b :: a in heads && b in heads && a != b ==> heads[a] != heads[b]
    requires UpdatedFor(s, s', spec, heads, Elements(names[..tried]), errs) && heads[name] in s
    requires errs == Refused(spec, Elements(names[..tried]))
    ensures heads[name] in s'
    ensures var w, w' := s[heads[name]], s'[heads[name]];
            if name in Elements(names[..tried]) && Appliable(spec, name) then Some(w') == Apply(spec, name, w)
            else w' == w
  {
    AppliesIff(spec, name, s[heads[name]]);
    hide Apply, Appliable, Elements;
  }

  lemma ElementAt(names: seq<string>, k: nat, i: nat)
    requires Distinct(names) && k <= |names| && i < |names|
    ensures names[i] in Elements(names[..k]) <==> i < k
  {
    if i < k {
      assert names[..k][i] == names[i];
    } else {
      ElementsSplit(names, k, |names|);
      assert names[k..][i - k] == names[i] && names[k..|names|] == names[k..];
    }
  }

  /** The i-th outdated pool's workload is rewritten exactly if its template applies and slow start comes that far. */
  ghost predicate RewrittenIff(spec: Spec, p: Pass, i: nat)
    requires i < |Queue(spec, p)|
  {
    var names := Queue(spec, p);
    var name := names[i];
    && name in p.heads && p.heads[name] in p.s0 && p.heads[name] in p.s5
    && var w, w' := p.s0[p.heads[name]], p.s5[p.heads[name]];
       if Appliable(spec, name) && i < Calls(|names|, INITIAL_BATCH_SIZE, RefusedAt(spec, names))
       then Some(w') == Apply(spec, name, w) else w' == w
  }

  /**
    Without API failures, exactly these outdated workloads are rewritten: those whose template applies and that come
    before slow start ends. It ends with the first batch that holds a pool whose patch does not apply.
   */
  lemma RewrittenExactly(spec: Spec, p: Pass)
    requires IsPass(spec, p) && p.clean && p.listed && p.provisioned
    ensures forall i :: 0 <= i < |Queue(spec, p)| ==> RewrittenIff(spec, p, i)
  {
    forall i | 0 <= i < |Queue(spec, p)| ensures RewrittenIff(spec, p, i) {
      RewrittenAt(spec, p, i);
    }
    hide *;
  }

  lemma RewrittenAt(spec: Spec, p: Pass, i: nat)
    requires IsPass(spec, p) && p.clean && p.listed && p.provisioned && i < |Queue(spec, p)|
    ensures RewrittenIff(spec, p, i)
  {
    var names := Queue(spec, p);
    QueuedIsThere(spec, p, i);
    PassUpdates(spec, p);
    QueueIsDistinct(spec, p);
    HeadsDiffer(p.s0, spec.kind, p.heads);
    RefusalsDecide(spec, names, p.tried, p.errs);
    TriedIsWithin(names, p.tried, p.errs);
    ElementAt(names, p.tried, i);
    hide IsPass, IsHeads, Calls, SlowStarted, UpdatedInOrder, UpdatedFor, Apply, Appliable, Elements, Distinct, Refused,
         Queue, Outdated, RefusedAt;
    OnlyTriedChange(p.s4, p.s5, spec, p.heads, names, p.tried, p.errs, names[i]);
  }

  lemma QueueIsDistinct(spec: Spec, p: Pass)
    ensures Distinct(Queue(spec, p)) && Elements(Queue(spec, p)) == Outdated(spec, p.s0, p.heads)
  {
    ListingElements(Outdated(spec, p.s0, p.heads));
    hide Outdated, Elements, Distinct;
  }

  /** The listed workload of an outdated pool is still as it was listed when updates begin. */
  lemma QueuedIsThere(spec: Spec, p: Pass, i: nat)
    requires IsPass(spec, p) && p.listed && p.deduped && i < |Queue(spec, p)|
    ensures var name := Queue(spec, p)[i];
            && name in p.heads && p.heads[name] in p.s0 && p.heads[name] in p.s4
            && p.s4[p.heads[name]] == p.s0[p.heads[name]]
  {
    var name := Queue(spec, p)[i];
    QueueIsDistinct(spec, p);
    assert name in Elements(Queue(spec, p));
    OutdatedIsKept(spec, p, name);
    HeadIsNotSurplus(spec, p, name);
    HeadStays(spec, p, p.heads[name]);
    SameBeforeUpdates(spec, p, p.heads[name]);
    hide *;
  }

  lemma OutdatedIsKept(spec: Spec, p: Pass, name: string)
    requires name in Outdated(spec, p.s0, p.heads)
    ensures name in p.heads && name in Topology(spec.pools)
  {
    hide NeedsUpdate, Topology;
  }

  lemma SameBeforeUpdates(spec: Spec, p: Pass, u: nat)
    requires IsPass(spec, p) && p.listed && p.deduped && u in p.s0 && u in p.s4
    ensures p.s4[u] == p.s0[u]
  {
    hide NeedsUpdate, Fresh, Duplicates, IsHeads, Quiet, Deletes, HeadsOf, Creates, OtherKind, AllLabelled,
         UpdatedInOrder;
  }

  /** The updates change no other workload, whatever fails. */
  lemma OnlyQueuedChange(spec: Spec, p: Pass, u: nat)
    requires IsPass(spec, p) && p.listed && p.deduped && p.provisioned
    requires forall i :: 0 <= i < |Queue(spec, p)| ==> Queue(spec, p)[i] in p.heads && p.heads[Queue(spec, p)[i]] != u
    ensures u in p.s5 <==> u in p.s4
    ensures u in p.s4 ==> p.s5[u] == p.s4[u]
  {
    var names := Queue(spec, p);
    PassUpdates(spec, p);
    TriedIsWithin(names, p.tried, p.errs);
    PrefixElements(names, p.tried);
    NotQueued(names, p.heads, u);
    OrderUpdates(p.s4, p.s5, spec, p.heads, names, p.tried, p.errs, p.clean);
    hide *;
    NotTried(p.s4, p.s5, spec, p.heads, Elements(names[..p.tried]), p.errs, u);
  }

  lemma NotQueued(names: seq<string>, heads: map<string, nat>, u: nat)
    requires forall i :: 0 <= i < |names| ==> names[i] in heads && heads[names[i]] != u
    ensures forall name :: name in Elements(names) ==> name in heads && heads[name] != u
  {
  }

  lemma OrderUpdates(s: Store, s': Store, spec: Spec, heads: map<string, nat>, names: seq<string>, tried: nat,
                     errs: set<string>, clean: bool)
    requires UpdatedInOrder(s, s', spec, heads, names, tried, errs, clean)
    ensures tried <= |names| && Elements(names[..tried]) <= heads.Keys
    ensures UpdatedFor(s, s', spec, heads, Elements(names[..tried]), errs)
  {
    hide UpdatedFor, Elements, Refused, Calls;
  }

  lemma NotTried(s: Store, s': Store, spec: Spec, heads: map<string, nat>, tried: set<string>, errs: set<string>,
                 u: nat)
    requires tried <= heads.Keys && UpdatedFor(s, s', spec, heads, tried, errs)
    requires forall name :: name in tried ==> heads[name] != u
    ensures u in s' <==> u in s
    ensures u in s ==> s'[u] == s[u]
  {
    hide Apply;
  }

  ghost predicate StaysAsListed(spec: Spec, p: Pass, i: nat)
    requires i < |Queue(spec, p)|
  {
    var name := Queue(spec, p)[i];
    && name in p.heads && p.heads[name] in p.s0 && p.heads[name] in p.s5
    && p.s5[p.heads[name]] == p.s0[p.heads[name]]
  }

  /** API failures never help a pool that comes after the end of slow start: its workload stays as it is. */
  lemma StarvedStays(spec: Spec, p: Pass)
    requires IsPass(spec, p) && p.listed && p.deduped
    ensures var names := Queue(spec, p);
            forall i :: Calls(|names|, INITIAL_BATCH_SIZE, RefusedAt(spec, names)) <= i < |names| ==>
              StaysAsListed(spec, p, i)
  {
    forall i | Calls(|Queue(spec, p)|, INITIAL_BATCH_SIZE, RefusedAt(spec, Queue(spec, p))) <= i < |Queue(spec, p)|
      ensures StaysAsListed(spec, p, i)
    {
      StarvedAt(spec, p, i);
    }
    hide *;
  }

  lemma StarvedAt(spec: Spec, p: Pass, i: nat)
    requires IsPass(spec, p) && p.listed && p.deduped && i < |Queue(spec, p)|
    requires i >= Calls(|Queue(spec, p)|, INITIAL_BATCH_SIZE, RefusedAt(spec, Queue(spec, p)))
    ensures StaysAsListed(spec, p, i)
  {
    hide IsPass, Calls, RefusedAt, Queue, UpdatedInOrder, Distinct, IsHeads;
    var names := Queue(spec, p);
    QueuedIsThere(spec, p, i);
    if p.provisioned {
      PassUpdates(spec, p);
      AllQueuedAreThere(spec, p);
      LateIsUntried(p.s4, p.s5, spec, p.heads, names, p.tried, p.errs, p.clean, i);
    } else {
      UnprovisionedEnds(spec, p);
    }
  }

  lemma AllQueuedAreThere(spec: Spec, p: Pass)
    requires IsPass(spec, p) && p.listed && p.deduped && p.provisioned
    ensures forall k :: 0 <= k < |Queue(spec, p)| ==> Queue(spec, p)[k] in p.heads && p.heads[Queue(spec, p)[k]] in p.s4
    ensures Distinct(Queue(spec, p))
    ensures forall a, b :: a in p.heads && b in p.heads && a != b ==> p.heads[a] != p.heads[b]
  {
    PassUpdates(spec, p);
    QueueIsDistinct(spec, p);
    HeadsDiffer(p.s0, spec.kind, p.heads);
    hide *;
    forall k | 0 <= k < |Queue(spec, p)|
      ensures Queue(spec, p)[k] in p.heads && p.heads[Queue(spec, p)[k]] in p.s4
    {
      QueuedIsThere(spec, p, k);
    }
  }

  lemma LateIsUntried(s: Store, s': Store, spec: Spec, heads: map<string, nat>, names: seq<string>, tried: nat,
                      errs: set<string>, clean: bool, i: nat)
    requires UpdatedInOrder(s, s', spec, heads, names, tried, errs, clean) && Distinct(names) && i < |names|
    requires forall a, b :: a in heads && b in heads && a != b ==> heads[a] != heads[b]
    requires forall k :: 0 <= k < |names| ==> names[k] in heads && heads[names[k]] in s
    requires i >= Calls(|names|, INITIAL_BATCH_SIZE, RefusedAt(spec, names))
    ensures heads[names[i]] in s' && s'[heads[names[i]]] == s[heads[names[i]]]
  {
    hide *;
    OrderUpdates(s, s', spec, heads, names, tried, errs, clean);
    OrderStarts(s, s', spec, heads, names, tried, errs, clean);
    RefusalsShorten(s, s', spec, heads, names, tried, errs);
    ElementAt(names, tried, i);
    OthersDiffer(names, tried, heads, names[i]);
    NotTried(s, s', spec, heads, Elements(names[..tried]), errs, heads[names[i]]);
  }

  lemma UnprovisionedEnds(spec: Spec, p: Pass)
    requires IsPass(spec, p) && p.listed && p.deduped && !p.provisioned
    ensures p.s5 == p.s4
  {
    hide UpdatedInOrder, IsHeads, Queue, Provision, Quiet, Removed;
  }

  lemma OrderStarts(s: Store, s': Store, spec: Spec, heads: map<string, nat>, names: seq<string>, tried: nat,
                    errs: set<string>, clean: bool)
    requires UpdatedInOrder(s, s', spec, heads, names, tried, errs, clean)
    ensures SlowStarted(names, tried, errs)
  {
    hide UpdatedFor, Elements, Refused, SlowStarted;
  }

  lemma OthersDiffer(names: seq<string>, tried: nat, heads: map<string, nat>, name: string)
    requires tried <= |names| && Elements(names[..tried]) <= heads.Keys && name in heads
    requires forall a, b :: a in heads && b in heads && a != b ==> heads[a] != heads[b]
    requires name !in Elements(names[..tried])
    ensures forall other :: other in Elements(names[..tried]) ==> heads[other] != heads[name]
  {
    hide Elements;
  }

  /** What is refused errs, so no more is tried than if only refusals erred. */
  lemma RefusalsShorten(s: Store, s': Store, spec: Spec, heads: map<string, nat>, names: seq<string>, tried: nat,
                        errs: set<string>)
    requires SlowStarted(names, tried, errs) && Elements(names[..tried]) <= heads.Keys
    requires UpdatedFor(s, s', spec, heads, Elements(names[..tried]), errs)
    requires forall k :: 0 <= k < |names| ==> names[k] in heads && heads[names[k]] in s
    ensures tried <= Calls(|names|, INITIAL_BATCH_SIZE, RefusedAt(spec, names))
  {
    forall k | 0 <= k < tried && RefusedAt(spec, names)(k) ensures ErrorAt(names, errs)(k) {
      assert names[..tried][k] == names[k] && names[k] in Elements(names[..tried]);
      AppliesIff(spec, names[k], s[heads[names[k]]]);
    }
    hide Appliable, Apply, Elements, Calls, UpdatedFor;
    CallsShorten(|names|, INITIAL_BATCH_SIZE, RefusedAt(spec, names), ErrorAt(names, errs));
  }

  lemma TriedIsWithin(names: seq<string>, tried: nat, errs: set<string>)
    requires SlowStarted(names, tried, errs)
    ensures tried <= |names|
  {
  }

  /** If every outdated pool's template applies, all of them are tried. */
  lemma AllAreTried(spec: Spec, names: seq<string>)
    requires forall i :: 0 <= i < |names| ==> Appliable(spec, names[i])
    ensures Calls(|names|, INITIAL_BATCH_SIZE, RefusedAt(spec, names)) == |names|
  {
    AllSucceedIff(|names|, INITIAL_BATCH_SIZE, RefusedAt(spec, names));
    FailuresBound(RefusedAt(spec, names), 0, |names|);
    hide Appliable, Failures;
  }

  const STARVING_SPEC :=
    Spec(Deployment, [Pool("a", Some(1), Some(Patch("bad", false, None))), Pool("b", Some(1), None)], "r2")
  const STARVING_STORE: Store := map[1 := Workload(Deployment, Some("a"), "r1", 1, "bad"),
                                     2 := Workload(Deployment, Some("b"), "r1", 1, "")]
  const STARVING_HEADS: map<string, nat> := map["a" := 1, "b" := 2]

  lemma StarvingOutdated()
    ensures Topology(STARVING_SPEC.pools) == {"a", "b"}
    ensures Outdated(STARVING_SPEC, STARVING_STORE, STARVING_HEADS) == {"a", "b"}
    ensures !Appliable(STARVING_SPEC, "a") && Appliable(STARVING_SPEC, "b")
  {
    var pools := STARVING_SPEC.pools;
    assert "a"[0] != "b"[0] && "r1"[1] != "r2"[1];
    assert pools[0].name == "a" && pools[1].name == "b" && pools[0] in pools && pools[1] in pools;
    assert pools[1..] == [pools[1]];
    assert Config(pools, "b") == Some(pools[1]);
  }

  lemma StarvingQueue()
    ensures Names.Listing({"a", "b"}) == ["a", "b"]
    ensures SlowStarted(["a", "b"], 1, {"a"}) && Elements(["a", "b"][..1]) == {"a"}
  {
    var names := ["a", "b"];
    assert Names.Less("a", "b");
    assert "a"[0] != "b"[0];
    Names.StrictIsListing(names, {"a", "b"});
    assert names[..1] == ["a"] && ["a"][0] == "a";
    var fails := ErrorAt(names, {"a"});
    assert fails(0);
    assert Failures(fails, 0, 1) == 1;
  }

  lemma StarvingStart()
    ensures STARVING_SPEC.kind == Deployment && STARVING_HEADS.Keys == {"a", "b"}
    ensures IsHeads(STARVING_STORE, Deployment, STARVING_HEADS)
    ensures Duplicates(STARVING_STORE, Deployment, STARVING_HEADS) == {} && OtherKind(STARVING_STORE, Deployment) == {}
  {
    assert "a"[0] != "b"[0];
    assert STARVING_HEADS["a"] == 1 && STARVING_HEADS["b"] == 2;
  }

  /**
    A pool whose template applies can be starved: "b" is outdated and nothing fails, but the first batch holds only "a",
    whose patch does not apply, and no batch follows. The next reconcile finds the same store.
   */
  lemma AppliablePoolStarves() returns (p: Pass)
    ensures IsPass(STARVING_SPEC, p) && p.clean && p.listed && p.provisioned
    ensures Queue(STARVING_SPEC, p) == ["a", "b"] && Appliable(STARVING_SPEC, "b")
    ensures p.s5 == p.s0 == STARVING_STORE
  {
    StarvingOutdated();
    StarvingQueue();
    StarvingStart();
    StarvingUpdate();
    AllAreLabelled();
    hide *;
    p := IdlePass(STARVING_SPEC, STARVING_STORE, STARVING_HEADS, ["a", "b"], 1, {"a"});
  }

  lemma OnlyStarvingHeads(heads: map<string, nat>)
    requires IsHeads(STARVING_STORE, Deployment, heads)
    ensures heads == STARVING_HEADS
  {
    var s := STARVING_STORE;
    assert "a"[0] != "b"[0];
    assert 1 in OfKind(s, Deployment) && 2 in OfKind(s, Deployment);
    assert s[1].pool == Some("a") && s[2].pool == Some("b");
    assert heads["a"] in Of(s, Deployment, "a") && heads["b"] in Of(s, Deployment, "b");
    forall name | name in heads ensures name in STARVING_HEADS {
      assert heads[name] in Of(s, Deployment, name);
    }
  }

  lemma IdleUntilUpdates(spec: Spec, p: Pass)
    requires IsPass(spec, p) && p.listed
    requires Duplicates(p.s0, spec.kind, p.heads) == {} && OtherKind(p.s0, spec.kind) == {}
    requires Topology(spec.pools) == p.heads.Keys
    ensures p.s1 == p.s0 && (!p.deduped ==> p.s5 == p.s0) && (p.deduped ==> p.s4 == p.s0)
    ensures p.deduped && !p.provisioned ==> p.s5 == p.s0
  {
    NothingRemoved(p.s0, p.s1, p.deduped);
    assert Creates(spec, p.heads) == {} && HeadsOf(p.heads, Deletes(spec, p.heads)) == {};
    if p.deduped {
      NothingCreated(p.s1, p.s2, spec, p.s0.Keys, p.clean);
      NothingRemoved(p.s2, p.s3, p.clean);
      NothingRemoved(p.s3, p.s4, p.clean && AllLabelled(p.s0, OtherKind(p.s0, spec.kind)));
    }
    hide Duplicates, OtherKind, IsHeads, CreatedFor, Removed, UpdatedInOrder, AllLabelled, Queue, OfKind, Creates,
         Deletes, HeadsOf, Quiet, Topology;
  }

  lemma StarvingCalls()
    ensures Calls(2, INITIAL_BATCH_SIZE, RefusedAt(STARVING_SPEC, ["a", "b"])) == 1
  {
    StarvingOutdated();
    var fails := RefusedAt(STARVING_SPEC, ["a", "b"]);
    hide Appliable;
    assert fails(0);
    assert Failures(fails, 0, 1) == 1;
  }

  /**
    And it starves for good: whatever the API calls do, no reconcile of this store changes it, so "b" is never updated.
   */
  lemma StarvesForGood(p: Pass)
    requires IsPass(STARVING_SPEC, p) && p.s0 == STARVING_STORE
    ensures p.s5 == STARVING_STORE
  {
    StarvingPass(p);
    StarvingOutdated();
    StarvingQueue();
    StarvingStart();
    StarvingCalls();
    hide *;
    IdleUntilUpdates(STARVING_SPEC, p);
    if p.deduped && p.provisioned {
      QueueOf(STARVING_SPEC, p);
      StarvedAt(STARVING_SPEC, p, 1);
      StaysMeans(STARVING_SPEC, p, 1);
      StuckPool(STARVING_SPEC, p, "a");
      KeysStay(STARVING_SPEC, p);
      StarvingSame(p.s5);
    }
  }

  lemma StaysMeans(spec: Spec, p: Pass, i: nat)
    requires i < |Queue(spec, p)| && StaysAsListed(spec, p, i)
    ensures var name := Queue(spec, p)[i];
            name in p.heads && p.heads[name] in p.s5 && p.heads[name] in p.s0 &&
            p.s5[p.heads[name]] == p.s0[p.heads[name]]
  {
    hide Queue;
  }

  lemma KeysStay(spec: Spec, p: Pass)
    requires IsPass(spec, p) && p.listed && p.deduped && p.provisioned
    ensures p.s5.Keys == p.s4.Keys
  {
    PassUpdates(spec, p);
    OrderUpdates(p.s4, p.s5, spec, p.heads, Queue(spec, p), p.tried, p.errs, p.clean);
    hide IsPass, Queue, Elements, Apply, UpdatedInOrder;
  }

  lemma StarvingPass(p: Pass)
    requires IsPass(STARVING_SPEC, p) && p.s0 == STARVING_STORE
    ensures p.listed && p.heads == STARVING_HEADS
  {
    AllAreLabelled();
    assert p.listed && IsHeads(STARVING_STORE, Deployment, p.heads) by {
      hide IsHeads, Provision, UpdatedInOrder, Quiet, Removed, Queue, Duplicates, Labelled;
    }
    hide *;
    OnlyStarvingHeads(p.heads);
  }

  lemma StarvingSame(s: Store)
    requires s.Keys == STARVING_STORE.Keys
    requires s[STARVING_HEADS["a"]] == STARVING_STORE[STARVING_HEADS["a"]]
    requires s[STARVING_HEADS["b"]] == STARVING_STORE[STARVING_HEADS["b"]]
    ensures s == STARVING_STORE
  {
    assert "a"[0] != "b"[0];
    assert STARVING_HEADS["a"] == 1 && STARVING_HEADS["b"] == 2;
  }

  lemma IdlePass(spec: Spec, s: Store, heads: map<string, nat>, names: seq<string>, tried: nat, errs: set<string>)
    returns (p: Pass)
    requires IsHeads(s, spec.kind, heads) && AllLabelled(s, s.Keys)
    requires Duplicates(s, spec.kind, heads) == {} && OtherKind(s, spec.kind) == {}
    requires Topology(spec.pools) == heads.Keys
    requires names == Names.Listing(Outdated(spec, s, heads))
    requires UpdatedInOrder(s, s, spec, heads, names, tried, errs, true)
    ensures IsPass(spec, p) && p.clean && p.listed && p.provisioned && p.s5 == p.s0 == s && Queue(spec, p) == names
  {
    p := Pass(s, heads, s, s, s, s, s, true, true, true, Reported(0, 0, 0), tried, errs, true, 0);
    QueueOf(spec, p);
    hide *;
    IdleIsPass(spec, p);
  }

  lemma QueueOf(spec: Spec, p: Pass)
    ensures Queue(spec, p) == Names.Listing(Outdated(spec, p.s0, p.heads))
  {
  }

  /** A pass that changes nothing: there is nothing to create or delete, and its updates leave the store alone. */
  lemma IdleIsPass(spec: Spec, p: Pass)
    requires p.s0 == p.s1 == p.s2 == p.s3 == p.s4 == p.s5 && p.listed && p.deduped && p.provisioned && p.calls == 0
    requires NoneReported(p.reported)
    requires IsHeads(p.s0, spec.kind, p.heads) && AllLabelled(p.s0, p.s0.Keys)
    requires Duplicates(p.s0, spec.kind, p.heads) == {} && OtherKind(p.s0, spec.kind) == {}
    requires Topology(spec.pools) == p.heads.Keys
    requires UpdatedInOrder(p.s4, p.s5, spec, p.heads, Queue(spec, p), p.tried, p.errs, p.clean)
    ensures IsPass(spec, p)
  {
    IdleProvision(p.s0, spec);
    assert Creates(spec, p.heads) == {} && Deletes(spec, p.heads) == {} && HeadsOf(p.heads, {}) == {};
    assert AllLabelled(p.s0, OfKind(p.s0, spec.kind)) && AllLabelled(p.s0, {});
    hide Topology, Outdated, Duplicates, OtherKind, IsHeads, CreatedFor, Removed, UpdatedInOrder, AllLabelled, Queue,
         OfKind, Creates, Deletes, HeadsOf;
  }

  lemma StarvingUpdate()
    ensures UpdatedInOrder(STARVING_STORE, STARVING_STORE, STARVING_SPEC, STARVING_HEADS, ["a", "b"], 1, {"a"}, true)
  {
    StarvingQueue();
    StarvingOutdated();
    hide Appliable, Apply, SlowStarted, Elements, Topology, Outdated;
  }

  lemma IdleProvision(s: Store, spec: Spec)
    ensures forall all :: CreatedFor(s, s, spec, {}, s.Keys, all) && Removed(s, s, {}, all)
  {
    hide Fresh;
  }

  lemma AllAreLabelled()
    ensures AllLabelled(STARVING_STORE, STARVING_STORE.Keys)
  {
  }

  // ---------- Convergence ----------

  /** The pool's workload will be as wanted after a reconcile in which nothing fails. */
  ghost predicate WillSettle(spec: Spec, p: Pass, name: string) {
    || (Config(spec.pools, name).Some? && Steady(Config(spec.pools, name).value))
    || (name in p.heads && name !in Outdated(spec, p.s0, p.heads))
  }

  lemma PassUpdates(spec: Spec, p: Pass)
    requires IsPass(spec, p) && p.listed && p.deduped && p.provisioned
    ensures UpdatedInOrder(p.s4, p.s5, spec, p.heads, Queue(spec, p), p.tried, p.errs, p.clean)
    ensures IsHeads(p.s0, spec.kind, p.heads)
  {
    hide UpdatedInOrder, IsHeads, Queue, Provision, Quiet, Removed;
  }

  /** How the update phase leaves the head of a pool: rewritten if outdated and if the template applies to all such. */
  ghost predicate HeadUpdated(spec: Spec, p: Pass, name: string)
    requires name in p.heads && p.heads[name] in p.s4 && p.heads[name] in p.s5
  {
    var w, w' := p.s4[p.heads[name]], p.s5[p.heads[name]];
    if name in Outdated(spec, p.s0, p.heads) then Some(w') == Apply(spec, name, w) else w' == w
  }

  lemma HeadIsUpdated(spec: Spec, p: Pass, name: string)
    requires IsHeads(p.s0, spec.kind, p.heads) && p.clean && name in p.heads && p.heads[name] in p.s4
    requires UpdatedInOrder(p.s4, p.s5, spec, p.heads, Queue(spec, p), p.tried, p.errs, p.clean)
    requires forall other :: other in Outdated(spec, p.s0, p.heads) ==> Appliable(spec, other)
    ensures p.heads[name] in p.s5 && HeadUpdated(spec, p, name)
  {
    var names := Queue(spec, p);
    ListingElements(Outdated(spec, p.s0, p.heads));
    HeadsDiffer(p.s0, spec.kind, p.heads);
    AllListedAreTried(spec, names, p.tried, p.errs, Outdated(spec, p.s0, p.heads));
    hide IsPass, IsHeads, SlowStarted, UpdatedFor, Apply, Appliable, Elements, Distinct, Refused, Queue,
         Outdated;
    OnlyTriedChange(p.s4, p.s5, spec, p.heads, names, p.tried, p.errs, name);
  }

  lemma AllListedAreTried(spec: Spec, names: seq<string>, tried: nat, errs: set<string>, outdated: set<string>)
    requires Distinct(names) && Elements(names) == outdated && SlowStarted(names, tried, errs)
    requires errs == Refused(spec, Elements(names[..tried]))
    requires forall name :: name in outdated ==> Appliable(spec, name)
    ensures Elements(names[..tried]) == outdated
  {
    ElementsIn(names, outdated);
    AllAreTried(spec, names);
    hide Elements, Distinct, Refused, Calls, Appliable;
    RefusalsDecide(spec, names, tried, errs);
    assert names[..|names|] == names;
  }

  ghost predicate SettlesAsForeseen(spec: Spec, p: Pass, u: nat)
    requires u in p.s5
  {
    && p.s5[u].pool.Some?
    && (NeedsUpdate(spec, p.s5[u].pool.value, p.s5[u]) <==> !WillSettle(spec, p, p.s5[u].pool.value))
  }

  lemma OldValue(spec: Spec, p: Pass, u: nat)
    requires WellFormed(spec.pools) && u in p.s5 && u in p.s0 && Side(spec, p, u)
    requires HeadUpdated(spec, p, p.s5[u].pool.value)
    ensures SettlesAsForeseen(spec, p, u)
  {
    AppliedIsCurrentIff(spec, p.s5[u].pool.value, p.s4[u]);
    hide WellFormed, Apply, Steady, Config, NeedsUpdate, Topology, Fresh;
  }

  lemma NewValue(spec: Spec, p: Pass, u: nat)
    requires WellFormed(spec.pools) && u in p.s5 && u !in p.s0 && Side(spec, p, u)
    ensures SettlesAsForeseen(spec, p, u)
  {
    AppliedIsCurrentIff(spec, p.s5[u].pool.value, p.s5[u]);
    hide WellFormed, Apply, Steady, Config, NeedsUpdate, Topology, Fresh;
  }

  /**
    From any mix of missing, surplus, duplicate, outdated and wrong-kind workloads that all carry a pool name, one
    reconcile without API failures converges exactly if every pool's patch applies and leaves the replica count alone,
    or the pool's listed workload is already as wanted.
   */
  lemma CleanPassConvergesIff(spec: Spec, p: Pass)
    requires IsPass(spec, p) && p.clean && AllLabelled(p.s0, p.s0.Keys) && WellFormed(spec.pools)
    ensures p.listed && p.deduped && p.provisioned
    ensures Converged(spec, p.s5) <==> forall name :: name in Topology(spec.pools) ==> WillSettle(spec, p, name)
  {
    CleanReachesTheEnd(spec, p);
    AllSides(spec, p);
    AllSingle(spec, p);
    AllHave(spec, p);
    hide *;
    if name :| name in Outdated(spec, p.s0, p.heads) && !Appliable(spec, name) {
      StuckPool(spec, p, name);
    } else {
      AllValues(spec, p);
      ConvergedAsFar(spec, p);
    }
  }

  lemma AllSides(spec: Spec, p: Pass)
    requires IsPass(spec, p) && Swept(spec, p)
    ensures forall u :: u in p.s5 ==> Side(spec, p, u)
  {
    hide *;
    forall u | u in p.s5 ensures Side(spec, p, u) {
      SideOf(spec, p, u);
    }
  }

  lemma AllSingle(spec: Spec, p: Pass)
    requires IsPass(spec, p) && p.listed && p.deduped && forall u :: u in p.s5 ==> Side(spec, p, u)
    ensures forall u, v :: u in p.s5 && v in p.s5 && p.s5[u].pool == p.s5[v].pool ==> u == v
  {
    hide *;
    PassCreates(spec, p);
    forall u, v | u in p.s5 && v in p.s5 && p.s5[u].pool == p.s5[v].pool ensures u == v {
      SideIsSingle(spec, p, p.clean, u, v);
    }
  }

  lemma AllHave(spec: Spec, p: Pass)
    requires IsPass(spec, p) && p.clean && AllLabelled(p.s0, p.s0.Keys)
    ensures forall name :: name in Topology(spec.pools) ==> Of(p.s5, spec.kind, name) != {}
  {
    hide *;
    forall name | name in Topology(spec.pools) ensures Of(p.s5, spec.kind, name) != {} {
      CleanHas(spec, p, name);
    }
  }

  lemma AllValues(spec: Spec, p: Pass)
    requires IsPass(spec, p) && p.clean && p.listed && p.provisioned && WellFormed(spec.pools)
    requires forall u :: u in p.s5 ==> Side(spec, p, u)
    requires forall other :: other in Outdated(spec, p.s0, p.heads) ==> Appliable(spec, other)
    ensures forall u :: u in p.s5 ==> SettlesAsForeseen(spec, p, u)
  {
    PassUpdates(spec, p);
    hide IsPass, WellFormed, HeadUpdated, Outdated, Fresh, Appliable, SettlesAsForeseen, Topology, UpdatedInOrder,
         IsHeads, Queue;
    forall u | u in p.s5 ensures SettlesAsForeseen(spec, p, u) {
      if u in p.s0 {
        HeadIsUpdated(spec, p, p.s5[u].pool.value);
        OldValue(spec, p, u);
      } else {
        NewValue(spec, p, u);
      }
    }
  }

  lemma ConvergedAsFar(spec: Spec, p: Pass)
    requires forall u :: u in p.s5 ==> Side(spec, p, u)
    requires forall name :: name in Topology(spec.pools) ==> Of(p.s5, spec.kind, name) != {}
    requires forall u :: u in p.s5 ==> SettlesAsForeseen(spec, p, u)
    requires forall u, v :: u in p.s5 && v in p.s5 && p.s5[u].pool == p.s5[v].pool ==> u == v
    ensures Converged(spec, p.s5) <==> forall name :: name in Topology(spec.pools) ==> WillSettle(spec, p, name)
  {
    hide WillSettle, NeedsUpdate, Topology, Fresh;
    if Converged(spec, p.s5) {
      forall name | name in Topology(spec.pools) ensures WillSettle(spec, p, name) {
        var u :| u in Of(p.s5, spec.kind, name);
      }
    }
  }

  /** An outdated workload whose template does not apply stays as it is, whatever fails: the store does not converge. */
  lemma StuckPool(spec: Spec, p: Pass, name: string)
    requires IsPass(spec, p) && p.listed && name in Outdated(spec, p.s0, p.heads) && !Appliable(spec, name)
    ensures p.heads[name] in p.s5 && p.s5[p.heads[name]] == p.s0[p.heads[name]]
    ensures !WillSettle(spec, p, name) && name in Topology(spec.pools) && !Converged(spec, p.s5)
  {
    var u := p.heads[name];
    assert u in Of(p.s0, spec.kind, name);
    HeadIsNotSurplus(spec, p, name);
    HeadStays(spec, p, u);
    RefusedStays(spec, p, name);
    StuckIsUnsteady(spec, name);
    hide IsPass, Of, Config, Steady, Appliable, NeedsUpdate, Topology;
  }

  lemma StuckIsUnsteady(spec: Spec, name: string)
    requires !Appliable(spec, name)
    ensures Config(spec.pools, name).Some? ==> !Steady(Config(spec.pools, name).value)
  {
  }

  lemma RefusedStays(spec: Spec, p: Pass, name: string)
    requires IsPass(spec, p) && p.listed && name in p.heads && p.heads[name] in p.s0 && !Appliable(spec, name)
    requires p.heads[name] in p.s5
    ensures p.s5[p.heads[name]] == p.s0[p.heads[name]]
  {
    var u := p.heads[name];
    if p.deduped && p.provisioned {
      SurvivorIsUnchanged(spec, p, u);
      HeadsDiffer(p.s0, spec.kind, p.heads);
      AppliesIff(spec, name, p.s4[u]);
      hide Apply, Appliable, Queue, SlowStarted, Elements, Provision, IsHeads, Quiet, AllLabelled;
    } else if p.deduped {
      SurvivorIsUnchanged(spec, p, u);
      hide Provision, IsHeads, Quiet, AllLabelled, Removed;
    } else {
      hide IsHeads, Quiet, AllLabelled, Appliable;
    }
  }

  // ---------- Whole runs ----------

  /** Between two reconciles, workloads may drift: their contents may change, but not their kind or pool. */
  datatype Step = Reconcile(spec: Spec, pass: Pass) | Drift

  ghost predicate IsStep(s: Store, s': Store, step: Step) {
    match step
    case Reconcile(spec, p) => IsPass(spec, p) && p.s0 == s && p.s5 == s'
    case Drift => s'.Keys == s.Keys && forall u :: u in s ==> s'[u].kind == s[u].kind && s'[u].pool == s[u].pool
  }

  ghost predicate IsRun(states: seq<Store>, steps: seq<Step>) {
    && |states| == |steps| + 1
    && forall i :: 0 <= i < |steps| ==> IsStep(states[i], states[i + 1], steps[i])
  }

  /**
    Over every run, with specifications that change from reconcile to reconcile and any failures: there never is more
    than one workload of a kind for a pool.
   */
  lemma {:induction false} NeverTwo(states: seq<Store>, steps: seq<Step>, kind: Kind, i: nat)
    requires IsRun(states, steps) && AtMostOne(states[0], kind) && i < |states|
    ensures AtMostOne(states[i], kind)
  {
    if i > 0 {
      NeverTwo(states, steps, kind, i - 1);
      assert IsStep(states[i - 1], states[i - 1 + 1], steps[i - 1]);
      if steps[i - 1].Reconcile? {
        AtMostOneIsKept(steps[i - 1].spec, steps[i - 1].pass, kind);
      }
    }
    hide IsPass;
  }

  /** A pool that stays in the topology, with the same kind selected, never loses its last workload once it has one. */
  lemma {:induction false} NeverEmptied(states: seq<Store>, steps: seq<Step>, kind: Kind, name: string, i: nat, j: nat)
    requires IsRun(states, steps) && i <= j < |states| && Of(states[i], kind, name) != {}
    requires forall k :: i <= k < j && steps[k].Reconcile? ==>
               steps[k].spec.kind == kind && name in Topology(steps[k].spec.pools)
    ensures Of(states[j], kind, name) != {}
    decreases j
  {
    if i < j {
      var k := j - 1;
      NeverEmptied(states, steps, kind, name, i, k);
      assert IsStep(states[k], states[k + 1], steps[k]);
      var u :| u in Of(states[k], kind, name);
      if steps[k].Reconcile? {
        HeadSurvives(steps[k].spec, steps[k].pass, name);
      } else {
        assert u in Of(states[j], kind, name);
      }
    }
    hide IsPass;
  }
}
