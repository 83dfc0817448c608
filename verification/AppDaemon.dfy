/**
  YurtAppDaemon: one workload per selected node pool, kept to the pool's nodes by a node selector and tolerations.
  The store holds the workloads that the YurtAppDaemon controls, by UID.
 */
module AppDaemon {
  import opened Common
  import opened NodeAttributes
  import opened Tolerations

  /** The node affinity of the template: a pod affinity alone leaves the node affinity pointer nil. */
  datatype Affinity = NoAffinity | PodAffinityOnly | NodeAffinity(required: bool, preferred: string)

  datatype Template = Template(tolerations: seq<Toleration>, affinity: Affinity, revision: string)

  /** A missing nodepool annotation reads as "". */
  datatype Load = Load(pool: string, revision: string, selector: map<string, string>, tolerations: seq<Toleration>,
                       affinity: Affinity)

  type Store = map<nat, Load>

  /** The selected node pools and their taints. */
  type Pools = map<string, seq<Taint>>

  // ---------- The template ----------

  function Selector(name: string): map<string, string> {
    map[LABEL_OWNER := name]
  }

  /** Applying a template whose affinity has no node part dereferences a nil pointer. */
  predicate Safe(template: Template) {
    !template.affinity.PodAffinityOnly?
  }

  function Applied(template: Template, name: string, taints: seq<Taint>): Load
    requires Safe(template)
  {
    Load(name, template.revision, Selector(name), template.tolerations + ToTolerations(taints),
         if template.affinity.NodeAffinity? then template.affinity.(required := false) else NoAffinity)
  }

  predicate Matches(load: Load, name: string, taints: seq<Taint>, revision: string) {
    && load.selector == Selector(name)
    && TolerateAll(load.tolerations, taints)
    && load.revision == revision
  }

  /**
    A workload written for a pool needs no update as long as the revision stays and every taint that the pool has later
    is tolerated by the template itself or sits in the slot of an earlier one: new values of a taint do not matter.
   */
  lemma AppliedMatchesIff(template: Template, name: string, before: seq<Taint>, after: seq<Taint>, revision: string)
    requires Safe(template)
    ensures Matches(Applied(template, name, before), name, after, revision) <==>
            && template.revision == revision
            && forall i :: 0 <= i < |after| ==>
                 SomeTolerates(template.tolerations, after[i]) || Covered(after[i], before)
    ensures Matches(Applied(template, name, before), name, before, template.revision)
  {
    forall taint ensures SomeTolerates(template.tolerations + ToTolerations(before), taint) <==>
                         SomeTolerates(template.tolerations, taint) || Covered(taint, before)
    {
      AppendedTolerate(template.tolerations, ToTolerations(before), taint);
      ToTolerationsTolerate(before, taint);
    }
    forall i | 0 <= i < |before| ensures Covered(before[i], before) {
    }
    hide SomeTolerates, Covered, ToTolerations;
  }

  /** The template's required node affinity would keep pods off the pool's nodes: it is dropped, and only it. */
  lemma AppliedRequiresNothing(template: Template, name: string, taints: seq<Taint>)
    requires Safe(template)
    ensures var affinity := Applied(template, name, taints).affinity;
            && (affinity.NodeAffinity? <==> template.affinity.NodeAffinity?)
            && (affinity.NodeAffinity? ==> !affinity.required && affinity.preferred == template.affinity.preferred)
            && (template.affinity.NoAffinity? ==> affinity.NoAffinity?)
  {
  }

  /**
    A workload that passes the three checks, wherever it comes from, fits the nodes that the pool takes over: the
    selector accepts the node, nodes of other pools are not accepted, and every taint of the pool is tolerated.
   */
  lemma MatchingFits(load: Load, name: string, pool: Attrs, revision: string, n: Node, other: Node, taint: Taint)
    requires Matches(load, name, pool.taints, revision) && taint in pool.taints && name != ""
    requires LABEL_OWNER in other.labels && other.labels[LABEL_OWNER] != name
    ensures var owned := Concile(n, pool, name);
            && (forall key :: key in load.selector ==> key in owned.labels && owned.labels[key] == load.selector[key])
            && (exists key :: key in load.selector && key in other.labels && other.labels[key] != load.selector[key])
            && SomeTolerates(load.tolerations, taint) && load.revision == revision
  {
    assert LABEL_OWNER in load.selector;
    hide SomeTolerates, JoinTaints, Apply;
  }

  /**
    A workload written for a pool fits the nodes that the pool takes over: the selector accepts the node, and every
    taint is tolerated that the pool has or that the node did not have before.
   */
  lemma FitsOwnedNodes(template: Template, name: string, pool: Attrs, n: Node, taint: Taint)
    requires Safe(template) && taint in Concile(n, pool, name).taints
    requires taint in pool.taints || taint !in n.taints
    ensures var load, owned := Applied(template, name, pool.taints), Concile(n, pool, name);
            && (forall key :: key in load.selector ==> Lookup(owned.labels, key) == load.selector[key])
            && SomeTolerates(load.tolerations, taint)
  {
    ConciledTaintOrigin(n, pool, name, taint);
    assert Covered(taint, pool.taints) by {
      var i :| 0 <= i < |pool.taints| && pool.taints[i] == taint;
    }
    ToTolerationsTolerate(pool.taints, taint);
    AppendedTolerate(template.tolerations, ToTolerations(pool.taints), taint);
    hide SomeTolerates, Covered, ToTolerations, JoinTaints, Apply;
  }

  lemma ConciledTaintOrigin(n: Node, pool: Attrs, name: string, x: Taint)
    requires x in Concile(n, pool, name).taints
    ensures x in n.taints || x in pool.taints
  {
    match n.cached
    case None =>
      JoinedTaintOrigin(n.taints, pool.taints, x);
    case Some(prev) =>
      if x in RemoveTaints(n.taints, prev.taints) {
        RemovedTaintsOrigin(prev.taints, n.taints, x);
      }
  }

  lemma {:induction false} RemovedTaintOrigin(t: Taint, ts: seq<Taint>, x: Taint)
    requires x in RemoveTaint(t, ts)
    ensures x in ts
  {
    if !SameSlot(t, ts[0]) && x != ts[0] {
      assert x in RemoveTaint(t, ts[1..]);
      RemovedTaintOrigin(t, ts[1..], x);
    }
  }

  lemma {:induction false} RemovedTaintsOrigin(gone: seq<Taint>, ts: seq<Taint>, x: Taint)
    requires x in RemoveTaints(ts, gone)
    ensures x in ts
    decreases |gone|
  {
    if gone != [] {
      RemovedTaintsOrigin(gone[1..], RemoveTaint(gone[0], ts), x);
      RemovedTaintOrigin(gone[0], ts, x);
    }
  }

  lemma {:induction false} JoinedTaintOrigin(own: seq<Taint>, pool: seq<Taint>, x: Taint)
    requires x in JoinTaints(own, pool)
    ensures x in own || x in pool
    decreases |pool|
  {
    if pool != [] {
      JoinedTaintOrigin(RemoveTaint(pool[0], own) + [pool[0]], pool[1..], x);
      if x in RemoveTaint(pool[0], own) {
        RemovedTaintOrigin(pool[0], own, x);
      }
    }
  }
}
