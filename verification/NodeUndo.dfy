/**
  Joining a pool, following any number of spec changes (even of different pools) and leaving again.
  All statements are about the functions of `NodeAttributes`, which specify the in-place code.
 */
module NodeUndo {
  import opened Common
  import opened NodeAttributes

  /** A node that no pool has touched. */
  ghost predicate Clean(n: Node) {
    n.cached == None && LABEL_OWNER !in n.labels
  }

  /** The pool brings no label or annotation key and no taint slot that the node has of its own. */
  ghost predicate Disjoint(n: Node, pool: Attrs) {
    && pool.labels.Keys !! n.labels.Keys
    && pool.annotations.Keys !! n.annotations.Keys
    && !Clash(n.taints, pool.taints)
  }

  datatype Membership = Membership(spec: Attrs, poolName: string)

  /** The node after it has been reconciled against each spec in turn. */
  function Follow(n: Node, specs: seq<Membership>): Node
    decreases |specs|
  {
    if specs == [] then n
    else
      var last := specs[|specs| - 1];
      Concile(Follow(n, specs[..|specs| - 1]), last.spec, last.poolName)
  }

  /** `m` is `n` with exactly the attributes of `pool` on top; the added taints vanish when the pool's are removed. */
  ghost predicate Carries(n: Node, m: Node, pool: Attrs, poolName: string, added: seq<Taint>) {
    && m == Node(n.labels + pool.labels + map[LABEL_OWNER := poolName], n.annotations + pool.annotations,
                 n.taints + added, Some(pool), n.ready)
    && RemoveTaints(added, pool.taints) == []
  }

  lemma JoinCarries(n: Node, pool: Attrs, poolName: string)
    requires Clean(n) && Disjoint(n, pool) && poolName != ""
    ensures Carries(n, Concile(n, pool, poolName), pool, poolName, JoinTaints([], pool.taints))
  {
    JoinAtTail(n.taints, [], pool.taints);
    assert n.taints + [] == n.taints;
    RemoveJoined(pool.taints);
    hide RemoveTaints, JoinTaints, Clash;
    var merged := n.labels + pool.labels;
    assert merged[LABEL_OWNER := poolName] == merged + map[LABEL_OWNER := poolName];
    if Lookup(merged, LABEL_OWNER) == poolName {
      assert merged[LABEL_OWNER := poolName] == merged;
    }
  }

  lemma FollowMapMerged(base: map<string, string>, before: map<string, string>, after: map<string, string>)
    requires before.Keys !! base.Keys && after.Keys !! base.Keys
    ensures FollowMap(base + before, before, after) == base + after
  {
    var m := FollowMap(base + before, before, after);
    assert m.Keys == (base + after).Keys;
    assert forall k :: k in m ==> m[k] == (base + after)[k];
  }

  lemma FollowLabelsMerged(base: map<string, string>, before: map<string, string>, after: map<string, string>,
                           oldName: string, poolName: string)
    requires before.Keys !! base.Keys && after.Keys !! base.Keys && LABEL_OWNER !in base
    ensures var owned := base + before + map[LABEL_OWNER := oldName];
            FollowMap(owned, before, after)[LABEL_OWNER := poolName] == base + after + map[LABEL_OWNER := poolName]
  {
    var owned := base + before + map[LABEL_OWNER := oldName];
    var m := FollowMap(owned, before, after)[LABEL_OWNER := poolName];
    var m' := base + after + map[LABEL_OWNER := poolName];
    assert m.Keys == m'.Keys;
    assert forall k :: k in m ==> m[k] == m'[k];
  }

  lemma SetOwnerSets(n: Node, poolName: string)
    requires poolName != ""
    ensures SetOwner(n, poolName) == n.(labels := n.labels[LABEL_OWNER := poolName])
  {
    assert Owner(n) == poolName ==> n.labels == n.labels[LABEL_OWNER := poolName];
  }

  lemma SameSpecCarries(n: Node, m: Node, pool: Attrs, oldName: string, added: seq<Taint>, poolName: string)
    requires poolName != "" && Carries(n, m, pool, oldName, added)
    ensures Carries(n, Concile(m, pool, poolName), pool, poolName, added)
  {
    SetOwnerSets(m, poolName);
    OwnerOverwritten(n.labels + pool.labels, oldName, poolName);
    hide RemoveTaints, SetOwner;
  }

  lemma OwnerOverwritten(labels: map<string, string>, oldName: string, poolName: string)
    ensures (labels + map[LABEL_OWNER := oldName])[LABEL_OWNER := poolName] == labels + map[LABEL_OWNER := poolName]
  {
  }

  lemma NewSpecCarries(n: Node, m: Node, before: Attrs, oldName: string, added: seq<Taint>, pool: Attrs,
                       poolName: string)
    requires LABEL_OWNER !in n.labels && Disjoint(n, before) && Disjoint(n, pool) && poolName != "" && before != pool
    requires Carries(n, m, before, oldName, added)
    ensures Carries(n, Concile(m, pool, poolName), pool, poolName, pool.taints)
  {
    SetOwnerSets(Apply(m, pool), poolName);
    FollowMapMerged(n.annotations, before.annotations, pool.annotations);
    FollowLabelsMerged(n.labels, before.labels, pool.labels, oldName, poolName);
    RemoveAllFromTail(n.taints, added, before.taints);
    assert n.taints + [] == n.taints;
    RemoveSelf(pool.taints);
    hide RemoveTaints, FollowMap, Clash, SetOwner, Disjoint;
  }

  lemma UpdateCarries(n: Node, m: Node, before: Attrs, oldName: string, added: seq<Taint>, pool: Attrs,
                      poolName: string)
    requires Clean(n) && Disjoint(n, before) && Disjoint(n, pool) && poolName != ""
    requires Carries(n, m, before, oldName, added)
    ensures Carries(n, Concile(m, pool, poolName), pool, poolName, if before == pool then added else pool.taints)
  {
    if before == pool {
      SameSpecCarries(n, m, pool, oldName, added, poolName);
    } else {
      NewSpecCarries(n, m, before, oldName, added, pool, poolName);
    }
  }

  lemma DropMerged(base: map<string, string>, pool: map<string, string>)
    ensures DropMatching(base + pool, pool) == base - pool.Keys
    ensures base - pool.Keys == base <==> pool.Keys !! base.Keys
  {
    if base - pool.Keys == base {
      assert forall k :: k in base ==> k in (base - pool.Keys).Keys;
    }
  }

  lemma DropOwned(base: map<string, string>, pool: map<string, string>, poolName: string)
    requires LABEL_OWNER !in base
    ensures DropMatching(base + pool + map[LABEL_OWNER := poolName], pool) - {LABEL_OWNER} == base - pool.Keys
  {
  }

  lemma StripCarried(n: Node, m: Node, pool: Attrs, poolName: string, added: seq<Taint>)
    requires Clean(n) && Disjoint(n, pool)
    requires Carries(n, m, pool, poolName, added)
    ensures Strip(m) == n
  {
    RemoveAllFromTail(n.taints, added, pool.taints);
    assert n.taints + [] == n.taints;
    hide RemoveTaints, DropMatching, Clash;
    DropOwned(n.labels, pool.labels, poolName);
    DropMerged(n.labels, pool.labels);
    DropMerged(n.annotations, pool.annotations);
  }

  /** No spec change in the whole sequence. */
  ghost predicate AllSame(specs: seq<Membership>)
    requires specs != []
  {
    forall i :: 0 <= i < |specs| ==> specs[i].spec == specs[|specs| - 1].spec
  }

  lemma {:induction false} FollowCarries(n: Node, specs: seq<Membership>) returns (added: seq<Taint>)
    requires Clean(n) && specs != []
    requires forall i :: 0 <= i < |specs| ==> Disjoint(n, specs[i].spec) && specs[i].poolName != ""
    ensures var last := specs[|specs| - 1]; Carries(n, Follow(n, specs), last.spec, last.poolName, added)
    ensures var taints := specs[|specs| - 1].spec.taints;
            added == if AllSame(specs) then JoinTaints([], taints) else taints
    decreases |specs|
  {
    var last := specs[|specs| - 1];
    if |specs| == 1 {
      assert Follow(n, specs[..0]) == n;
      JoinCarries(n, last.spec, last.poolName);
      added := JoinTaints([], last.spec.taints);
    } else {
      var front := specs[..|specs| - 1];
      var prev := front[|front| - 1];
      added := FollowCarries(n, front);
      UpdateCarries(n, Follow(n, front), prev.spec, prev.poolName, added, last.spec, last.poolName);
      added := if prev.spec == last.spec then added else last.spec.taints;
      AllSameOneMore(specs);
    }
  }

  lemma AllSameOneMore(specs: seq<Membership>)
    requires |specs| > 1
    ensures var front, last := specs[..|specs| - 1], specs[|specs| - 1];
            AllSame(specs) <==> AllSame(front) && specs[|specs| - 2].spec == last.spec
  {
  }

  /** Exact undo: whatever pools and specs a node went through, leaving restores every label, annotation and taint. */
  lemma ExactUndo(n: Node, specs: seq<Membership>)
    requires Clean(n) && specs != []
    requires forall i :: 0 <= i < |specs| ==> Disjoint(n, specs[i].spec) && specs[i].poolName != ""
    ensures Strip(Follow(n, specs)) == n
  {
    var added := FollowCarries(n, specs);
    var last := specs[|specs| - 1];
    StripCarried(n, Follow(n, specs), last.spec, last.poolName, added);
  }

  /** A user sets labels and annotations to other values and removes some. */
  function Edited(n: Node, labels: map<string, string>, noLabels: set<string>, annotations: map<string, string>,
                  noAnnotations: set<string>): Node
  {
    n.(labels := (n.labels - noLabels) + labels, annotations := (n.annotations - noAnnotations) + annotations)
  }

  /** Other values for some of the keys. */
  predicate Overrides(over: map<string, string>, pool: map<string, string>) {
    forall k :: k in over ==> k in pool && over[k] != pool[k] && k != LABEL_OWNER
  }

  lemma DropEdited(base: map<string, string>, pool: map<string, string>, gone: set<string>, over: map<string, string>)
    requires pool.Keys !! base.Keys && Overrides(over, pool) && gone <= pool.Keys
    ensures DropMatching((base + pool) - gone + over, pool) == base + over
  {
  }

  lemma DropEditedOwned(base: map<string, string>, pool: map<string, string>, gone: set<string>,
                        over: map<string, string>, poolName: string)
    requires pool.Keys !! base.Keys && Overrides(over, pool) && gone <= pool.Keys && LABEL_OWNER !in base
    ensures DropMatching((base + pool + map[LABEL_OWNER := poolName]) - gone + over, pool) - {LABEL_OWNER} ==
            base + over
  {
  }

  /**
    Undo with overrides: if a user has meanwhile given some of the pool's labels and annotations other values, and has
    removed some, leaving keeps exactly those values, takes everything else of the pool, and restores the rest.
   */
  lemma UndoKeepsOverrides(n: Node, specs: seq<Membership>, labels: map<string, string>, noLabels: set<string>,
                           annotations: map<string, string>, noAnnotations: set<string>)
    requires Clean(n) && specs != []
    requires forall i :: 0 <= i < |specs| ==> Disjoint(n, specs[i].spec) && specs[i].poolName != ""
    requires var last := specs[|specs| - 1].spec;
             && Overrides(labels, last.labels) && noLabels <= last.labels.Keys
             && Overrides(annotations, last.annotations) && noAnnotations <= last.annotations.Keys
    ensures Strip(Edited(Follow(n, specs), labels, noLabels, annotations, noAnnotations)) ==
            n.(labels := n.labels + labels, annotations := n.annotations + annotations)
  {
    var added := FollowCarries(n, specs);
    var last := specs[|specs| - 1];
    DropEditedOwned(n.labels, last.spec.labels, noLabels, labels, last.poolName);
    DropEdited(n.annotations, last.spec.annotations, noAnnotations, annotations);
    RemoveAllFromTail(n.taints, added, last.spec.taints);
    assert n.taints + [] == n.taints;
    hide Follow, RemoveTaints, DropMatching, Overrides, Clash;
  }

  /** The maps agree on every key that is not among the given ones. */
  ghost predicate SameBut(a: map<string, string>, b: map<string, string>, keys: set<string>) {
    forall k :: k !in keys ==> (k in a <==> k in b) && (k in a ==> a[k] == b[k])
  }

  lemma FollowForgets(a: map<string, string>, b: map<string, string>, before: map<string, string>,
                      after: map<string, string>)
    requires SameBut(a, b, before.Keys)
    ensures FollowMap(a, before, after) == FollowMap(b, before, after)
  {
  }

  /** An update of the pool, unlike leaving it, forgets whatever users did to its labels and annotations. */
  lemma UpdateForgetsOverrides(n: Node, edited: Node, prev: Attrs, spec: Attrs, poolName: string)
    requires n.cached == Some(prev) && prev != spec && poolName != ""
    requires edited == n.(labels := edited.labels, annotations := edited.annotations)
    requires SameBut(n.labels, edited.labels, prev.labels.Keys)
    requires SameBut(n.annotations, edited.annotations, prev.annotations.Keys)
    ensures Concile(edited, spec, poolName) == Concile(n, spec, poolName)
  {
    FollowForgets(n.labels, edited.labels, prev.labels, spec.labels);
    FollowForgets(n.annotations, edited.annotations, prev.annotations, spec.annotations);
    hide FollowMap, RemoveTaints, SameBut;
  }

  /**
    The join branch, clashes included: the node's first taint in each slot of the pool goes, all others stay in order,
    and the pool's taints follow, with their values.
   */
  lemma {:induction false} JoinIsReplace(ts: seq<Taint>, pool: seq<Taint>)
    requires UniqueSlots(pool)
    ensures JoinTaints(ts, pool) == RemoveTaints(ts, pool) + pool
    decreases |pool|
  {
    if pool != [] {
      var t, rest := pool[0], pool[1..];
      var ts' := RemoveTaint(t, ts);
      JoinIsReplace(ts' + [t], rest);
      RemoveSkips(ts', t, rest);
      assert RemoveTaints(ts', rest) + [t] + rest == RemoveTaints(ts', rest) + pool;
    } else {
      assert ts + [] == ts;
    }
  }

  lemma {:induction false} RemoveSkips(ts: seq<Taint>, t: Taint, gone: seq<Taint>)
    requires forall i :: 0 <= i < |gone| ==> !SameSlot(gone[i], t)
    ensures RemoveTaints(ts + [t], gone) == RemoveTaints(ts, gone) + [t]
    decreases |gone|
  {
    if gone != [] {
      RemoveBefore(gone[0], ts, t);
      RemoveSkips(RemoveTaint(gone[0], ts), t, gone[1..]);
    }
  }

  lemma {:induction false} RemoveBefore(g: Taint, ts: seq<Taint>, t: Taint)
    requires !SameSlot(g, t)
    ensures RemoveTaint(g, ts + [t]) == RemoveTaint(g, ts) + [t]
  {
    if ts == [] {
      assert [] + [t] == [t] && [t][1..] == [];
    } else {
      assert (ts + [t])[1..] == ts[1..] + [t];
      RemoveBefore(g, ts[1..], t);
    }
  }

  /** History independence: only the last spec matters, down to the order of the taints. */
  lemma HistoryIndependence(n: Node, specs: seq<Membership>)
    requires Clean(n) && specs != []
    requires forall i :: 0 <= i < |specs| ==> Disjoint(n, specs[i].spec) && specs[i].poolName != ""
    requires UniqueSlots(specs[|specs| - 1].spec.taints)
    ensures var last := specs[|specs| - 1];
            && Follow(n, specs) == Concile(n, last.spec, last.poolName)
            && Follow(n, specs) == Concile(Strip(Follow(n, specs)), last.spec, last.poolName)
  {
    var last := specs[|specs| - 1];
    var added := FollowCarries(n, specs);
    JoinCarries(n, last.spec, last.poolName);
    JoinedIsUnique(last.spec.taints);
    ExactUndo(n, specs);
  }

  /** The incremental path equals a fresh join with the last spec exactly if that repeats no slot or nothing changed. */
  lemma IncrementalEqualsFreshIff(n: Node, specs: seq<Membership>)
    requires Clean(n) && specs != []
    requires forall i :: 0 <= i < |specs| ==> Disjoint(n, specs[i].spec) && specs[i].poolName != ""
    ensures var last := specs[|specs| - 1];
            Follow(n, specs) == Concile(n, last.spec, last.poolName) <==>
              UniqueSlots(last.spec.taints) || AllSame(specs)
  {
    var last := specs[|specs| - 1];
    var added := FollowCarries(n, specs);
    var joined := JoinTaints([], last.spec.taints);
    JoinCarries(n, last.spec, last.poolName);
    JoinedIsUnique(last.spec.taints);
    hide Follow, Concile, JoinTaints, RemoveTaints, UniqueSlots, AllSame, Disjoint, Clean;
    assert (n.taints + added)[|n.taints|..] == added;
    assert (n.taints + joined)[|n.taints|..] == joined;
  }

  lemma JoinedTaintsRestoredIff(ts: seq<Taint>, pool: seq<Taint>)
    ensures RemoveTaints(JoinTaints(ts, pool), pool) == ts <==> !Clash(ts, pool)
  {
    if Clash(ts, pool) {
      var i :| 0 <= i < |ts| && HasSlot(ts[i], pool);
      CountHasSlot(ts[i], pool);
      CountHasSlot(ts[i], ts);
      assert SameSlot(ts[i], ts[i]);
      CountJoin(ts[i], ts, pool);
      CountRemoveAll(ts[i], JoinTaints(ts, pool), pool);
    } else {
      JoinAtTail(ts, [], pool);
      assert ts + [] == ts;
      RemoveAllFromTail(ts, JoinTaints([], pool), pool);
      RemoveJoined(pool);
    }
  }

  lemma OwnerAlreadyThere(base: map<string, string>, pool: map<string, string>, poolName: string)
    requires LABEL_OWNER !in base && Lookup(base + pool, LABEL_OWNER) == poolName
    ensures DropMatching(base + pool, pool) - {LABEL_OWNER} == base - pool.Keys
  {
  }

  /** Joining and leaving restores a node exactly when the pool shares no key and no taint slot with it. */
  lemma JoinUndoneIff(n: Node, pool: Attrs, poolName: string)
    requires Clean(n)
    ensures Strip(Concile(n, pool, poolName)) == n <==> Disjoint(n, pool)
  {
    JoinedTaintsRestoredIff(n.taints, pool.taints);
    hide RemoveTaints, JoinTaints, Clash, DropMatching;
    var merged := n.labels + pool.labels;
    var owned := merged + map[LABEL_OWNER := poolName];
    assert merged[LABEL_OWNER := poolName] == owned;
    DropOwned(n.labels, pool.labels, poolName);
    DropMerged(n.labels, pool.labels);
    DropMerged(n.annotations, pool.annotations);
    if Lookup(merged, LABEL_OWNER) == poolName {
      OwnerAlreadyThere(n.labels, pool.labels, poolName);
    }
  }

  lemma UniqueIffCounts(ts: seq<Taint>)
    ensures UniqueSlots(ts) <==> forall t :: Count(t, ts) <= 1
  {
    if ts != [] {
      UniqueIffCounts(ts[1..]);
      CountHasSlot(ts[0], ts[1..]);
      UniqueTail(ts);
      assert SameSlot(ts[0], ts[0]);
      if UniqueSlots(ts) {
        forall t ensures Count(t, ts) <= 1 {
          CountSameSlot(t, ts[0], ts[1..]);
        }
      } else if UniqueSlots(ts[1..]) {
        assert Count(ts[0], ts) > 1;
      } else {
        var t :| Count(t, ts[1..]) > 1;
        assert Count(t, ts) > 1;
      }
    }
  }

  lemma UniqueTail(ts: seq<Taint>)
    requires ts != []
    ensures UniqueSlots(ts) <==> UniqueSlots(ts[1..]) && !HasSlot(ts[0], ts[1..])
  {
    forall i, j | UniqueSlots(ts[1..]) && !HasSlot(ts[0], ts[1..]) && 0 <= i < j < |ts|
      ensures !SameSlot(ts[i], ts[j])
    {
      assert ts[1..][j - 1] == ts[j];
      assert i > 0 ==> ts[1..][i - 1] == ts[i];
    }
    forall j | UniqueSlots(ts) && 0 <= j < |ts[1..]| ensures !SameSlot(ts[0], ts[1..][j]) {
      assert ts[1..][j] == ts[j + 1];
    }
  }

  lemma {:induction false} CountSameSlot(t: Taint, u: Taint, ts: seq<Taint>)
    ensures SameSlot(t, u) ==> Count(t, ts) == Count(u, ts)
  {
    if ts != [] {
      CountSameSlot(t, u, ts[1..]);
    }
  }

  /** The join branch keeps the slots of a taint list unique, and only then, whatever the pool brings. */
  lemma JoinKeepsUniqueIff(ts: seq<Taint>, pool: seq<Taint>)
    ensures UniqueSlots(JoinTaints(ts, pool)) <==> UniqueSlots(ts)
  {
    UniqueIffCounts(ts);
    UniqueIffCounts(JoinTaints(ts, pool));
    if UniqueSlots(ts) {
      forall t ensures Count(t, JoinTaints(ts, pool)) <= 1 {
        CountJoin(t, ts, pool);
      }
    } else {
      var t :| Count(t, ts) > 1;
      CountJoin(t, ts, pool);
    }
    hide UniqueSlots, Count, JoinTaints;
  }

  lemma AppendUniqueIff(ts: seq<Taint>, pool: seq<Taint>)
    ensures UniqueSlots(ts + pool) <==> UniqueSlots(ts) && UniqueSlots(pool) && !Clash(ts, pool)
  {
    UniqueIffCounts(ts);
    UniqueIffCounts(pool);
    UniqueIffCounts(ts + pool);
    if UniqueSlots(ts + pool) {
      forall t ensures Count(t, ts) <= 1 && Count(t, pool) <= 1 {
        CountAppend(t, ts, pool);
      }
      forall i | 0 <= i < |ts| ensures !HasSlot(ts[i], pool) {
        CountAppend(ts[i], ts, pool);
        assert SameSlot(ts[i], ts[i]);
        CountHasSlot(ts[i], ts);
        CountHasSlot(ts[i], pool);
      }
    } else if !Clash(ts, pool) {
      var t :| Count(t, ts + pool) > 1;
      CountAppend(t, ts, pool);
      CountHasSlot(t, ts);
      CountHasSlot(t, pool);
      if HasSlot(t, ts) {
        NoSharedSlot(ts, pool, t);
      }
    }
    hide UniqueSlots, Count;
  }

  lemma NoSharedSlot(ts: seq<Taint>, pool: seq<Taint>, t: Taint)
    requires !Clash(ts, pool) && HasSlot(t, ts)
    ensures !HasSlot(t, pool)
  {
    var i :| 0 <= i < |ts| && SameSlot(t, ts[i]);
    assert !HasSlot(ts[i], pool);
    forall j | 0 <= j < |pool| ensures !SameSlot(t, pool[j]) {
      assert !SameSlot(ts[i], pool[j]);
    }
  }

  /**
    The update branch leaves unique slots exactly if what remains without the old pool's taints is unique, the new
    spec repeats no slot, and the two share none.
   */
  lemma UpdateKeepsUniqueIff(n: Node, prev: Attrs, spec: Attrs, poolName: string)
    requires n.cached == Some(prev) && prev != spec
    ensures var rest := RemoveTaints(n.taints, prev.taints);
            UniqueSlots(Concile(n, spec, poolName).taints) <==>
            UniqueSlots(rest) && UniqueSlots(spec.taints) && !Clash(rest, spec.taints)
  {
    AppendUniqueIff(RemoveTaints(n.taints, prev.taints), spec.taints);
  }

  /** Without disjointness the update branch leaves two taints in one slot, which the join branch never does. */
  lemma UpdateCanDuplicateSlot() returns (n: Node, first: Attrs, second: Attrs)
    ensures Clean(n) && UniqueSlots(n.taints) && UniqueSlots(first.taints) && UniqueSlots(second.taints)
    ensures !UniqueSlots(Concile(Concile(n, first, "pool"), second, "pool").taints)
    ensures UniqueSlots(Concile(n, second, "pool").taints)
  {
    var t := Taint("key", "own", "NoSchedule");
    var t' := Taint("key", "pool", "NoSchedule");
    n := Node(map[], map[], [t], None, true);
    first := Attrs(map[], map[], []);
    second := Attrs(map[], map[], [t']);
    var joined := Concile(n, first, "pool");
    assert joined.taints == [t];
    var updated := Concile(joined, second, "pool");
    assert updated.taints == [t] + [t'];
    assert SameSlot(updated.taints[0], updated.taints[1]);
    assert RemoveTaint(t', [t]) == [];
    assert JoinTaints([t'], []) == [t'];
    assert JoinTaints([t], [t']) == JoinTaints(RemoveTaint(t', [t]) + [t'], []) == [t'];
  }
}
