/**
  Attributes that a node pool puts on its nodes: the functions here say what joining a pool, following a change of
  the pool's spec and leaving the pool do to one node, seen as a value.
  The cached attributes are the decoded content of the annotation "nodepool.openyurt.io/previous-attributes".
 */
module NodeAttributes {
  import opened Common

  const LABEL_DESIRED := "apps.openyurt.io/desired-nodepool"
  const LABEL_OWNER := "apps.openyurt.io/nodepool"

  datatype Taint = Taint(key: string, value: string, effect: string)

  datatype Attrs = Attrs(labels: map<string, string>, annotations: map<string, string>, taints: seq<Taint>)

  datatype Node = Node(
    labels: map<string, string>,
    annotations: map<string, string>,
    taints: seq<Taint>,
    cached: Option<Attrs>,
    ready: bool)

  function Desired(n: Node): string {
    Lookup(n.labels, LABEL_DESIRED)
  }

  function Owner(n: Node): string {
    Lookup(n.labels, LABEL_OWNER)
  }

  lemma ReservedKeysDiffer()
    ensures LABEL_DESIRED != LABEL_OWNER
  {
    assert |LABEL_DESIRED| != |LABEL_OWNER|;
  }

  // ---------- Taints: uniqueness is by key and effect ----------

  predicate SameSlot(a: Taint, b: Taint) {
    a.key == b.key && a.effect == b.effect
  }

  predicate HasSlot(t: Taint, ts: seq<Taint>) {
    exists i :: 0 <= i < |ts| && SameSlot(t, ts[i])
  }

  predicate Clash(xs: seq<Taint>, ys: seq<Taint>) {
    exists i :: 0 <= i < |xs| && HasSlot(xs[i], ys)
  }

  predicate UniqueSlots(ts: seq<Taint>) {
    forall i, j :: 0 <= i < j < |ts| ==> !SameSlot(ts[i], ts[j])
  }

  /** Drops the first taint of `ts` in the slot of `t`, whatever its value. */
  function RemoveTaint(t: Taint, ts: seq<Taint>): seq<Taint> {
    if ts == [] then []
    else if SameSlot(t, ts[0]) then ts[1..]
    else [ts[0]] + RemoveTaint(t, ts[1..])
  }

  function RemoveTaints(ts: seq<Taint>, gone: seq<Taint>): seq<Taint>
    decreases |gone|
  {
    if gone == [] then ts else RemoveTaints(RemoveTaint(gone[0], ts), gone[1..])
  }

  /** The join branch: each pool taint replaces a taint in its slot and moves to the end. */
  function JoinTaints(ts: seq<Taint>, pool: seq<Taint>): seq<Taint>
    decreases |pool|
  {
    if pool == [] then ts else JoinTaints(RemoveTaint(pool[0], ts) + [pool[0]], pool[1..])
  }

  // ---------- One node ----------

  function DropMatching(m: map<string, string>, gone: map<string, string>): map<string, string> {
    map k | k in m && !(k in gone && gone[k] == m[k]) :: m[k]
  }

  /** Drops the keys that the old pool spec had and the new one lacks, then merges the new ones. */
  function FollowMap(m: map<string, string>, before: map<string, string>, after: map<string, string>)
    : map<string, string>
  {
    (m - (before.Keys - after.Keys)) + after
  }

  function Apply(n: Node, pool: Attrs): Node {
    match n.cached
    case None =>
      Node(n.labels + pool.labels, n.annotations + pool.annotations, JoinTaints(n.taints, pool.taints), Some(pool),
           n.ready)
    case Some(prev) =>
      if prev == pool then n
      else Node(FollowMap(n.labels, prev.labels, pool.labels),
                FollowMap(n.annotations, prev.annotations, pool.annotations),
                RemoveTaints(n.taints, prev.taints) + pool.taints, Some(pool), n.ready)
  }

  function SetOwner(n: Node, poolName: string): Node {
    if Owner(n) == poolName then n else n.(labels := n.labels[LABEL_OWNER := poolName])
  }

  /** What `concilateNode` turns a node into. */
  function Concile(n: Node, pool: Attrs, poolName: string): Node {
    SetOwner(Apply(n, pool), poolName)
  }

  /** What `removePoolRelatedAttrs` turns a node into. */
  function Strip(n: Node): Node {
    match n.cached
    case None => n
    case Some(prev) =>
      Node(DropMatching(n.labels, prev.labels) - {LABEL_OWNER}, DropMatching(n.annotations, prev.annotations),
           RemoveTaints(n.taints, prev.taints), None, n.ready)
  }

  // ---------- Counting slots ----------

  ghost function Count(t: Taint, ts: seq<Taint>): nat {
    if ts == [] then 0 else (if SameSlot(t, ts[0]) then 1 else 0) + Count(t, ts[1..])
  }

  lemma {:induction false} CountHasSlot(t: Taint, ts: seq<Taint>)
    ensures Count(t, ts) > 0 <==> HasSlot(t, ts)
  {
    if ts != [] {
      CountHasSlot(t, ts[1..]);
      if HasSlot(t, ts) && !SameSlot(t, ts[0]) {
        var i :| 0 <= i < |ts| && SameSlot(t, ts[i]);
        assert ts[1..][i - 1] == ts[i];
      }
      if HasSlot(t, ts[1..]) {
        var i :| 0 <= i < |ts[1..]| && SameSlot(t, ts[1..][i]);
        assert SameSlot(t, ts[i + 1]);
      }
    }
  }

  lemma {:induction false} CountAppend(t: Taint, xs: seq<Taint>, ys: seq<Taint>)
    ensures Count(t, xs + ys) == Count(t, xs) + Count(t, ys)
  {
    if xs == [] {
      assert xs + ys == ys;
    } else {
      assert (xs + ys)[1..] == xs[1..] + ys;
      CountAppend(t, xs[1..], ys);
    }
  }

  lemma {:induction false} CountRemove(u: Taint, t: Taint, ts: seq<Taint>)
    ensures Count(u, RemoveTaint(t, ts)) ==
            if SameSlot(u, t) && Count(u, ts) > 0 then Count(u, ts) - 1 else Count(u, ts)
  {
    if ts != [] && !SameSlot(t, ts[0]) {
      CountRemove(u, t, ts[1..]);
      assert ([ts[0]] + RemoveTaint(t, ts[1..]))[1..] == RemoveTaint(t, ts[1..]);
    }
  }

  lemma {:induction false} CountRemoveAll(u: Taint, ts: seq<Taint>, gone: seq<Taint>)
    ensures Count(u, RemoveTaints(ts, gone)) ==
            if Count(u, ts) >= Count(u, gone) then Count(u, ts) - Count(u, gone) else 0
    decreases |gone|
  {
    if gone != [] {
      CountRemove(u, gone[0], ts);
      CountRemoveAll(u, RemoveTaint(gone[0], ts), gone[1..]);
    }
  }

  lemma {:induction false} CountJoin(u: Taint, ts: seq<Taint>, pool: seq<Taint>)
    ensures Count(u, JoinTaints(ts, pool)) ==
            if Count(u, pool) > 0 && Count(u, ts) == 0 then 1 else Count(u, ts)
    decreases |pool|
  {
    if pool != [] {
      CountRemove(u, pool[0], ts);
      CountAppend(u, RemoveTaint(pool[0], ts), [pool[0]]);
      CountJoin(u, RemoveTaint(pool[0], ts) + [pool[0]], pool[1..]);
    }
  }

  lemma {:induction false} NoCountIsEmpty(ts: seq<Taint>)
    requires forall u :: Count(u, ts) == 0
    ensures ts == []
  {
    if ts != [] {
      assert Count(ts[0], ts) > 0;
    }
  }

  // ---------- Taints that keep clear of a prefix ----------

  lemma {:induction false} RemoveFromTail(t: Taint, base: seq<Taint>, xs: seq<Taint>)
    requires !HasSlot(t, base)
    ensures RemoveTaint(t, base + xs) == base + RemoveTaint(t, xs)
  {
    if base == [] {
      assert base + xs == xs;
    } else {
      assert (base + xs)[1..] == base[1..] + xs;
      assert !SameSlot(t, base[0]);
      RemoveFromTail(t, base[1..], xs);
    }
  }

  lemma ClashSymmetric(xs: seq<Taint>, ys: seq<Taint>)
    ensures Clash(xs, ys) ==> Clash(ys, xs)
  {
    if Clash(xs, ys) {
      var i :| 0 <= i < |xs| && HasSlot(xs[i], ys);
      var j :| 0 <= j < |ys| && SameSlot(xs[i], ys[j]);
      assert SameSlot(ys[j], xs[i]);
      assert HasSlot(ys[j], xs);
    }
  }

  lemma NoClashAt(base: seq<Taint>, pool: seq<Taint>)
    requires !Clash(base, pool) && pool != []
    ensures !HasSlot(pool[0], base) && !Clash(base, pool[1..])
  {
    if HasSlot(pool[0], base) {
      ClashSymmetric(pool, base);
    }
  }

  lemma {:induction false} RemoveAllFromTail(base: seq<Taint>, xs: seq<Taint>, gone: seq<Taint>)
    requires !Clash(base, gone)
    ensures RemoveTaints(base + xs, gone) == base + RemoveTaints(xs, gone)
    decreases |gone|
  {
    if gone != [] {
      NoClashAt(base, gone);
      RemoveFromTail(gone[0], base, xs);
      RemoveAllFromTail(base, RemoveTaint(gone[0], xs), gone[1..]);
    }
  }

  lemma {:induction false} JoinAtTail(base: seq<Taint>, xs: seq<Taint>, pool: seq<Taint>)
    requires !Clash(base, pool)
    ensures JoinTaints(base + xs, pool) == base + JoinTaints(xs, pool)
    decreases |pool|
  {
    if pool != [] {
      NoClashAt(base, pool);
      RemoveFromTail(pool[0], base, xs);
      assert base + RemoveTaint(pool[0], xs) + [pool[0]] == base + (RemoveTaint(pool[0], xs) + [pool[0]]);
      JoinAtTail(base, RemoveTaint(pool[0], xs) + [pool[0]], pool[1..]);
    }
  }

  /** Without repeated slots, joining is appending. */
  lemma {:induction false} JoinUnique(ts: seq<Taint>, pool: seq<Taint>)
    requires !Clash(ts, pool) && UniqueSlots(pool)
    ensures JoinTaints(ts, pool) == ts + pool
    decreases |pool|
  {
    if pool != [] {
      NoClashAt(ts, pool);
      RemoveFromTail(pool[0], ts, []);
      assert ts + [] == ts;
      var ts' := ts + [pool[0]];
      forall i | 0 <= i < |ts'|
        ensures !HasSlot(ts'[i], pool[1..])
      {
        assert i < |ts| ==> !HasSlot(ts[i], pool);
      }
      JoinUnique(ts', pool[1..]);
      assert ts' + pool[1..] == ts + pool;
    }
  }

  lemma RemoveJoined(pool: seq<Taint>)
    ensures RemoveTaints(JoinTaints([], pool), pool) == []
  {
    forall u ensures Count(u, RemoveTaints(JoinTaints([], pool), pool)) == 0 {
      CountJoin(u, [], pool);
      CountRemoveAll(u, JoinTaints([], pool), pool);
    }
    NoCountIsEmpty(RemoveTaints(JoinTaints([], pool), pool));
  }

  lemma {:induction false} RemoveSelf(pool: seq<Taint>)
    ensures RemoveTaints(pool, pool) == []
  {
    if pool != [] {
      RemoveSelf(pool[1..]);
    }
  }

  lemma {:induction false} JoinedIsUnique(pool: seq<Taint>)
    ensures JoinTaints([], pool) == pool <==> UniqueSlots(pool)
  {
    if UniqueSlots(pool) {
      JoinUnique([], pool);
      assert [] + pool == pool;
    } else {
      var i, j :| 0 <= i < j < |pool| && SameSlot(pool[i], pool[j]);
      CountJoin(pool[i], [], pool);
      assert pool == pool[..j] + pool[j..];
      CountAppend(pool[i], pool[..j], pool[j..]);
      assert SameSlot(pool[i], pool[..j][i]) && SameSlot(pool[i], pool[j..][0]);
      CountHasSlot(pool[i], pool[..j]);
      CountHasSlot(pool[i], pool[j..]);
    }
  }
}
