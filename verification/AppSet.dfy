/**
  One reconcile of a YurtAppSet's pools, as a relation between the states it goes through. The store holds the
  workloads that the YurtAppSet controls, by UID; UIDs are never reused. Every API call may fail, with or without
  effect. The label, annotation and replica count written by a template are kept; the pod template is not.
 */
module AppSet {
  import opened Common
  import opened Stores
  import Names

  datatype Kind = StatefulSet | Deployment

  /** A strategic merge patch: its text, whether it applies, and the replica count it sets, if any. */
  datatype Patch = Patch(raw: string, valid: bool, setsReplicas: Option<int>)

  datatype Pool = Pool(name: string, replicas: Option<int>, patch: Option<Patch>)

  datatype Spec = Spec(kind: Kind, pools: seq<Pool>, revision: string)

  /** A missing patch annotation reads as "". */
  datatype Workload = Workload(kind: Kind, pool: Option<string>, revision: string, replicas: int, patch: string)

  type Store = map<nat, Workload>

  // ---------- The specification of a pool ----------

  function Topology(pools: seq<Pool>): set<string> {
    set p | p in pools :: p.name
  }

  ghost predicate UniqueNames(pools: seq<Pool>) {
    forall i, j :: 0 <= i < j < |pools| ==> pools[i].name != pools[j].name
  }

  /** The configuration that the template uses: the first of that name. */
  function Config(pools: seq<Pool>, name: string): Option<Pool> {
    if pools == [] then None
    else if pools[0].name == name then Some(pools[0])
    else Config(pools[1..], name)
  }

  /** The configuration that workloads are compared with: the last of that name. */
  function LastConfig(pools: seq<Pool>, name: string): Option<Pool> {
    if pools == [] then None
    else if pools[|pools| - 1].name == name then Some(pools[|pools| - 1])
    else LastConfig(pools[..|pools| - 1], name)
  }

  function WantedReplicas(pools: seq<Pool>, name: string): int {
    match LastConfig(pools, name)
    case Some(Pool(_, Some(n), _)) => n
    case _ => 0
  }

  function WantedPatch(pools: seq<Pool>, name: string): string {
    match LastConfig(pools, name)
    case Some(Pool(_, _, Some(patch))) => patch.raw
    case _ => ""
  }

  function Filled(spec: Spec, name: string, w: Workload): Workload {
    w.(pool := Some(name), revision := spec.revision, replicas := WantedReplicas(spec.pools, name))
  }

  /** `ApplyPoolTemplate`: no result if the pool is unknown or its patch does not apply. */
  function Apply(spec: Spec, name: string, w: Workload): Option<Workload> {
    match Config(spec.pools, name)
    case None => None
    case Some(Pool(_, _, None)) => Some(Filled(spec, name, w).(patch := ""))
    case Some(Pool(_, _, Some(p))) =>
      if !p.valid then None
      else
        var filled := Filled(spec, name, w).(patch := p.raw);
        Some(if p.setsReplicas.Some? then filled.(replicas := p.setsReplicas.value) else filled)
  }

  /** The pool is known and its patch, if it has one, applies. */
  predicate Appliable(spec: Spec, name: string) {
    match Config(spec.pools, name)
    case None => false
    case Some(pool) => pool.patch.None? || pool.patch.value.valid
  }

  /** What `CreatePool` sends: it ignores the error of a patch that does not apply and sends the unpatched object. */
  function Fresh(spec: Spec, name: string): Workload {
    var blank := Workload(spec.kind, None, "", 0, "");
    if Apply(spec, name, blank).Some? then Apply(spec, name, blank).value else Filled(spec, name, blank)
  }

  predicate NeedsUpdate(spec: Spec, name: string, w: Workload) {
    || w.revision != spec.revision
    || w.replicas != WantedReplicas(spec.pools, name)
    || w.patch != WantedPatch(spec.pools, name)
  }

  /** The pool's patch, if it has one, applies and leaves the replica count at the pool's value. */
  predicate Steady(pool: Pool) {
    pool.patch.None? ||
    (pool.patch.value.valid &&
     (pool.patch.value.setsReplicas.None? ||
      pool.patch.value.setsReplicas.value == if pool.replicas.Some? then pool.replicas.value else 0))
  }

  /** As validation demands: unique pool names, and patches with some text. */
  ghost predicate WellFormed(pools: seq<Pool>) {
    && UniqueNames(pools)
    && forall p :: p in pools && p.patch.Some? ==> p.patch.value.raw != ""
  }

  lemma {:induction false} ConfigFound(pools: seq<Pool>, name: string)
    ensures Config(pools, name).Some? <==> name in Topology(pools)
    ensures Config(pools, name).Some? ==> Config(pools, name).value in pools && Config(pools, name).value.name == name
  {
    if pools != [] {
      ConfigFound(pools[1..], name);
      assert pools == [pools[0]] + pools[1..];
    }
  }

  lemma {:induction false} LastConfigFound(pools: seq<Pool>, name: string)
    ensures LastConfig(pools, name).Some? <==> name in Topology(pools)
    ensures LastConfig(pools, name).Some? ==>
              LastConfig(pools, name).value in pools && LastConfig(pools, name).value.name == name
  {
    if pools != [] {
      var k := |pools| - 1;
      LastConfigFound(pools[..k], name);
      assert pools == pools[..k] + [pools[k]];
    }
  }

  /** With repeated names, the template uses the first configuration and the comparison the last. */
  lemma {:induction false} ConfigIsFirst(pools: seq<Pool>, name: string, i: nat)
    requires i < |pools| && pools[i].name == name && forall j :: 0 <= j < i ==> pools[j].name != name
    ensures Config(pools, name) == Some(pools[i])
  {
    if i > 0 {
      ConfigIsFirst(pools[1..], name, i - 1);
    }
  }

  lemma {:induction false} LastConfigIsLast(pools: seq<Pool>, name: string, i: nat)
    requires i < |pools| && pools[i].name == name && forall j :: i < j < |pools| ==> pools[j].name != name
    ensures LastConfig(pools, name) == Some(pools[i])
  {
    if i < |pools| - 1 {
      LastConfigIsLast(pools[..|pools| - 1], name, i);
    }
  }

  lemma ConfigsAgree(pools: seq<Pool>, name: string)
    requires UniqueNames(pools)
    ensures Config(pools, name) == LastConfig(pools, name)
  {
    ConfigFound(pools, name);
    LastConfigFound(pools, name);
    if name in Topology(pools) {
      var a, b := Config(pools, name).value, LastConfig(pools, name).value;
      var i :| 0 <= i < |pools| && pools[i] == a;
      var j :| 0 <= j < |pools| && pools[j] == b;
    }
  }

  /** A workload is up to date right after the template was applied to it exactly if the pool is steady. */
  lemma AppliedIsCurrentIff(spec: Spec, name: string, w: Workload)
    requires WellFormed(spec.pools) && name in Topology(spec.pools)
    ensures var config := Config(spec.pools, name);
            && config.Some?
            && (Apply(spec, name, w).Some? && !NeedsUpdate(spec, name, Apply(spec, name, w).value) <==>
                Steady(config.value))
            && (!NeedsUpdate(spec, name, Fresh(spec, name)) <==> Steady(config.value))
  {
    ConfigFound(spec.pools, name);
    ConfigsAgree(spec.pools, name);
  }

  /** A workload of a steady pool needs no update exactly if applying the template would leave it as it is. */
  lemma UpToDateIff(spec: Spec, name: string, w: Workload)
    requires WellFormed(spec.pools) && name in Topology(spec.pools) && w.pool == Some(name)
    requires Config(spec.pools, name).Some? && Steady(Config(spec.pools, name).value)
    ensures !NeedsUpdate(spec, name, w) <==> Apply(spec, name, w) == Some(w)
  {
    ConfigFound(spec.pools, name);
    ConfigsAgree(spec.pools, name);
    hide Topology, UniqueNames;
  }

  /** A new workload whose patch does not apply has everything that the patch does not decide. */
  lemma RefusedPatchIsSkipped(spec: Spec, name: string)
    requires UniqueNames(spec.pools) && name in Topology(spec.pools) && !Appliable(spec, name)
    ensures var config := Config(spec.pools, name);
            && config.Some?
            && Fresh(spec, name) == Workload(spec.kind, Some(name), spec.revision,
                                             if config.value.replicas.Some? then config.value.replicas.value else 0, "")
  {
    ConfigFound(spec.pools, name);
    ConfigsAgree(spec.pools, name);
    hide Topology, UniqueNames;
  }

  /** Applying the template again to its own result changes nothing, so a retried update is harmless. */
  lemma ApplyIsIdempotent(spec: Spec, name: string, w: Workload)
    requires Apply(spec, name, w).Some?
    ensures Apply(spec, name, Apply(spec, name, w).value) == Apply(spec, name, w)
    ensures Apply(spec, name, w).value.kind == w.kind && Apply(spec, name, w).value.pool == Some(name)
  {
  }

  lemma AppliesIff(spec: Spec, name: string, w: Workload)
    ensures Apply(spec, name, w).Some? <==> Appliable(spec, name)
  {
  }

  // ---------- The phases of a reconcile ----------

  predicate Labelled(w: Workload) {
    w.pool.Some? && w.pool.value != ""
  }

  function OfKind(s: Store, kind: Kind): set<nat> {
    set u | u in s && s[u].kind == kind
  }

  function OtherKind(s: Store, kind: Kind): set<nat> {
    set u | u in s && s[u].kind != kind
  }

  ghost predicate AllLabelled(s: Store, us: set<nat>) {
    forall u :: u in us && u in s ==> Labelled(s[u])
  }

  /** The workloads of one pool. */
  function Of(s: Store, kind: Kind, name: string): set<nat> {
    set u | u in s && s[u].kind == kind && s[u].pool == Some(name)
  }

  /** `heads` picks one workload for each pool name that some workload of the kind carries. */
  ghost predicate IsHeads(s: Store, kind: Kind, heads: map<string, nat>) {
    && (forall name :: name in heads ==> heads[name] in Of(s, kind, name))
    && (forall u :: u in OfKind(s, kind) && s[u].pool.Some? ==> s[u].pool.value in heads)
  }

  function Duplicates(s: Store, kind: Kind, heads: map<string, nat>): set<nat> {
    OfKind(s, kind) - heads.Values
  }

  /** Some of the named pools got a new workload, none more than one; all of them if `all`. */
  ghost predicate CreatedFor(s: Store, s': Store, spec: Spec, names: set<string>, used: set<nat>, all: bool) {
    && Sub(s, s')
    && (forall u :: u in s'.Keys - s.Keys ==>
          u !in used && s'[u].pool.Some? && s'[u].pool.value in names && s'[u] == Fresh(spec, s'[u].pool.value))
    && (forall u, v :: u in s'.Keys - s.Keys && v in s'.Keys - s.Keys && s'[u].pool == s'[v].pool ==> u == v)
    && (all ==> forall name :: name in names ==> exists u :: u in s'.Keys - s.Keys && s'[u].pool == Some(name))
  }

  /** The named pools' heads were rewritten from the template, except perhaps those whose update returned an error. */
  ghost predicate UpdatedFor(s: Store, s': Store, spec: Spec, heads: map<string, nat>, names: set<string>,
                             errs: set<string>)
    requires names <= heads.Keys
  {
    && s'.Keys == s.Keys
    && (forall u :: u in s && (forall name :: name in names ==> heads[name] != u) ==> s'[u] == s[u])
    && (forall name :: name in names && heads[name] in s ==>
          || s'[heads[name]] == s[heads[name]]
          || Some(s'[heads[name]]) == Apply(spec, name, s[heads[name]]))
    && (forall name :: name in names && name !in errs && heads[name] in s ==>
          Some(s'[heads[name]]) == Apply(spec, name, s[heads[name]]))
  }

  function Creates(spec: Spec, heads: map<string, nat>): set<string> {
    Topology(spec.pools) - heads.Keys
  }

  function Deletes(spec: Spec, heads: map<string, nat>): set<string> {
    heads.Keys - Topology(spec.pools)
  }

  function Kept(spec: Spec, heads: map<string, nat>): set<string> {
    Topology(spec.pools) * heads.Keys
  }

  /** The kept pools whose listed workload differs from what is wanted. */
  function Outdated(spec: Spec, s: Store, heads: map<string, nat>): set<string> {
    set name | name in Kept(spec, heads) && heads[name] in s && NeedsUpdate(spec, name, s[heads[name]])
  }

  /** The pools whose update is refused because their patch does not apply. */
  function Refused(spec: Spec, names: set<string>): set<string> {
    set name | name in names && !Appliable(spec, name)
  }

  function HeadsOf(heads: map<string, nat>, names: set<string>): set<nat> {
    set name | name in names && name in heads :: heads[name]
  }

  /**
    The states of one reconcile: listed, without duplicates, with new pools, without surplus pools, without the other
    kind, updated. `clean` says that no API call failed, `calls` counts the writing calls. Updates were tried for the
    first `tried` of the outdated pools in sorted order, and returned an error for those of `errs`.
   */
  datatype Pass = Pass(s0: Store, heads: map<string, nat>, s1: Store, s2: Store, s3: Store, s4: Store, s5: Store,
                       listed: bool, deduped: bool, provisioned: bool, reported: Reported, tried: nat,
                       errs: set<string>, clean: bool, calls: nat)

  /** How many errors the three provisioning phases collect; a creation that times out is none. */
  datatype Reported = Reported(creations: nat, deletions: nat, cleanings: nat)

  predicate NoneReported(r: Reported) {
    r.creations == 0 && r.deletions == 0 && r.cleanings == 0
  }

  /** Nothing to do: no duplicate, nothing missing, surplus or outdated, nothing of the other kind. */
  ghost predicate Quiet(spec: Spec, p: Pass) {
    && p.listed && Duplicates(p.s0, spec.kind, p.heads) == {}
    && Creates(spec, p.heads) == {} && Deletes(spec, p.heads) == {} && Outdated(spec, p.s0, p.heads) == {}
    && OtherKind(p.s0, spec.kind) == {}
  }

  ghost predicate Provision(spec: Spec, p: Pass) {
    && CreatedFor(p.s1, p.s2, spec, Creates(spec, p.heads), p.s0.Keys, p.clean)
    && Removed(p.s2, p.s3, HeadsOf(p.heads, Deletes(spec, p.heads)), p.clean)
    && Removed(p.s3, p.s4, OtherKind(p.s3, spec.kind), p.clean && AllLabelled(p.s0, OtherKind(p.s0, spec.kind)))
    && (p.provisioned <==> NoneReported(p.reported) && AllLabelled(p.s3, OtherKind(p.s3, spec.kind)))
    && (p.reported.deletions == 0 ==> p.s3.Keys !! HeadsOf(p.heads, Deletes(spec, p.heads)))
    && (p.provisioned ==> p.s4.Keys !! OtherKind(p.s3, spec.kind))
    && (p.clean ==> NoneReported(p.reported))
    && (p.clean && AllLabelled(p.s0, OtherKind(p.s0, spec.kind)) ==> p.provisioned)
  }

  /** The outdated pools in the order in which they are updated. */
  ghost function Queue(spec: Spec, p: Pass): seq<string> {
    Names.Listing(Outdated(spec, p.s0, p.heads))
  }

  /** Slow start over the names: only the heads of tried names change; without API failures only refusals are errors. */
  ghost predicate UpdatedInOrder(s: Store, s': Store, spec: Spec, heads: map<string, nat>, names: seq<string>,
                                 tried: nat, errs: set<string>, clean: bool)
  {
    && SlowStarted(names, tried, errs) && Elements(names[..tried]) <= heads.Keys
    && UpdatedFor(s, s', spec, heads, Elements(names[..tried]), errs)
    && (clean ==> errs == Refused(spec, Elements(names[..tried])))
  }

  ghost predicate IsPass(spec: Spec, p: Pass) {
    && (p.listed <==> AllLabelled(p.s0, OfKind(p.s0, spec.kind)))
    && (!p.listed ==> p.s5 == p.s0 && p.calls == 0)
    && (p.listed ==>
          && IsHeads(p.s0, spec.kind, p.heads)
          && Removed(p.s0, p.s1, Duplicates(p.s0, spec.kind, p.heads), p.deduped))
    && (p.listed && p.clean ==> p.deduped)
    && (p.listed && !p.deduped ==> p.s5 == p.s1)
    && (p.listed && p.deduped ==> Provision(spec, p))
    && (p.listed && p.deduped && !p.provisioned ==> p.s5 == p.s4)
    && (p.listed && p.deduped && p.provisioned ==>
          UpdatedInOrder(p.s4, p.s5, spec, p.heads, Queue(spec, p), p.tried, p.errs, p.clean))
  }

  /** No writing call is made if there is nothing to do. */
  ghost predicate CallsForWork(spec: Spec, p: Pass) {
    Quiet(spec, p) ==> p.calls == 0
  }
}
