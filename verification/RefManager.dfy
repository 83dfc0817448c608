/**
  Claiming objects by owner reference. An owner works on copies it read earlier; the API server accepts an update only
  if the copy's version is still the stored one. Versions come from one clock, so they are never reused.
  The rule of `SetControllerReference` is the library's: a reference to an owner of the same kind and name is replaced
  in place, otherwise the new one is appended.
 */
module RefManager {
  import opened Common

  datatype Ref = Ref(kind: string, name: string, uid: string, controller: bool)

  datatype Object = Object(version: nat, refs: seq<Ref>, labels: map<string, string>, deleting: bool)

  datatype OwnerInfo = OwnerInfo(kind: string, name: string, uid: string, deleting: bool)

  datatype Reply = Accepted | Conflict | NotFound

  datatype Server = Server(objects: map<string, Object>, clock: nat)

  datatype Item = Item(name: string, copy: Object)

  datatype Verdict = Claimed | NotClaimed | Failed

  // ---------- Owner references ----------

  function Controllers(refs: seq<Ref>): seq<Ref> {
    if refs == [] then []
    else if refs[0].controller then [refs[0]] + Controllers(refs[1..])
    else Controllers(refs[1..])
  }

  /** `GetControllerOf`: the first controller reference. */
  function ControllerOf(refs: seq<Ref>): Option<Ref> {
    if Controllers(refs) == [] then None else Some(Controllers(refs)[0])
  }

  function OwnRef(owner: OwnerInfo): Ref {
    Ref(owner.kind, owner.name, owner.uid, true)
  }

  function Upsert(refs: seq<Ref>, r: Ref): seq<Ref> {
    if refs == [] then [r]
    else if refs[0].kind == r.kind && refs[0].name == r.name then [r] + refs[1..]
    else [refs[0]] + Upsert(refs[1..], r)
  }

  /** `release` drops the first reference with the owner's UID. */
  function DropUid(refs: seq<Ref>, uid: string): seq<Ref> {
    if refs == [] then []
    else if refs[0].uid == uid then refs[1..]
    else [refs[0]] + DropUid(refs[1..], uid)
  }

  function HasUid(refs: seq<Ref>, uid: string): bool {
    exists i :: 0 <= i < |refs| && refs[i].uid == uid
  }

  // ---------- One update, one claim ----------

  /** The server's answer to an update made from a copy. */
  function Put(s: Server, name: string, copy: Object, refs: seq<Ref>): (r: (Server, Reply)) {
    if name !in s.objects then (s, NotFound)
    else if s.objects[name].version != copy.version then (s, Conflict)
    else (Server(s.objects[name := copy.(refs := refs, version := s.clock + 1)], s.clock + 1), Accepted)
  }

  /**
    A claim's verdict from the reply to its write. The code means to ignore a vanished object, but it formats the
    server's error into a new one before testing it, so the test never succeeds and a vanished object fails the claim.
   */
  function VerdictOf(reply: Reply, success: Verdict): Verdict {
    match reply
    case Accepted => success
    case NotFound => Failed
    case Conflict => Failed
  }

  function Claim(s: Server, owner: OwnerInfo, item: Item, matches: bool, mayAdopt: bool): (r: (Server, Verdict)) {
    var copy := item.copy;
    match ControllerOf(copy.refs)
    case Some(c) =>
      if c.uid != owner.uid then (s, NotClaimed)
      else if matches then (s, Claimed)
      else if owner.deleting then (s, NotClaimed)
      else if !HasUid(copy.refs, owner.uid) then (s, NotClaimed)
      else
        var (s', reply) := Put(s, item.name, copy, DropUid(copy.refs, owner.uid));
        (s', VerdictOf(reply, NotClaimed))
    case None =>
      if owner.deleting || !matches || copy.deleting then (s, NotClaimed)
      else if !mayAdopt then (s, Failed)
      else
        var (s', reply) := Put(s, item.name, copy, Upsert(copy.refs, OwnRef(owner)));
        (s', VerdictOf(reply, Claimed))
  }

  // ---------- Facts about references ----------

  /** The controller references that are not the given owner's. */
  function Others(refs: seq<Ref>, uid: string): seq<Ref> {
    if refs == [] then []
    else if refs[0].controller && refs[0].uid != uid then [refs[0]] + Others(refs[1..], uid)
    else Others(refs[1..], uid)
  }

  lemma {:induction false} UpsertFacts(refs: seq<Ref>, r: Ref)
    requires Controllers(refs) == [] && r.controller
    ensures Controllers(Upsert(refs, r)) == [r]
    ensures Others(refs, r.uid) == [] && Others(Upsert(refs, r), r.uid) == []
  {
    if refs != [] {
      UpsertFacts(refs[1..], r);
      assert ([r] + refs[1..])[1..] == refs[1..];
      assert ([refs[0]] + Upsert(refs[1..], r))[1..] == Upsert(refs[1..], r);
    }
  }

  lemma {:induction false} DropUidFacts(refs: seq<Ref>, uid: string)
    ensures Others(DropUid(refs, uid), uid) == Others(refs, uid)
    ensures |Controllers(DropUid(refs, uid))| <= |Controllers(refs)|
  {
    if refs != [] && refs[0].uid != uid {
      DropUidFacts(refs[1..], uid);
      assert ([refs[0]] + DropUid(refs[1..], uid))[1..] == DropUid(refs[1..], uid);
    }
  }

  predicate SameOwner(a: Ref, b: Ref) {
    a.kind == b.kind && a.name == b.name
  }

  /** `i` is where the reference goes: at the first one to an owner of this kind and name, or else at the end. */
  ghost predicate IsSlot(refs: seq<Ref>, r: Ref, i: nat) {
    && i <= |refs| && (forall j :: 0 <= j < i ==> !SameOwner(refs[j], r))
    && (i < |refs| ==> SameOwner(refs[i], r))
  }

  /** One reference is written; every other stays, in its place. */
  lemma {:induction false} UpsertAt(refs: seq<Ref>, r: Ref, i: nat)
    requires IsSlot(refs, r, i)
    ensures Upsert(refs, r) == if i < |refs| then refs[..i] + [r] + refs[i + 1..] else refs + [r]
  {
    if i > 0 {
      UpsertAt(refs[1..], r, i - 1);
      assert refs == [refs[0]] + refs[1..];
      if i < |refs| {
        assert refs[..i] == [refs[0]] + refs[1..][..i - 1] && refs[1..][i..] == refs[i + 1..];
      }
    }
  }

  /**
    What an accepted adoption leaves: the owner's reference in the place of the first one to its kind and name, or at
    the end, every other reference in its place, and the labels and the deletion mark as they were.
   */
  lemma AdoptionWrites(s: Server, owner: OwnerInfo, item: Item, i: nat)
    requires item.name in s.objects && s.objects[item.name] == item.copy
    requires Controllers(item.copy.refs) == [] && !owner.deleting && !item.copy.deleting
    requires IsSlot(item.copy.refs, OwnRef(owner), i)
    ensures var (s', v) := Claim(s, owner, item, true, true);
            var before, after := item.copy, s'.objects[item.name];
            && v == Claimed
            && |after.refs| == (if i < |before.refs| then |before.refs| else |before.refs| + 1)
            && after.refs[i] == Ref(owner.kind, owner.name, owner.uid, true)
            && (forall j :: 0 <= j < |before.refs| && j != i ==> after.refs[j] == before.refs[j])
            && after.labels == before.labels && after.deleting == before.deleting
  {
    AdoptionOutcome(s, owner, item);
    UpsertAt(item.copy.refs, OwnRef(owner), i);
    UpsertIndices(item.copy.refs, OwnRef(owner), i);
    hide Claim, Upsert, Controllers, IsSlot;
  }

  lemma AdoptionOutcome(s: Server, owner: OwnerInfo, item: Item)
    requires item.name in s.objects && s.objects[item.name] == item.copy
    requires Controllers(item.copy.refs) == [] && !owner.deleting && !item.copy.deleting
    ensures var (s', v) := Claim(s, owner, item, true, true);
            v == Claimed && item.name in s'.objects &&
            s'.objects[item.name] == item.copy.(refs := Upsert(item.copy.refs, OwnRef(owner)), version := s.clock + 1)
  {
    hide Upsert, Controllers;
  }

  lemma UpsertIndices(refs: seq<Ref>, r: Ref, i: nat)
    requires i <= |refs| && Upsert(refs, r) == if i < |refs| then refs[..i] + [r] + refs[i + 1..] else refs + [r]
    ensures var written := Upsert(refs, r);
            && |written| == (if i < |refs| then |refs| else |refs| + 1) && written[i] == r
            && forall j :: 0 <= j < |refs| && j != i ==> written[j] == refs[j]
  {
    hide Upsert;
  }

  /** The references to owners that share neither the UID nor the kind and name, whether they control or not. */
  function Strangers(refs: seq<Ref>, owner: OwnerInfo): seq<Ref> {
    if refs == [] then []
    else if refs[0].uid != owner.uid && !SameOwner(refs[0], OwnRef(owner)) then [refs[0]] + Strangers(refs[1..], owner)
    else Strangers(refs[1..], owner)
  }

  lemma {:induction false} WritesKeepStrangers(refs: seq<Ref>, owner: OwnerInfo)
    ensures Strangers(Upsert(refs, OwnRef(owner)), owner) == Strangers(refs, owner)
    ensures Strangers(DropUid(refs, owner.uid), owner) == Strangers(refs, owner)
  {
    var r := OwnRef(owner);
    if refs == [] {
      assert [r][1..] == [];
    } else {
      WritesKeepStrangers(refs[1..], owner);
      assert ([r] + refs[1..])[1..] == refs[1..];
      assert ([refs[0]] + Upsert(refs[1..], r))[1..] == Upsert(refs[1..], r);
      assert ([refs[0]] + DropUid(refs[1..], owner.uid))[1..] == DropUid(refs[1..], owner.uid);
    }
  }

  /** The index-free reading of "the first reference with this UID is the controller one". */
  predicate FirstIsController(refs: seq<Ref>, uid: string) {
    refs != [] && (if refs[0].uid == uid then refs[0].controller else FirstIsController(refs[1..], uid))
  }

  lemma {:induction false} ControllerHasUid(refs: seq<Ref>)
    ensures Controllers(refs) != [] ==> HasUid(refs, Controllers(refs)[0].uid)
  {
    if refs != [] && !refs[0].controller {
      ControllerHasUid(refs[1..]);
      if Controllers(refs) != [] {
        var i :| 0 <= i < |refs[1..]| && refs[1..][i].uid == Controllers(refs)[0].uid;
        assert refs[i + 1].uid == Controllers(refs)[0].uid;
      }
    }
  }

  /** Releasing frees the object exactly when the owner's first reference is the controller one. */
  lemma {:induction false} ReleaseFreesIff(refs: seq<Ref>, uid: string)
    requires |Controllers(refs)| == 1 && Controllers(refs)[0].uid == uid
    ensures Controllers(DropUid(refs, uid)) == [] <==> FirstIsController(refs, uid)
  {
    if refs[0].uid == uid {
      if !refs[0].controller {
        assert Controllers(DropUid(refs, uid)) == Controllers(refs);
      }
    } else {
      ReleaseFreesIff(refs[1..], uid);
      assert ([refs[0]] + DropUid(refs[1..], uid))[1..] == DropUid(refs[1..], uid);
    }
  }

  // ---------- One claim on a current copy ----------

  /** What a claim answers when the copy is current, and that the answer is true of the store afterwards. */
  lemma ClaimOnCurrentCopy(s: Server, owner: OwnerInfo, item: Item, matches: bool, mayAdopt: bool)
    requires item.name in s.objects && s.objects[item.name] == item.copy && |Controllers(item.copy.refs)| <= 1
    ensures var (s', v) := Claim(s, owner, item, matches, mayAdopt);
            var before, after := item.copy, s'.objects[item.name];
            var ours := Controllers(before.refs) != [] && Controllers(before.refs)[0].uid == owner.uid;
            var orphan := Controllers(before.refs) == [];
            var adoptable := orphan && matches && !owner.deleting && !before.deleting;
            && (v == Claimed <==> (ours && matches) || (adoptable && mayAdopt))
            && (v == Failed <==> adoptable && !mayAdopt)
            && (v == Claimed ==> |Controllers(after.refs)| == 1 && Controllers(after.refs)[0].uid == owner.uid)
            && (adoptable && mayAdopt ==> Controllers(after.refs) == [OwnRef(owner)])
            && (ours && !matches && !owner.deleting ==>
                  (Controllers(after.refs) == [] <==> FirstIsController(before.refs, owner.uid)))
            && (forall other :: other in s.objects && other != item.name ==> s'.objects[other] == s.objects[other])
  {
    var refs := item.copy.refs;
    ControllerHasUid(refs);
    if Controllers(refs) == [] {
      UpsertFacts(refs, OwnRef(owner));
    } else if Controllers(refs)[0].uid == owner.uid {
      ReleaseFreesIff(refs, owner.uid);
    }
  }

  /** The claim has a write to make: release what it may not keep, or adopt what nobody controls. */
  predicate WantsWrite(owner: OwnerInfo, copy: Object, matches: bool) {
    && !owner.deleting
    && if Controllers(copy.refs) == [] then matches && !copy.deleting
       else Controllers(copy.refs)[0].uid == owner.uid && !matches
  }

  /** For any copy, stale or not: a claim fails exactly when it may not adopt or the server refuses its write. */
  lemma ClaimFailsIff(s: Server, owner: OwnerInfo, item: Item, matches: bool, mayAdopt: bool)
    ensures var (s', v) := Claim(s, owner, item, matches, mayAdopt);
            var current := item.name in s.objects && s.objects[item.name].version == item.copy.version;
            && (v == Failed <==> WantsWrite(owner, item.copy, matches) &&
                                 (!current || (Controllers(item.copy.refs) == [] && !mayAdopt)))
            && (s' != s <==> WantsWrite(owner, item.copy, matches) && current &&
                             (Controllers(item.copy.refs) == [] ==> mayAdopt))
  {
    ControllerHasUid(item.copy.refs);
  }

  // ---------- The manager and the server as objects ----------

  class ApiServer {
    var objects: map<string, Object>
    var clock: nat
    var owners: map<string, OwnerInfo>

    constructor (owners: map<string, OwnerInfo>)
      ensures objects == map[] && clock == 0 && this.owners == owners
    {
      objects, clock := map[], 0;
      this.owners := owners;
    }

    function View(): Server
      reads this
    {
      Server(objects, clock)
    }

    method Update(name: string, copy: Object, refs: seq<Ref>) returns (reply: Reply)
      modifies this`objects, this`clock
      ensures (View(), reply) == Put(old(View()), name, copy, refs)
    {
      if name !in objects {
        return NotFound;
      }
      if objects[name].version != copy.version {
        return Conflict;
      }
      clock := clock + 1;
      objects := objects[name := copy.(refs := refs, version := clock)];
      return Accepted;
    }
  }

  class Manager {
    const server: ApiServer
    const owner: OwnerInfo
    const selector: map<string, string> -> bool
    var checked: bool
    var adoptOk: bool

    constructor (server: ApiServer, owner: OwnerInfo, selector: map<string, string> -> bool)
      ensures this.server == server && this.owner == owner && this.selector == selector && !checked
    {
      this.server, this.owner, this.selector := server, owner, selector;
      checked, adoptOk := false, false;
    }

    /** A fresh read of the owner must find the same object, not being deleted. */
    predicate CanAdopt()
      reads this, server
    {
      && owner.name in server.owners
      && server.owners[owner.name].uid == owner.uid
      && !server.owners[owner.name].deleting
    }

    /** The answer is computed at most once per manager and then kept. */
    predicate MayAdopt()
      reads this, server
    {
      if checked then adoptOk else CanAdopt()
    }

    method CanAdoptOnce() returns (ok: bool)
      modifies this`checked, this`adoptOk
      ensures ok == old(MayAdopt()) == MayAdopt() && checked
      ensures !old(checked) ==>
                (ok <==> exists name :: name in server.owners && name == owner.name &&
                           server.owners[name].uid == owner.uid && !server.owners[name].deleting)
    {
      if !checked {
        adoptOk := CanAdopt();
        checked := true;
      }
      ok := adoptOk;
    }

    method ClaimObject(item: Item) returns (verdict: Verdict)
      modifies this`checked, this`adoptOk, server`objects, server`clock
      ensures (server.View(), verdict) == Claim(old(server.View()), owner, item, selector(item.copy.labels),
                                                old(MayAdopt()))
      ensures MayAdopt() == old(MayAdopt())
    {
      var controller := ControllerOf(item.copy.refs);
      if controller.Some? {
        if controller.value.uid != owner.uid {
          return NotClaimed;
        }
        if selector(item.copy.labels) {
          return Claimed;
        }
        if owner.deleting {
          return NotClaimed;
        }
        var index, found := IndexOfUid(item.copy.refs, owner.uid);
        if !found {
          return NotClaimed;
        }
        DropAt(item.copy.refs, owner.uid, index);
        var reply := server.Update(item.name, item.copy, item.copy.refs[..index] + item.copy.refs[index + 1..]);
        return VerdictOf(reply, NotClaimed);
      }
      if owner.deleting || !selector(item.copy.labels) {
        return NotClaimed;
      }
      if item.copy.deleting {
        return NotClaimed;
      }
      var ok := CanAdoptOnce();
      if !ok {
        return Failed;
      }
      var reply := server.Update(item.name, item.copy, Upsert(item.copy.refs, OwnRef(owner)));
      return VerdictOf(reply, Claimed);
    }

    /** Claims every listed object in turn, collecting the claimed ones and counting the errors. */
    method ClaimOwnedObjects(items: seq<Item>) returns (claimed: seq<string>, errors: nat)
      modifies this`checked, this`adoptOk, server`objects, server`clock
      ensures (server.View(), claimed, errors) == ClaimAll(old(server.View()), owner, selector, old(MayAdopt()), items)
    {
      claimed, errors := [], 0;
      for i := 0 to |items|
        invariant (server.View(), claimed, errors) ==
                  ClaimAll(old(server.View()), owner, selector, old(MayAdopt()), items[..i])
        invariant MayAdopt() == old(MayAdopt())
      {
        assert items[..i + 1][..i] == items[..i];
        var verdict := ClaimObject(items[i]);
        match verdict
        case Claimed => claimed := claimed + [items[i].name];
        case Failed => errors := errors + 1;
        case NotClaimed =>
      }
      assert items[..|items|] == items;
    }
  }

  method IndexOfUid(refs: seq<Ref>, uid: string) returns (index: nat, found: bool)
    ensures found <==> HasUid(refs, uid)
    ensures found ==> index < |refs| && refs[index].uid == uid && forall j :: 0 <= j < index ==> refs[j].uid != uid
  {
    for i := 0 to |refs|
      invariant forall j :: 0 <= j < i ==> refs[j].uid != uid
    {
      if refs[i].uid == uid {
        return i, true;
      }
    }
    return 0, false;
  }

  lemma {:induction false} DropAt(refs: seq<Ref>, uid: string, i: nat)
    requires i < |refs| && refs[i].uid == uid && forall j :: 0 <= j < i ==> refs[j].uid != uid
    ensures DropUid(refs, uid) == refs[..i] + refs[i + 1..]
  {
    if i > 0 {
      DropAt(refs[1..], uid, i - 1);
      assert refs[..i] == [refs[0]] + refs[1..][..i - 1];
      assert refs[1..][i..] == refs[i + 1..];
    }
  }

  function ClaimAll(s: Server, owner: OwnerInfo, selector: map<string, string> -> bool, mayAdopt: bool,
                    items: seq<Item>)
    : (r: (Server, seq<string>, nat))
    decreases |items|
  {
    if items == [] then (s, [], 0)
    else
      var last := items[|items| - 1];
      var (s1, claimed, errors) := ClaimAll(s, owner, selector, mayAdopt, items[..|items| - 1]);
      var (s2, verdict) := Claim(s1, owner, last, selector(last.copy.labels), mayAdopt);
      (s2, if verdict == Claimed then claimed + [last.name] else claimed,
       if verdict == Failed then errors + 1 else errors)
  }

  /** The listed objects whose claims fail over the given store. */
  ghost function Failing(s: Server, owner: OwnerInfo, selector: map<string, string> -> bool, mayAdopt: bool,
                         items: seq<Item>): set<int>
  {
    set i | 0 <= i < |items| && Claim(s, owner, items[i], selector(items[i].copy.labels), mayAdopt).1 == Failed
  }

  lemma FailingOneMore(s: Server, owner: OwnerInfo, selector: map<string, string> -> bool, mayAdopt: bool,
                       items: seq<Item>)
    requires items != []
    ensures var last := items[|items| - 1];
            var before := Failing(s, owner, selector, mayAdopt, items[..|items| - 1]);
            |Failing(s, owner, selector, mayAdopt, items)| ==
            |before| + if Claim(s, owner, last, selector(last.copy.labels), mayAdopt).1 == Failed then 1 else 0
  {
    var k := |items| - 1;
    var before := Failing(s, owner, selector, mayAdopt, items[..k]);
    var fails := Claim(s, owner, items[k], selector(items[k].copy.labels), mayAdopt).1 == Failed;
    hide Claim;
    assert Failing(s, owner, selector, mayAdopt, items) == if fails then before + {k} else before;
  }

  lemma SameVerdict(s: Server, s': Server, owner: OwnerInfo, item: Item, matches: bool, mayAdopt: bool)
    requires item.name in s.objects && item.name in s'.objects && s.objects[item.name] == s'.objects[item.name]
    ensures Claim(s, owner, item, matches, mayAdopt).1 == Claim(s', owner, item, matches, mayAdopt).1
  {
  }

  /** Over a current listing, one error is reported for each claim that fails. */
  lemma {:induction false} ErrorsCountFailures(s: Server, owner: OwnerInfo, selector: map<string, string> -> bool,
                                               mayAdopt: bool, items: seq<Item>)
    requires CurrentListing(s, items)
    ensures ClaimAll(s, owner, selector, mayAdopt, items).2 == |Failing(s, owner, selector, mayAdopt, items)|
    decreases |items|
  {
    if items == [] {
      assert Failing(s, owner, selector, mayAdopt, items) == {};
    } else {
      var k := |items| - 1;
      var front, last := items[..k], items[k];
      var s1 := ClaimAll(s, owner, selector, mayAdopt, front).0;
      ErrorsCountFailures(s, owner, selector, mayAdopt, front);
      ClaimAllTouchesOnlyListed(s, owner, selector, mayAdopt, front, last.name);
      SameVerdict(s, s1, owner, last, selector(last.copy.labels), mayAdopt);
      FailingOneMore(s, owner, selector, mayAdopt, items);
      hide Claim, Failing, CurrentListing;
    }
  }

  /** The listing is current and names every object once. */
  ghost predicate CurrentListing(s: Server, items: seq<Item>) {
    && (forall i, j :: 0 <= i < j < |items| ==> items[i].name != items[j].name)
    && (forall i :: 0 <= i < |items| ==>
          && items[i].name in s.objects && s.objects[items[i].name] == items[i].copy
          && |Controllers(items[i].copy.refs)| <= 1)
  }

  lemma {:induction false} ClaimAllTouchesOnlyListed(s: Server, owner: OwnerInfo, selector: map<string, string> -> bool,
                                                     mayAdopt: bool, items: seq<Item>, other: string)
    requires other in s.objects && forall i :: 0 <= i < |items| ==> items[i].name != other
    ensures other in ClaimAll(s, owner, selector, mayAdopt, items).0.objects
    ensures ClaimAll(s, owner, selector, mayAdopt, items).0.objects[other] == s.objects[other]
    decreases |items|
  {
    if items != [] {
      ClaimAllTouchesOnlyListed(s, owner, selector, mayAdopt, items[..|items| - 1], other);
    }
  }

  /** Over a current listing, what is claimed is in the store under the owner's control when the loop ends. */
  lemma {:induction false} ClaimedAreControlled(s: Server, owner: OwnerInfo, selector: map<string, string> -> bool,
                                                mayAdopt: bool, items: seq<Item>, i: nat)
    requires CurrentListing(s, items) && i < |items|
    ensures var (s', claimed, _) := ClaimAll(s, owner, selector, mayAdopt, items);
            var copy := items[i].copy;
            && items[i].name in s'.objects
            && (items[i].name in claimed <==> Claim(s, owner, items[i], selector(copy.labels), mayAdopt).1 == Claimed)
            && (items[i].name in claimed ==>
                  var refs := s'.objects[items[i].name].refs;
                  |Controllers(refs)| == 1 && Controllers(refs)[0].uid == owner.uid)
    decreases |items|
  {
    var front, last := items[..|items| - 1], items[|items| - 1];
    var (s1, claimed1, errors1) := ClaimAll(s, owner, selector, mayAdopt, front);
    ClaimAllTouchesOnlyListed(s, owner, selector, mayAdopt, front, last.name);
    ClaimOnCurrentCopy(s1, owner, last, selector(last.copy.labels), mayAdopt);
    ClaimOnCurrentCopy(s, owner, last, selector(last.copy.labels), mayAdopt);
    if i < |items| - 1 {
      assert front[i] == items[i];
      ClaimedAreControlled(s, owner, selector, mayAdopt, front, i);
    } else {
      ClaimedAreListed(s, owner, selector, mayAdopt, front);
    }
  }

  lemma {:induction false} ClaimedAreListed(s: Server, owner: OwnerInfo, selector: map<string, string> -> bool,
                                            mayAdopt: bool, items: seq<Item>)
    ensures forall name :: name in ClaimAll(s, owner, selector, mayAdopt, items).1 ==>
              exists i :: 0 <= i < |items| && items[i].name == name
    decreases |items|
  {
    if items != [] {
      var front := items[..|items| - 1];
      ClaimedAreListed(s, owner, selector, mayAdopt, front);
      forall name | name in ClaimAll(s, owner, selector, mayAdopt, items).1
        ensures exists i :: 0 <= i < |items| && items[i].name == name
      {
        if name in ClaimAll(s, owner, selector, mayAdopt, front).1 {
          var i :| 0 <= i < |front| && front[i].name == name;
          assert items[i].name == name;
        } else {
          assert items[|items| - 1].name == name;
        }
      }
    }
  }
}
