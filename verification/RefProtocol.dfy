/**
  Any number of owners claim the same objects at the same time from copies read at any earlier moment, while other
  clients create, edit and delete objects. No object ever gets a second controller, and no owner ever touches another
  owner's controller reference.
 */
module RefProtocol {
  import opened RefManager

  /** The server, and every copy that anybody has ever read. */
  datatype World = World(server: Server, known: set<Item>)

  datatype Action =
    | Read(name: string)
    | ClaimBy(owner: OwnerInfo, item: Item, matches: bool, mayAdopt: bool)
    | Create(name: string, obj: Object)
    | Edit(name: string, obj: Object)
    | Delete(name: string)

  /** Other clients may change anything but the controller references. */
  predicate Enabled(w: World, a: Action) {
    match a
    case Read(name) => name in w.server.objects
    case ClaimBy(owner, item, matches, mayAdopt) => item in w.known
    case Create(name, obj) => name !in w.server.objects && |Controllers(obj.refs)| <= 1
    case Edit(name, obj) =>
      name in w.server.objects && Controllers(obj.refs) == Controllers(w.server.objects[name].refs)
    case Delete(name) => name in w.server.objects
  }

  function Step(w: World, a: Action): World
    requires Enabled(w, a)
  {
    var s := w.server;
    match a
    case Read(name) => w.(known := w.known + {Item(name, s.objects[name])})
    case ClaimBy(owner, item, matches, mayAdopt) => w.(server := Claim(s, owner, item, matches, mayAdopt).0)
    case Create(name, obj) =>
      w.(server := Server(s.objects[name := obj.(version := s.clock + 1)], s.clock + 1))
    case Edit(name, obj) =>
      w.(server := Server(s.objects[name := obj.(version := s.clock + 1)], s.clock + 1))
    case Delete(name) => w.(server := s.(objects := s.objects - {name}))
  }

  ghost predicate ObjectsOk(s: Server) {
    forall name :: name in s.objects ==>
      s.objects[name].version <= s.clock && |Controllers(s.objects[name].refs)| <= 1
  }

  /** A known copy whose version is still the stored one is the stored object. */
  ghost predicate CopiesOk(w: World) {
    forall item :: item in w.known ==>
      && item.copy.version <= w.server.clock && |Controllers(item.copy.refs)| <= 1
      && (item.name in w.server.objects && w.server.objects[item.name].version == item.copy.version ==>
            w.server.objects[item.name] == item.copy)
  }

  ghost predicate Inv(w: World) {
    ObjectsOk(w.server) && CopiesOk(w)
  }

  /** The references an accepted claim leaves: at most one controller, and everybody else's as before. */
  lemma ClaimKeepsOthers(w: World, owner: OwnerInfo, item: Item, matches: bool, mayAdopt: bool, name: string)
    requires Inv(w) && item in w.known && name in w.server.objects
    ensures var s' := Claim(w.server, owner, item, matches, mayAdopt).0;
            && name in s'.objects
            && Others(s'.objects[name].refs, owner.uid) == Others(w.server.objects[name].refs, owner.uid)
            && |Controllers(s'.objects[name].refs)| <= 1
  {
    UpsertOrDrop(item.copy.refs, owner);
  }

  lemma UpsertOrDrop(refs: seq<Ref>, owner: OwnerInfo)
    ensures Others(DropUid(refs, owner.uid), owner.uid) == Others(refs, owner.uid)
    ensures |Controllers(DropUid(refs, owner.uid))| <= |Controllers(refs)|
    ensures Controllers(refs) == [] ==>
              && Controllers(Upsert(refs, OwnRef(owner))) == [OwnRef(owner)]
              && Others(refs, owner.uid) == Others(Upsert(refs, OwnRef(owner)), owner.uid)
  {
    DropUidFacts(refs, owner.uid);
    if Controllers(refs) == [] {
      UpsertFacts(refs, OwnRef(owner));
    }
  }

  lemma ClaimStepKeepsInv(w: World, owner: OwnerInfo, item: Item, matches: bool, mayAdopt: bool)
    requires Inv(w) && item in w.known
    ensures Inv(w.(server := Claim(w.server, owner, item, matches, mayAdopt).0))
  {
    var s' := Claim(w.server, owner, item, matches, mayAdopt).0;
    forall name | name in s'.objects
      ensures s'.objects[name].version <= s'.clock && |Controllers(s'.objects[name].refs)| <= 1
    {
      ClaimKeepsOthers(w, owner, item, matches, mayAdopt, name);
    }
  }

  lemma StepKeepsInv(w: World, a: Action)
    requires Inv(w) && Enabled(w, a)
    ensures Inv(Step(w, a))
  {
    match a
    case ClaimBy(owner, item, matches, mayAdopt) => ClaimStepKeepsInv(w, owner, item, matches, mayAdopt);
    case _ =>
  }

  ghost predicate IsRun(worlds: seq<World>, actions: seq<Action>) {
    && |worlds| == |actions| + 1
    && worlds[0] == World(Server(map[], 0), {})
    && forall i :: 0 <= i < |actions| ==> Enabled(worlds[i], actions[i]) && worlds[i + 1] == Step(worlds[i], actions[i])
  }

  lemma {:induction false} RunKeepsInv(worlds: seq<World>, actions: seq<Action>, i: nat)
    requires IsRun(worlds, actions) && i < |worlds|
    ensures Inv(worlds[i])
  {
    if i > 0 {
      RunKeepsInv(worlds, actions, i - 1);
      StepKeepsInv(worlds[i - 1], actions[i - 1]);
    }
  }

  /** Single controller: in every state of every run, no stored object has two controller references. */
  lemma SingleController(worlds: seq<World>, actions: seq<Action>, i: nat, name: string)
    requires IsRun(worlds, actions) && i < |worlds| && name in worlds[i].server.objects
    ensures |Controllers(worlds[i].server.objects[name].refs)| <= 1
  {
    RunKeepsInv(worlds, actions, i);
  }

  /** No step of one owner adds, changes or removes a controller reference of another. */
  lemma OthersUntouched(worlds: seq<World>, actions: seq<Action>, i: nat, name: string)
    requires IsRun(worlds, actions) && i < |actions| && actions[i].ClaimBy? && name in worlds[i].server.objects
    ensures name in worlds[i + 1].server.objects
    ensures var uid := actions[i].owner.uid;
            Others(worlds[i + 1].server.objects[name].refs, uid) == Others(worlds[i].server.objects[name].refs, uid)
  {
    RunKeepsInv(worlds, actions, i);
    var a := actions[i];
    ClaimKeepsOthers(worlds[i], a.owner, a.item, a.matches, a.mayAdopt, name);
  }

  /**
    No step of one owner adds, changes or removes any reference of another, controller or not, nor the order of them,
    nor the object's labels or deletion mark. A reference to the same kind and name under an older UID is the owner's.
   */
  lemma StrangersUntouched(worlds: seq<World>, actions: seq<Action>, i: nat, name: string)
    requires IsRun(worlds, actions) && i < |actions| && actions[i].ClaimBy? && name in worlds[i].server.objects
    ensures name in worlds[i + 1].server.objects
    ensures var before, after := worlds[i].server.objects[name], worlds[i + 1].server.objects[name];
            && Strangers(after.refs, actions[i].owner) == Strangers(before.refs, actions[i].owner)
            && after.labels == before.labels && after.deleting == before.deleting
  {
    RunKeepsInv(worlds, actions, i);
    var a := actions[i];
    WritesKeepStrangers(a.item.copy.refs, a.owner);
  }

  /** An adoption that the server accepted really took place: the owner is the one controller afterwards. */
  lemma AcceptedAdoptionControls(worlds: seq<World>, actions: seq<Action>, i: nat)
    requires IsRun(worlds, actions) && i < |actions| && actions[i].ClaimBy?
    requires Controllers(actions[i].item.copy.refs) == []
    requires Claim(worlds[i].server, actions[i].owner, actions[i].item, actions[i].matches,
                   actions[i].mayAdopt).1 == Claimed
    ensures var name := actions[i].item.name;
            && name in worlds[i].server.objects && Controllers(worlds[i].server.objects[name].refs) == []
            && Controllers(worlds[i + 1].server.objects[name].refs) == [OwnRef(actions[i].owner)]
  {
    RunKeepsInv(worlds, actions, i);
    UpsertOrDrop(actions[i].item.copy.refs, actions[i].owner);
  }
}
