/**
  The revision history of a YurtAppSet: trimming, numbering, rolling back by renumbering, and probing for a free name
  when hashes collide. Revisions are compared by their data. `naming(data, collisions)` is the name that a revision
  with this data gets at this collision count. A stored revision may belong to somebody else (`owned` is false).
 */
module Revisions {
  import opened Common

  datatype Revision = Revision(data: string, number: int, owned: bool)

  datatype Entry = Entry(name: string, data: string, number: int)

  type Store = map<string, Revision>

  /** What one pass returns: the names of the current and the update revision and the collision count. */
  datatype Outcome = Outcome(store: Store, current: string, update: string, collisions: nat)

  // ---------- The listed history ----------

  /** All owned revisions of the store in ascending order of their numbers; ties may come in any order. */
  ghost predicate IsHistory(h: seq<Entry>, s: Store) {
    && (forall i, j :: 0 <= i < j < |h| ==> h[i].number <= h[j].number && h[i].name != h[j].name)
    && (forall i :: 0 <= i < |h| ==>
          h[i].name in s && s[h[i].name] == Revision(h[i].data, h[i].number, true))
    && (forall name :: name in s && s[name].owned ==> exists i :: 0 <= i < |h| && h[i].name == name)
  }

  function Names(h: seq<Entry>): set<string> {
    set i | 0 <= i < |h| :: h[i].name
  }

  function Exceed(h: seq<Entry>, limit: nat): nat {
    if |h| > limit then |h| - limit else 0
  }

  /** The expired revisions that trimming deletes: all but the newest `limit`, and never the live one. */
  function Expired(h: seq<Entry>, limit: nat, live: string): set<string> {
    Names(h[..Exceed(h, limit)]) - {live}
  }

  function Retained(h: seq<Entry>, limit: nat): seq<Entry> {
    h[Exceed(h, limit)..]
  }

  function NextRevision(h: seq<Entry>): int {
    if h == [] then 1 else h[|h| - 1].number + 1
  }

  /** The last entry holding the data, as an index; -1 if there is none. */
  function LastEqual(h: seq<Entry>, data: string): (i: int)
    ensures -1 <= i < |h|
    ensures i >= 0 ==> h[i].data == data
    ensures forall j :: i < j < |h| ==> h[j].data != data
  {
    if h == [] then -1
    else if h[|h| - 1].data == data then |h| - 1
    else LastEqual(h[..|h| - 1], data)
  }

  // ---------- Probing for a name ----------

  ghost predicate Injective(naming: (string, nat) -> string, data: string) {
    forall c, d :: c != d ==> naming(data, c) != naming(data, d)
  }

  predicate Collides(s: Store, naming: (string, nat) -> string, data: string, c: nat) {
    naming(data, c) in s && s[naming(data, c)].data != data
  }

  /** Stored names that the probe can still run into. */
  ghost function Ahead(s: Store, naming: (string, nat) -> string, data: string, c: nat): set<string> {
    set name | name in s && exists d :: c <= d && naming(data, d) == name
  }

  /** The collision count at which the probe stops. */
  ghost function Probe(s: Store, naming: (string, nat) -> string, data: string, c: nat): (p: nat)
    requires Injective(naming, data)
    ensures c <= p && !Collides(s, naming, data, p)
    ensures forall d :: c <= d < p ==> Collides(s, naming, data, d)
    decreases |Ahead(s, naming, data, c)|
  {
    if Collides(s, naming, data, c) then
      AheadShrinks(s, naming, data, c);
      Probe(s, naming, data, c + 1)
    else c
  }

  lemma AheadShrinks(s: Store, naming: (string, nat) -> string, data: string, c: nat)
    requires Injective(naming, data) && naming(data, c) in s
    ensures |Ahead(s, naming, data, c + 1)| < |Ahead(s, naming, data, c)|
  {
    var more, fewer := Ahead(s, naming, data, c), Ahead(s, naming, data, c + 1);
    var name := naming(data, c);
    assert name in more && name !in fewer;
    SubsetSize(fewer, more - {name});
  }

  /** The probe ends within one try more than there are stored revisions. */
  lemma {:induction false} ProbeIsShort(s: Store, naming: (string, nat) -> string, data: string, c: nat)
    requires Injective(naming, data)
    ensures Probe(s, naming, data, c) - c <= |Ahead(s, naming, data, c)| <= |s|
    decreases |Ahead(s, naming, data, c)|
  {
    SubsetSize(Ahead(s, naming, data, c), s.Keys);
    if Collides(s, naming, data, c) {
      AheadShrinks(s, naming, data, c);
      ProbeIsShort(s, naming, data, c + 1);
    }
  }

  // ---------- One pass ----------

  ghost function Created(s: Store, naming: (string, nat) -> string, data: string, number: int, c: nat)
    : (r: (Store, string, nat))
    requires Injective(naming, data)
  {
    var p := Probe(s, naming, data, c);
    var name := naming(data, p);
    (if name in s then s else s[name := Revision(data, number, true)], name, p)
  }

  function CurrentName(h: seq<Entry>, recorded: string, update: string): string {
    if recorded in Names(h) then recorded else update
  }

  ghost function Constructed(s: Store, h: seq<Entry>, naming: (string, nat) -> string, data: string,
                             limit: nat, recorded: string, collisions: nat): Outcome
    requires Injective(naming, data) && IsHistory(h, s)
  {
    var s1 := s - Expired(h, limit, recorded);
    var kept := Retained(h, limit);
    var i := LastEqual(kept, data);
    if i >= 0 && i == |kept| - 1 then
      Outcome(s1, CurrentName(kept, recorded, kept[i].name), kept[i].name, collisions)
    else if i >= 0 then
      Outcome(s1[kept[i].name := Revision(data, NextRevision(kept), true)],
              CurrentName(kept, recorded, kept[i].name), kept[i].name, collisions)
    else
      var (s2, name, c) := Created(s1, naming, data, NextRevision(kept), collisions);
      Outcome(s2, CurrentName(kept, recorded, name), name, c)
  }

  // ---------- The controller ----------

  class HistoryController {
    var store: map<string, Revision>
    const naming: (string, nat) -> string

    constructor (naming: (string, nat) -> string)
      ensures store == map[] && this.naming == naming
    {
      store := map[];
      this.naming := naming;
    }

    /** The owned revisions, sorted by number. */
    method ListHistory() returns (h: seq<Entry>)
      ensures IsHistory(h, store)
    {
      h := [];
      var todo := store.Keys;
      while todo != {}
        invariant todo <= store.Keys
        invariant IsHistory(h, store - todo)
        decreases |todo|
      {
        var name :| name in todo;
        var rev := store[name];
        ghost var before := store - todo;
        todo := todo - {name};
        assert store - todo == before[name := rev];
        if rev.owned {
          h := InsertByNumber(h, Entry(name, rev.data, rev.number), before);
        }
      }
      assert store - todo == store;
    }

    /** Deletes expired revisions one by one until a retained one is met. */
    method CleanExpiredRevision(limit: nat, live: string, h: seq<Entry>) returns (kept: seq<Entry>)
      requires forall i, j :: 0 <= i < j < |h| ==> h[i].name != h[j].name
      modifies this
      ensures store == old(store) - Expired(h, limit, live)
      ensures kept == Retained(h, limit)
    {
      if |h| <= limit {
        assert Names(h[..0]) == {};
        return h;
      }
      var exceed := |h| - limit;
      var i := 0;
      while i < |h|
        invariant 0 <= i <= |h|
        invariant store == old(store) - (Names(h[..Min(i, exceed)]) - {live})
      {
        if h[i].name == live {
          NamesOneMore(h, i);
          i := i + 1;
          continue;
        }
        if i >= exceed {
          break;
        }
        NamesOneMore(h, i);
        store := store - {h[i].name};
        i := i + 1;
      }
      kept := h[exceed..];
    }

    /** Tries one name after the other until one is free or already holds the data. */
    method CreateControllerRevision(data: string, number: int, collisions: nat) returns (name: string, c: nat)
      requires Injective(naming, data)
      modifies this
      ensures (store, name, c) == Created(old(store), naming, data, number, collisions)
    {
      c := collisions;
      while true
        invariant collisions <= c && store == old(store)
        invariant Probe(store, naming, data, c) == Probe(store, naming, data, collisions)
        decreases |Ahead(store, naming, data, c)|
      {
        name := naming(data, c);
        if name !in store {
          store := store[name := Revision(data, number, true)];
          return;
        }
        if store[name].data == data {
          return;
        }
        AheadShrinks(store, naming, data, c);
        c := c + 1;
      }
    }

    /** The retained revision with the recorded name, or the update revision if there is none. */
    method FindCurrent(kept: seq<Entry>, recorded: string, update: string) returns (current: string)
      ensures current == CurrentName(kept, recorded, update)
    {
      var found := None;
      for k := 0 to |kept|
        invariant found == if recorded in Names(kept[..k]) then Some(recorded) else None
      {
        NamesOneMore(kept, k);
        if kept[k].name == recorded {
          found := Some(kept[k].name);
        }
      }
      assert kept[..|kept|] == kept;
      current := if found.Some? then found.value else update;
    }

    /** One pass over the history for the given template data. */
    method ConstructRevisions(data: string, limit: nat, recorded: string, collisions: nat)
      returns (current: string, update: string, c: nat, ghost h: seq<Entry>)
      requires Injective(naming, data)
      modifies this
      ensures IsHistory(h, old(store))
      ensures Outcome(store, current, update, c) ==
              Constructed(old(store), h, naming, data, limit, recorded, collisions)
    {
      var listed := ListHistory();
      h := listed;
      var kept := CleanExpiredRevision(limit, recorded, listed);
      c := collisions;
      var number := NextRevision(kept);
      var i := LastEqual(kept, data);
      if i >= 0 && kept[|kept| - 1].data == kept[i].data {
        assert i == |kept| - 1;
        update := kept[|kept| - 1].name;
      } else if i >= 0 {
        update := kept[i].name;
        store := store[update := Revision(data, number, true)];
      } else {
        update, c := CreateControllerRevision(data, number, collisions);
      }
      current := FindCurrent(kept, recorded, update);
    }
  }

  lemma NamesOneMore(h: seq<Entry>, i: nat)
    requires i < |h|
    ensures Names(h[..i + 1]) == Names(h[..i]) + {h[i].name}
  {
    assert h[..i + 1][i] == h[i];
    forall name | name in Names(h[..i]) ensures name in Names(h[..i + 1]) {
      var j :| 0 <= j < i && h[..i][j].name == name;
      assert h[..i + 1][j].name == name;
    }
  }

  /** Inserts an entry behind all entries with smaller or equal numbers. */
  method InsertByNumber(h: seq<Entry>, e: Entry, ghost s: Store) returns (h': seq<Entry>)
    requires IsHistory(h, s) && e.name !in s
    ensures IsHistory(h', s[e.name := Revision(e.data, e.number, true)])
  {
    var i := |h|;
    while i > 0 && h[i - 1].number > e.number
      invariant 0 <= i <= |h|
      invariant forall j :: i <= j < |h| ==> e.number < h[j].number
    {
      i := i - 1;
    }
    h' := h[..i] + [e] + h[i..];
    InsertedIsHistory(h, e, s, i);
  }

  function Inserted(h: seq<Entry>, e: Entry, i: nat): seq<Entry>
    requires i <= |h|
  {
    h[..i] + [e] + h[i..]
  }

  lemma InsertedAt(h: seq<Entry>, e: Entry, i: nat, j: nat)
    requires i <= |h| && j <= |h|
    ensures |Inserted(h, e, i)| == |h| + 1
    ensures Inserted(h, e, i)[j] == if j < i then h[j] else if j == i then e else h[j - 1]
  {
  }

  lemma InsertedIsOrdered(h: seq<Entry>, e: Entry, s: Store, i: nat, j: nat, k: nat)
    requires IsHistory(h, s) && e.name !in s && i <= |h| && j < k <= |h|
    requires i < |h| ==> e.number < h[i].number
    requires i > 0 ==> h[i - 1].number <= e.number
    ensures var h' := Inserted(h, e, i); 
            |h'| == |h| + 1 && h'[j].number <= h'[k].number && h'[j].name != h'[k].name
  {
    InsertedAt(h, e, i, j);
    InsertedAt(h, e, i, k);
    hide Inserted;
    assert j < i ==> h[j].number <= h[i - 1].number;
    assert i < k ==> h[i].number <= h[k - 1].number;
  }

  lemma InsertedHolds(h: seq<Entry>, e: Entry, s: Store, i: nat, name: string)
    requires IsHistory(h, s) && i <= |h| && (name == e.name || (name in s && s[name].owned))
    ensures exists j :: 0 <= j < |Inserted(h, e, i)| && Inserted(h, e, i)[j].name == name
  {
    if name == e.name {
      InsertedAt(h, e, i, i);
    } else {
      var j :| 0 <= j < |h| && h[j].name == name;
      InsertedAt(h, e, i, if j < i then j else j + 1);
    }
  }

  lemma InsertedIsHistory(h: seq<Entry>, e: Entry, s: Store, i: nat)
    requires IsHistory(h, s) && e.name !in s && i <= |h|
    requires forall j :: i <= j < |h| ==> e.number < h[j].number
    requires i > 0 ==> h[i - 1].number <= e.number
    ensures IsHistory(Inserted(h, e, i), s[e.name := Revision(e.data, e.number, true)])
  {
    InsertedAt(h, e, i, i);
    hide Inserted;
    var h', s' := Inserted(h, e, i), s[e.name := Revision(e.data, e.number, true)];
    forall j, k | 0 <= j < k < |h'| ensures h'[j].number <= h'[k].number && h'[j].name != h'[k].name {
      InsertedIsOrdered(h, e, s, i, j, k);
    }
    forall j | 0 <= j < |h'| ensures h'[j].name in s' && s'[h'[j].name] == Revision(h'[j].data, h'[j].number, true) {
      InsertedAt(h, e, i, j);
    }
    forall name | name in s' && s'[name].owned ensures exists j :: 0 <= j < |h'| && h'[j].name == name {
      InsertedHolds(h, e, s, i, name);
    }
  }
}
