/** What the revision history guarantees, for one pass and over whole runs with changing templates and limits. */
module RevisionRuns {
  import opened Common
  import opened Revisions

  function Owned(s: Store): set<string> {
    set name | name in s && s[name].owned
  }

  ghost predicate NumbersDistinct(s: Store) {
    forall a, b :: a in Owned(s) && b in Owned(s) && a != b ==> s[a].number != s[b].number
  }

  /** The named revision has a strictly higher number than every other owned one. */
  ghost predicate Newest(s: Store, name: string) {
    && name in Owned(s)
    && forall other :: other in Owned(s) && other != name ==> s[other].number < s[name].number
  }

  // ---------- Histories ----------

  lemma HistoryNames(h: seq<Entry>, s: Store)
    requires IsHistory(h, s)
    ensures Names(h) == Owned(s)
  {
  }

  lemma {:induction false} NamesSize(h: seq<Entry>)
    requires forall i, j :: 0 <= i < j < |h| ==> h[i].name != h[j].name
    ensures |Names(h)| == |h|
    decreases |h|
  {
    if h == [] {
      assert Names(h) == {};
    } else {
      var k := |h| - 1;
      NamesSize(h[..k]);
      NamesOneMore(h, k);
      assert h[..k + 1] == h;
      assert h[k].name !in Names(h[..k]);
    }
  }

  lemma NamesSplit(h: seq<Entry>, k: nat)
    requires k <= |h| && forall i, j :: 0 <= i < j < |h| ==> h[i].name != h[j].name
    ensures Names(h) == Names(h[..k]) + Names(h[k..]) && Names(h[..k]) !! Names(h[k..])
  {
    forall name | name in Names(h) ensures name in Names(h[..k]) + Names(h[k..]) {
      var i :| 0 <= i < |h| && h[i].name == name;
      if i < k {
        assert h[..k][i].name == name;
      } else {
        assert h[k..][i - k].name == name;
      }
    }
    forall name | name in Names(h[..k]) ensures name !in Names(h[k..]) {
      var i :| 0 <= i < k && h[..k][i].name == name;
      forall j | 0 <= j < |h[k..]| ensures h[k..][j].name != name {
        assert h[i].name != h[k + j].name;
      }
    }
  }

  lemma KeptEntry(s: Store, h: seq<Entry>, limit: nat, live: string, i: nat)
    requires IsHistory(h, s) && i < |Retained(h, limit)|
    ensures var s1, e := s - Expired(h, limit, live), Retained(h, limit)[i];
            e.name in s1 && s1[e.name] == s[e.name] == Revision(e.data, e.number, true)
  {
    var x := Exceed(h, limit);
    NamesSplit(h, x);
    var e := Retained(h, limit)[i];
    assert h[x..][i] == e && h[x + i] == e;
    assert e.name in Names(h[x..]);
  }

  lemma KeptNames(s: Store, h: seq<Entry>, limit: nat)
    requires IsHistory(h, s)
    ensures var kept := Retained(h, limit); |Names(kept)| == |kept| == Min(|h|, limit)
  {
    var kept, x := Retained(h, limit), Exceed(h, limit);
    forall i, j | 0 <= i < j < |kept| ensures kept[i].name != kept[j].name {
      assert kept[i] == h[x + i] && kept[j] == h[x + j];
    }
    NamesSize(kept);
  }

  lemma OwnedAfterRemoval(s: Store, gone: set<string>, kept: set<string>, live: string)
    requires Owned(s) == gone + kept && gone !! kept
    ensures Owned(s - (gone - {live})) == kept + ({live} * Owned(s))
    ensures |kept + ({live} * Owned(s))| <= |kept| + 1
  {
    var extra := ({live} * Owned(s)) - kept;
    assert kept + ({live} * Owned(s)) == kept + extra;
    SubsetSize(extra, {live});
  }

  /** History bound: trimming leaves exactly the newest `limit` owned revisions and the live one. */
  lemma TrimKeepsNewestAndLive(s: Store, h: seq<Entry>, limit: nat, live: string)
    requires IsHistory(h, s)
    ensures var s1, kept := s - Expired(h, limit, live), Retained(h, limit);
            && Owned(s1) == Names(kept) + ({live} * Owned(s))
            && |Owned(s1)| <= limit + 1
            && |kept| == Min(|h|, limit)
  {
    var x := Exceed(h, limit);
    HistoryNames(h, s);
    NamesSplit(h, x);
    KeptNames(s, h, limit);
    OwnedAfterRemoval(s, Names(h[..x]), Names(h[x..]), live);
    hide IsHistory, Names, Owned;
  }

  /** What trimming deletes is owned and no newer than anything it keeps; other owners' revisions stay. */
  lemma TrimDeletesOldest(s: Store, h: seq<Entry>, limit: nat, live: string, name: string, other: string)
    requires IsHistory(h, s) && name in Expired(h, limit, live) && other in Names(Retained(h, limit))
    ensures name in Owned(s) && other in Owned(s) && s[name].number <= s[other].number
  {
    var x := Exceed(h, limit);
    var i :| 0 <= i < x && h[..x][i].name == name;
    var j :| 0 <= j < |h[x..]| && h[x..][j].name == other;
    assert h[i].name == name && h[x + j].name == other;
  }

  // ---------- Numbering ----------

  lemma RetainedLast(s: Store, h: seq<Entry>, limit: nat, name: string)
    requires IsHistory(h, s) && limit >= 1 && name in Owned(s)
    ensures var kept := Retained(h, limit);
            h != [] && kept != [] && kept[|kept| - 1] == h[|h| - 1] && h[|h| - 1].name in Names(kept)
  {
    var i :| 0 <= i < |h| && h[i].name == name;
    RetainedEnd(h, limit);
    hide Retained, Names, IsHistory;
  }

  lemma RetainedEnd(h: seq<Entry>, limit: nat)
    requires limit >= 1 && h != []
    ensures var kept := Retained(h, limit);
            kept != [] && kept[|kept| - 1] == h[|h| - 1] && h[|h| - 1].name in Names(kept)
  {
    var kept := Retained(h, limit);
    assert kept[|kept| - 1] == h[|h| - 1];
  }

  /** With a positive limit, the next number is larger than that of every owned revision. */
  lemma NextIsFresh(s: Store, h: seq<Entry>, limit: nat, name: string)
    requires IsHistory(h, s) && limit >= 1 && name in Owned(s)
    ensures s[name].number < NextRevision(Retained(h, limit))
  {
    RetainedLast(s, h, limit, name);
    var i :| 0 <= i < |h| && h[i].name == name;
    HistoryIsAscending(s, h, i, |h| - 1);
    hide Retained, Names;
  }

  lemma HistoryIsAscending(s: Store, h: seq<Entry>, i: nat, j: nat)
    requires IsHistory(h, s) && i <= j < |h|
    ensures h[i].number <= h[j].number
  {
  }

  lemma NewestIsLast(s: Store, h: seq<Entry>, name: string)
    requires IsHistory(h, s) && Newest(s, name)
    ensures h != [] && h[|h| - 1].name == name && h[|h| - 1].data == s[name].data
  {
    var i :| 0 <= i < |h| && h[i].name == name;
    HistoryIsAscending(s, h, i, |h| - 1);
    assert h[|h| - 1].name in Owned(s);
  }

  lemma LastIsNewest(s: Store, h: seq<Entry>)
    requires IsHistory(h, s) && NumbersDistinct(s) && h != []
    ensures Newest(s, h[|h| - 1].name)
  {
    var last := |h| - 1;
    forall other | other in Owned(s) && other != h[last].name ensures s[other].number < h[last].number {
      var i :| 0 <= i < |h| && h[i].name == other;
      assert h[i].number <= h[last].number;
    }
  }

  // ---------- One pass ----------

  /** Facts about one pass that every property below uses. */
  lemma PassFacts(s: Store, h: seq<Entry>, naming: (string, nat) -> string, data: string,
                  limit: nat, recorded: string, collisions: nat)
    requires Injective(naming, data) && IsHistory(h, s)
    ensures var o := Constructed(s, h, naming, data, limit, recorded, collisions);
            var s1, kept := s - Expired(h, limit, recorded), Retained(h, limit);
            var i := LastEqual(kept, data);
            && o.update in o.store && o.store[o.update].data == data
            && s1.Keys <= o.store.Keys == s1.Keys + {o.update}
            && (forall name :: name in s1 ==>
                  o.store[name].data == s1[name].data && o.store[name].owned == s1[name].owned)
            && (forall name :: name in s1 && name != o.update ==> o.store[name] == s1[name])
            && (o.update !in s1 ==> o.store[o.update] == Revision(data, NextRevision(kept), true))
            && (i >= 0 ==> o.update == kept[i].name && o.update in Owned(s1) && o.collisions == collisions)
  {
    var kept := Retained(h, limit);
    var i := LastEqual(kept, data);
    if i >= 0 {
      KeptEntry(s, h, limit, recorded, i);
    }
    hide IsHistory, Expired, Retained, Names, LastEqual;
  }

  lemma CurrentIsStored(s: Store, h: seq<Entry>, naming: (string, nat) -> string, data: string,
                        limit: nat, recorded: string, collisions: nat)
    requires Injective(naming, data) && IsHistory(h, s)
    ensures var o := Constructed(s, h, naming, data, limit, recorded, collisions); o.current in o.store
  {
    PassFacts(s, h, naming, data, limit, recorded, collisions);
    var kept := Retained(h, limit);
    if recorded in Names(kept) {
      var k :| 0 <= k < |kept| && kept[k].name == recorded;
      KeptEntry(s, h, limit, recorded, k);
    }
    hide IsHistory, Expired, Retained, LastEqual, Probe;
  }

  /**
    A pass never rewrites the data of a stored revision, with one exception: the name freed by an expired revision is
    given to the template's data if no retained revision holds that data and the name is where probing stops.
   */
  lemma DataChangesIff(s: Store, h: seq<Entry>, naming: (string, nat) -> string, data: string,
                       limit: nat, recorded: string, collisions: nat, name: string)
    requires Injective(naming, data) && IsHistory(h, s) && name in s
    ensures var o := Constructed(s, h, naming, data, limit, recorded, collisions);
            var expired := Expired(h, limit, recorded);
            && (name in o.store && o.store[name].data != s[name].data <==>
                && name in expired && s[name].data != data
                && LastEqual(Retained(h, limit), data) < 0
                && name == Probed(s - expired, naming, data, collisions))
            && (name !in o.store ==> name in expired)
  {
    PassFacts(s, h, naming, data, limit, recorded, collisions);
    UpdateName(s, h, naming, data, limit, recorded, collisions);
    hide IsHistory, Expired, Retained, LastEqual, Constructed;
  }

  /** The update revision is a retained one with the data, or the one at the probed name. */
  lemma UpdateName(s: Store, h: seq<Entry>, naming: (string, nat) -> string, data: string,
                   limit: nat, recorded: string, collisions: nat)
    requires Injective(naming, data) && IsHistory(h, s)
    ensures var o := Constructed(s, h, naming, data, limit, recorded, collisions);
            var s1, kept := s - Expired(h, limit, recorded), Retained(h, limit);
            o.update == if LastEqual(kept, data) >= 0 then kept[LastEqual(kept, data)].name
                        else Probed(s1, naming, data, collisions)
  {
    hide IsHistory, Expired, Retained, LastEqual, Probe;
  }

  /** A hash for which "old" and "new" collide. */
  function Hashed(data: string, c: nat): string {
    (if data == "mid" then "y" else "x") + seq(c, _ => 'a')
  }

  lemma HashedIsInjective(data: string)
    ensures Injective(Hashed, data)
  {
    forall c: nat, d: nat | c != d ensures Hashed(data, c) != Hashed(data, d) {
      assert |Hashed(data, c)| == 1 + c && |Hashed(data, d)| == 1 + d;
    }
  }

  /** "old" and "mid" are stored under the names that this hash gives them. */
  lemma HashedNames()
    ensures Hashed("old", 0) == "x" && Hashed("new", 0) == "x" && Hashed("mid", 0) == "y"
  {
    assert "old"[0] != "mid"[0] && "new"[0] != "mid"[0];
  }

  /** The exception happens: "old" expires, and "new" hashes to that same name. */
  lemma FreedNameCanBeReused(s: Store, h: seq<Entry>)
    requires s == map["x" := Revision("old", 1, true), "y" := Revision("mid", 2, true)]
    requires h == [Entry("x", "old", 1), Entry("y", "mid", 2)]
    ensures Hashed("old", 0) == "x" && Hashed("mid", 0) == "y"
    ensures Injective(Hashed, "new") && IsHistory(h, s) && NumbersDistinct(s)
    ensures Constructed(s, h, Hashed, "new", 1, "y", 0).store ==
            map["x" := Revision("new", 3, true), "y" := Revision("mid", 2, true)]
  {
    HashedIsInjective("new");
    HashedNames();
    assert IsHistory(h, s) by {
      assert h[0].name == "x" && h[1].name == "y" && "x"[0] != "y"[0];
    }
    assert Expired(h, 1, "y") == {"x"} by {
      assert "x"[0] != "y"[0] && h[..1][0].name == "x";
    }
    assert Retained(h, 1) == [h[1]];
    assert LastEqual([h[1]], "new") == -1;
    hide IsHistory, Injective, NumbersDistinct, Expired, Retained, Hashed;
  }

  /** Numbers of owned revisions stay pairwise distinct. */
  lemma NumbersStayDistinct(s: Store, h: seq<Entry>, naming: (string, nat) -> string, data: string,
                            limit: nat, recorded: string, collisions: nat)
    requires Injective(naming, data) && IsHistory(h, s) && limit >= 1 && NumbersDistinct(s)
    ensures NumbersDistinct(Constructed(s, h, naming, data, limit, recorded, collisions).store)
  {
    var o := Constructed(s, h, naming, data, limit, recorded, collisions);
    UpdateNumber(s, h, naming, data, limit, recorded, collisions);
    PassFacts(s, h, naming, data, limit, recorded, collisions);
    forall name | name in Owned(s) ensures s[name].number < NextRevision(Retained(h, limit)) {
      NextIsFresh(s, h, limit, name);
    }
    hide IsHistory, Expired, Retained, LastEqual, Constructed, NextRevision;
  }

  /** The update revision keeps its number, or gets the next one. */
  lemma UpdateNumber(s: Store, h: seq<Entry>, naming: (string, nat) -> string, data: string,
                     limit: nat, recorded: string, collisions: nat)
    requires Injective(naming, data) && IsHistory(h, s)
    ensures var o := Constructed(s, h, naming, data, limit, recorded, collisions);
            var s1, kept := s - Expired(h, limit, recorded), Retained(h, limit);
            || (o.update in s1 && o.store == s1)
            || o.store == s1[o.update := Revision(data, NextRevision(kept), true)]
  {
    var kept := Retained(h, limit);
    var i := LastEqual(kept, data);
    if i >= 0 {
      KeptEntry(s, h, limit, recorded, i);
    }
    hide IsHistory, Expired, Retained, LastEqual, Names;
  }

  /** The probed name that the pass would create or reuse when no retained revision holds the data. */
  ghost function Probed(s1: Store, naming: (string, nat) -> string, data: string, collisions: nat): string
    requires Injective(naming, data)
  {
    naming(data, Probe(s1, naming, data, collisions))
  }

  /**
    The update revision always holds the template's data. It is the strictly newest owned revision exactly when a
    retained revision held the data or the probed name was free; otherwise it is an older stored one, reused as it is.
   */
  lemma UpdateIsNewestIff(s: Store, h: seq<Entry>, naming: (string, nat) -> string, data: string,
                          limit: nat, recorded: string, collisions: nat)
    requires Injective(naming, data) && IsHistory(h, s) && limit >= 1 && NumbersDistinct(s)
    ensures var o := Constructed(s, h, naming, data, limit, recorded, collisions);
            var s1, kept := s - Expired(h, limit, recorded), Retained(h, limit);
            var found := LastEqual(kept, data) >= 0;
            && o.store[o.update].data == data
            && (Newest(o.store, o.update) <==> found || Probed(s1, naming, data, collisions) !in s1)
            && (!Newest(o.store, o.update) ==>
                o.store == s1 && (o.update == recorded || !s[o.update].owned))
  {
    var o := Constructed(s, h, naming, data, limit, recorded, collisions);
    var s1, kept := s - Expired(h, limit, recorded), Retained(h, limit);
    PassFacts(s, h, naming, data, limit, recorded, collisions);
    if LastEqual(kept, data) >= 0 || Probed(s1, naming, data, collisions) !in s1 {
      NewestWhenFoundOrFree(s, h, naming, data, limit, recorded, collisions);
    } else {
      ReusedIsOlder(s, h, naming, data, limit, recorded, collisions);
    }
  }

  lemma NewestWhenFoundOrFree(s: Store, h: seq<Entry>, naming: (string, nat) -> string, data: string,
                              limit: nat, recorded: string, collisions: nat)
    requires Injective(naming, data) && IsHistory(h, s) && limit >= 1 && NumbersDistinct(s)
    requires LastEqual(Retained(h, limit), data) >= 0 ||
             var s1 := s - Expired(h, limit, recorded); Probed(s1, naming, data, collisions) !in s1
    ensures var o := Constructed(s, h, naming, data, limit, recorded, collisions); Newest(o.store, o.update)
  {
    var s1, kept := s - Expired(h, limit, recorded), Retained(h, limit);
    var i := LastEqual(kept, data);
    if i >= 0 {
      KeptEntry(s, h, limit, recorded, i);
      KeptIsNewestIff(s, h, limit, recorded, i);
    }
    forall name | name in Owned(s) ensures s[name].number < NextRevision(kept) {
      NextIsFresh(s, h, limit, name);
    }
    hide IsHistory, NumbersDistinct, Expired, Retained, LastEqual, NextRevision, Newest, Names, Probe;
    FreshIsNewest(s, s1, if i >= 0 then kept[i].name else Probed(s1, naming, data, collisions), data,
                  NextRevision(kept));
  }

  lemma FreshIsNewest(s: Store, s1: Store, name: string, data: string, number: int)
    requires s1.Keys <= s.Keys && forall other :: other in s1 ==> s1[other] == s[other]
    requires forall other :: other in Owned(s) ==> s[other].number < number
    ensures Newest(s1[name := Revision(data, number, true)], name)
  {
  }

  lemma ReusedIsOlder(s: Store, h: seq<Entry>, naming: (string, nat) -> string, data: string,
                      limit: nat, recorded: string, collisions: nat)
    requires Injective(naming, data) && IsHistory(h, s) && limit >= 1 && NumbersDistinct(s)
    requires LastEqual(Retained(h, limit), data) < 0
    requires var s1 := s - Expired(h, limit, recorded); Probed(s1, naming, data, collisions) in s1
    ensures var o := Constructed(s, h, naming, data, limit, recorded, collisions);
            var s1 := s - Expired(h, limit, recorded);
            && o.store == s1 && o.update in s1 && !Newest(s1, o.update) && (o.update == recorded || !s[o.update].owned)
  {
    var s1 := s - Expired(h, limit, recorded);
    ReusedOutcome(s, h, naming, data, limit, recorded, collisions);
    var name := Probed(s1, naming, data, collisions);
    if name in Owned(s) {
      KeptHasOtherData(s, h, data, limit, recorded, name);
      UnkeptIsLive(s, h, limit, recorded, name);
      hide *;
    } else {
      hide IsHistory, NumbersDistinct, Expired, Retained, LastEqual, Probe, Constructed;
    }
  }

  lemma KeptHasOtherData(s: Store, h: seq<Entry>, data: string, limit: nat, live: string, name: string)
    requires IsHistory(h, s) && LastEqual(Retained(h, limit), data) < 0 && name in s && s[name].data == data
    ensures name !in Names(Retained(h, limit))
  {
    var kept := Retained(h, limit);
    forall k | 0 <= k < |kept| ensures kept[k].name != name {
      KeptEntry(s, h, limit, live, k);
    }
  }

  lemma UnkeptIsLive(s: Store, h: seq<Entry>, limit: nat, live: string, name: string)
    requires IsHistory(h, s) && limit >= 1 && NumbersDistinct(s)
    requires name in Owned(s - Expired(h, limit, live)) && name !in Names(Retained(h, limit))
    ensures name == live && !Newest(s - Expired(h, limit, live), name)
  {
    var s1, kept := s - Expired(h, limit, live), Retained(h, limit);
    TrimKeepsNewestAndLive(s, h, limit, live);
    RetainedLast(s, h, limit, name);
    KeptEntry(s, h, limit, live, |kept| - 1);
    LastIsNewest(s, h);
    hide IsHistory, NumbersDistinct, Expired, Retained, Names;
    assert h[|h| - 1].name in Owned(s1);
  }

  // ---------- Rolling back ----------

  /** Going back to a retained template creates nothing, returns the revision that held it and renumbers only it. */
  lemma RollBackRenumbersOnly(s: Store, h: seq<Entry>, naming: (string, nat) -> string, data: string,
                              limit: nat, recorded: string, collisions: nat, i: nat)
    requires Injective(naming, data) && IsHistory(h, s) && NumbersDistinct(s)
    requires i < |Retained(h, limit)| && Retained(h, limit)[i].data == data
    requires forall j :: i < j < |Retained(h, limit)| ==> Retained(h, limit)[j].data != data
    ensures var o := Constructed(s, h, naming, data, limit, recorded, collisions);
            var s1, kept := s - Expired(h, limit, recorded), Retained(h, limit);
            && o.update == kept[i].name && o.collisions == collisions && o.store.Keys == s1.Keys
            && (forall name :: name in s1 && name != o.update ==> o.store[name] == s1[name])
            && (o.store == s1 <==> Newest(s1, o.update))
  {
    var kept := Retained(h, limit);
    assert LastEqual(kept, data) == i && limit >= 1;
    PassFacts(s, h, naming, data, limit, recorded, collisions);
    KeptEntry(s, h, limit, recorded, i);
    KeptIsNewestIff(s, h, limit, recorded, i);
    NextIsFresh(s, h, limit, kept[i].name);
    hide IsHistory, NumbersDistinct, Retained, Expired, Newest, NextRevision;
  }

  lemma KeptIsNewestIff(s: Store, h: seq<Entry>, limit: nat, live: string, i: nat)
    requires IsHistory(h, s) && NumbersDistinct(s) && i < |Retained(h, limit)|
    ensures Newest(s - Expired(h, limit, live), Retained(h, limit)[i].name) <==> i == |Retained(h, limit)| - 1
  {
    var s1, kept, x := s - Expired(h, limit, live), Retained(h, limit), Exceed(h, limit);
    var last := |kept| - 1;
    KeptEntry(s, h, limit, live, i);
    KeptEntry(s, h, limit, live, last);
    LastIsNewest(s, h);
    assert kept[i] == h[x + i] && kept[last] == h[|h| - 1];
    HistoryIsAscending(s, h, x + i, |h| - 1);
    assert i < last ==> h[x + i].name != h[|h| - 1].name;
    hide IsHistory, NumbersDistinct, Retained, Expired;
  }

  // ---------- Repeating the pass ----------

  /** What trimming leaves, as a history: the live revision, if it is older than the limit, and the retained ones. */
  function Trimmed(h: seq<Entry>, limit: nat, live: string): seq<Entry> {
    var x := Exceed(h, limit);
    var i := IndexOf(h[..x], live);
    (if i >= 0 then [h[i]] else []) + h[x..]
  }

  function IndexOf(h: seq<Entry>, name: string): (i: int)
    ensures -1 <= i < |h|
    ensures i >= 0 ==> h[i].name == name
    ensures i < 0 ==> name !in Names(h)
  {
    if h == [] then -1
    else if h[|h| - 1].name == name then |h| - 1
    else
      NamesOneMore(h, |h| - 1);
      assert h[..|h| - 1 + 1] == h;
      IndexOf(h[..|h| - 1], name)
  }

  /** Where an entry of the trimmed history comes from. */
  function Origin(h: seq<Entry>, limit: nat, live: string, j: nat): int {
    var x := Exceed(h, limit);
    var i := IndexOf(h[..x], live);
    if i < 0 then x + j else if j == 0 then i else x + j - 1
  }

  lemma TrimmedAt(h: seq<Entry>, limit: nat, live: string, j: nat)
    requires j < |Trimmed(h, limit, live)|
    ensures 0 <= Origin(h, limit, live, j) < |h| && Trimmed(h, limit, live)[j] == h[Origin(h, limit, live, j)]
    ensures j > 0 ==> Origin(h, limit, live, 0) < Origin(h, limit, live, j)
  {
  }

  lemma TrimmedIsAscending(s: Store, h: seq<Entry>, limit: nat, live: string, j: nat, k: nat)
    requires IsHistory(h, s) && j < k < |Trimmed(h, limit, live)|
    ensures var h1 := Trimmed(h, limit, live); h1[j].number <= h1[k].number && h1[j].name != h1[k].name
  {
    TrimmedAt(h, limit, live, j);
    TrimmedAt(h, limit, live, k);
    assert Origin(h, limit, live, j) < Origin(h, limit, live, k);
    hide Trimmed, Origin;
  }

  lemma TrimmedEntry(s: Store, h: seq<Entry>, limit: nat, live: string, j: nat)
    requires IsHistory(h, s) && j < |Trimmed(h, limit, live)|
    ensures var s1, e := s - Expired(h, limit, live), Trimmed(h, limit, live)[j];
            e.name in s1 && s1[e.name] == Revision(e.data, e.number, true)
  {
    var x := Exceed(h, limit);
    var i := IndexOf(h[..x], live);
    TrimmedAt(h, limit, live, j);
    if i < 0 || j > 0 {
      KeptEntry(s, h, limit, live, if i < 0 then j else j - 1);
    }
  }

  lemma TrimmedIsHistory(s: Store, h: seq<Entry>, limit: nat, live: string)
    requires IsHistory(h, s)
    ensures IsHistory(Trimmed(h, limit, live), s - Expired(h, limit, live))
  {
    var s1, h1 := s - Expired(h, limit, live), Trimmed(h, limit, live);
    forall j | 0 <= j < |h1| ensures h1[j].name in s1 && s1[h1[j].name] == Revision(h1[j].data, h1[j].number, true) {
      TrimmedEntry(s, h, limit, live, j);
    }
    forall j, k | 0 <= j < k < |h1| ensures h1[j].number <= h1[k].number && h1[j].name != h1[k].name {
      TrimmedIsAscending(s, h, limit, live, j, k);
    }
    forall name | name in s1 && s1[name].owned ensures exists j :: 0 <= j < |h1| && h1[j].name == name {
      TrimmedHolds(s, h, limit, live, name);
    }
    hide Trimmed, Expired;
  }

  lemma TrimmedReaches(h: seq<Entry>, limit: nat, live: string, k: nat)
    requires k < |h| && (k >= Exceed(h, limit) || h[k].name == live)
    ensures exists j :: 0 <= j < |Trimmed(h, limit, live)| && Trimmed(h, limit, live)[j].name == h[k].name
  {
    var x := Exceed(h, limit);
    var i := IndexOf(h[..x], live);
    var h1 := Trimmed(h, limit, live);
    if k >= x {
      var j := if i >= 0 then 1 + (k - x) else k - x;
      assert h1[j] == h[k];
    } else {
      assert h[..x][k].name == live;
      assert h1[0] == h[i];
    }
  }

  lemma TrimmedHolds(s: Store, h: seq<Entry>, limit: nat, live: string, name: string)
    requires IsHistory(h, s) && name in Owned(s - Expired(h, limit, live))
    ensures exists j :: 0 <= j < |Trimmed(h, limit, live)| && Trimmed(h, limit, live)[j].name == name
  {
    var x := Exceed(h, limit);
    var k :| 0 <= k < |h| && h[k].name == name;
    if k < x {
      assert h[..x][k].name == name;
    }
    TrimmedReaches(h, limit, live, k);
    hide Trimmed, IsHistory;
  }

  lemma SameLast(s: Store, h: seq<Entry>, g: seq<Entry>)
    requires IsHistory(h, s) && IsHistory(g, s) && NumbersDistinct(s)
    ensures |h| == |g| && (h != [] ==> h[|h| - 1] == g[|h| - 1])
  {
    HistoryNames(h, s);
    HistoryNames(g, s);
    NamesSize(h);
    NamesSize(g);
    if h != [] {
      LastIsNewest(s, h);
      LastIsNewest(s, g);
    }
  }

  /** Distinct numbers fix the order of a history. */
  lemma {:induction false} HistoryIsUnique(s: Store, h: seq<Entry>, g: seq<Entry>)
    requires IsHistory(h, s) && IsHistory(g, s) && NumbersDistinct(s)
    ensures h == g
    decreases |h|
  {
    SameLast(s, h, g);
    if h != [] {
      DropLast(s, h);
      DropLast(s, g);
      hide *;
      var last := |h| - 1;
      HistoryIsUnique(s - {h[last].name}, h[..last], g[..last]);
      assert h == h[..last] + [h[last]] && g == g[..last] + [g[last]];
    }
  }

  lemma DropLast(s: Store, h: seq<Entry>)
    requires IsHistory(h, s) && NumbersDistinct(s) && h != []
    ensures IsHistory(h[..|h| - 1], s - {h[|h| - 1].name}) && NumbersDistinct(s - {h[|h| - 1].name})
  {
    var front, gone := h[..|h| - 1], h[|h| - 1].name;
    DropOne(s, gone);
    hide NumbersDistinct;
    forall i | 0 <= i < |front| ensures front[i] == h[i] && h[i].name != gone {
    }
    forall name | name in Owned(s) && name != gone ensures exists i :: 0 <= i < |front| && front[i].name == name {
      FrontHolds(h, name);
    }
  }

  lemma FrontHolds(h: seq<Entry>, name: string)
    requires h != [] && name != h[|h| - 1].name && exists i :: 0 <= i < |h| && h[i].name == name
    ensures var front := h[..|h| - 1]; exists i :: 0 <= i < |front| && front[i].name == name
  {
    var i :| 0 <= i < |h| && h[i].name == name;
    assert h[..|h| - 1][i].name == name;
  }

  lemma DropOne(s: Store, gone: string)
    requires NumbersDistinct(s)
    ensures NumbersDistinct(s - {gone})
  {
    assert Owned(s - {gone}) == Owned(s) - {gone};
  }

  /** Trimming what trimming left deletes nothing, as long as the live revision is the same. */
  lemma TrimIsIdempotent(h: seq<Entry>, limit: nat, live: string, next: string)
    requires live == next || live !in Names(h)
    ensures var h1 := Trimmed(h, limit, live);
            Retained(h1, limit) == Retained(h, limit) && Expired(h1, limit, next) == {}
  {
    var h1, x := Trimmed(h, limit, live), Exceed(h, limit);
    var i := IndexOf(h[..x], live);
    if i >= 0 {
      assert h[..x][i] == h[i];
      assert h1[..1] == [h[i]] && h1[1..] == h[x..];
    } else {
      assert h1 == h[x..];
      assert h1[..0] == [];
    }
  }

  /**
    Repeating the pass for the same template returns the same revision and collision count, creates and renumbers
    nothing: it at most trims. `next` is the recorded current revision that the first pass leaves in the status.
   */
  lemma RepeatIsStable(s: Store, h: seq<Entry>, naming: (string, nat) -> string, data: string, limit: nat,
                       recorded: string, collisions: nat, h2: seq<Entry>, next: string)
    requires Injective(naming, data) && IsHistory(h, s) && limit >= 1 && NumbersDistinct(s)
    requires next == recorded || recorded !in s
    requires IsHistory(h2, Constructed(s, h, naming, data, limit, recorded, collisions).store)
    ensures var o := Constructed(s, h, naming, data, limit, recorded, collisions);
            var o2 := Constructed(o.store, h2, naming, data, limit, next, o.collisions);
            && o2.update == o.update && o2.collisions == o.collisions
            && o2.store == o.store - Expired(h2, limit, next)
  {
    var o := Constructed(s, h, naming, data, limit, recorded, collisions);
    UpdateIsNewestIff(s, h, naming, data, limit, recorded, collisions);
    PassFacts(s, h, naming, data, limit, recorded, collisions);
    if Newest(o.store, o.update) {
      NewestRepeats(o.store, h2, naming, data, limit, next, o.collisions, o.update);
    } else {
      ReusedRepeats(s, h, naming, data, limit, recorded, collisions, h2, next);
    }
  }

  lemma NewestRepeats(s: Store, h: seq<Entry>, naming: (string, nat) -> string, data: string, limit: nat,
                      recorded: string, collisions: nat, name: string)
    requires Injective(naming, data) && IsHistory(h, s) && limit >= 1
    requires Newest(s, name) && s[name].data == data
    ensures var o := Constructed(s, h, naming, data, limit, recorded, collisions);
            o.update == name && o.collisions == collisions && o.store == s - Expired(h, limit, recorded)
  {
    var kept := Retained(h, limit);
    NewestIsLast(s, h, name);
    assert kept[|kept| - 1] == h[|h| - 1];
    hide Newest, IsHistory, Expired, Retained;
  }

  lemma ReusedRepeats(s: Store, h: seq<Entry>, naming: (string, nat) -> string, data: string, limit: nat,
                      recorded: string, collisions: nat, h2: seq<Entry>, next: string)
    requires Injective(naming, data) && IsHistory(h, s) && limit >= 1 && NumbersDistinct(s)
    requires next == recorded || recorded !in s
    requires LastEqual(Retained(h, limit), data) < 0
    requires var s1 := s - Expired(h, limit, recorded);
             Probed(s1, naming, data, collisions) in s1 && IsHistory(h2, s1)
    ensures var o := Constructed(s, h, naming, data, limit, recorded, collisions);
            var o2 := Constructed(o.store, h2, naming, data, limit, next, o.collisions);
            && o2.update == o.update && o2.collisions == o.collisions
            && o2.store == o.store && Expired(h2, limit, next) == {}
  {
    var s1 := s - Expired(h, limit, recorded);
    TrimmedRepeats(s, h, limit, recorded, h2, next);
    var p := Probe(s1, naming, data, collisions);
    assert Probe(s1, naming, data, p) == p;
    hide *;
    ReusedOutcome(s, h, naming, data, limit, recorded, collisions);
    assert s1 - Expired(h2, limit, next) == s1;
    ReusedOutcome(s1, h2, naming, data, limit, next, p);
  }

  lemma TrimmedRepeats(s: Store, h: seq<Entry>, limit: nat, live: string, h2: seq<Entry>, next: string)
    requires IsHistory(h, s) && NumbersDistinct(s) && IsHistory(h2, s - Expired(h, limit, live))
    requires next == live || live !in s
    ensures Retained(h2, limit) == Retained(h, limit) && Expired(h2, limit, next) == {}
  {
    var s1 := s - Expired(h, limit, live);
    TrimmedIsHistory(s, h, limit, live);
    assert NumbersDistinct(s1);
    HistoryIsUnique(s1, h2, Trimmed(h, limit, live));
    HistoryNames(h, s);
    TrimIsIdempotent(h, limit, live, next);
    hide IsHistory, NumbersDistinct, Trimmed, Retained, Expired;
  }

  lemma ReusedOutcome(s: Store, h: seq<Entry>, naming: (string, nat) -> string, data: string, limit: nat,
                      recorded: string, collisions: nat)
    requires Injective(naming, data) && IsHistory(h, s) && LastEqual(Retained(h, limit), data) < 0
    requires var s1 := s - Expired(h, limit, recorded); Probed(s1, naming, data, collisions) in s1
    ensures var o := Constructed(s, h, naming, data, limit, recorded, collisions);
            var s1 := s - Expired(h, limit, recorded);
            && o.store == s1 && o.update == Probed(s1, naming, data, collisions)
            && o.collisions == Probe(s1, naming, data, collisions)
  {
    hide IsHistory, Expired, Retained, LastEqual, Probe;
  }

  /** The third pass over an unchanged template changes nothing at all. */
  lemma ThirdPassIsSilent(s: Store, h: seq<Entry>, naming: (string, nat) -> string, data: string, limit: nat,
                          recorded: string, collisions: nat, h2: seq<Entry>, next: string, h3: seq<Entry>)
    requires Injective(naming, data) && IsHistory(h, s) && limit >= 1 && NumbersDistinct(s)
    requires next == recorded || recorded !in s
    requires var o := Constructed(s, h, naming, data, limit, recorded, collisions);
             && IsHistory(h2, o.store)
             && IsHistory(h3, Constructed(o.store, h2, naming, data, limit, next, o.collisions).store)
    ensures var o := Constructed(s, h, naming, data, limit, recorded, collisions);
            var o2 := Constructed(o.store, h2, naming, data, limit, next, o.collisions);
            Constructed(o2.store, h3, naming, data, limit, next, o2.collisions) == o2
  {
    var o := Constructed(s, h, naming, data, limit, recorded, collisions);
    var o2 := Constructed(o.store, h2, naming, data, limit, next, o.collisions);
    RepeatIsStable(s, h, naming, data, limit, recorded, collisions, h2, next);
    NumbersStayDistinct(s, h, naming, data, limit, recorded, collisions);
    NumbersStayDistinct(o.store, h2, naming, data, limit, next, o.collisions);
    RepeatIsStable(o.store, h2, naming, data, limit, next, o.collisions, h3, next);
    TrimmedRepeats(o.store, h2, limit, next, h3, next);
    CurrentOf(o.store, h2, naming, data, limit, next, o.collisions);
    CurrentOf(o2.store, h3, naming, data, limit, next, o2.collisions);
    hide Constructed, IsHistory, NumbersDistinct, Expired, Retained, Trimmed, Names;
  }

  lemma CurrentOf(s: Store, h: seq<Entry>, naming: (string, nat) -> string, data: string,
                  limit: nat, recorded: string, collisions: nat)
    requires Injective(naming, data) && IsHistory(h, s)
    ensures var o := Constructed(s, h, naming, data, limit, recorded, collisions);
            o.current == CurrentName(Retained(h, limit), recorded, o.update)
  {
  }

  /** The owned revisions with a higher number. */
  function Newer(s: Store, name: string): set<string>
    requires name in s
  {
    set other | other in Owned(s) && s[other].number > s[name].number
  }

  /** The named revision is owned, and fewer than `limit` owned ones are newer. */
  predicate AmongNewest(s: Store, name: string, limit: nat) {
    name in Owned(s) && |Newer(s, name)| < limit
  }

  /** The current revision is the recorded one if a retained entry has its name, and the update revision otherwise. */
  lemma CurrentIsRetained(s: Store, h: seq<Entry>, naming: (string, nat) -> string, data: string,
                          limit: nat, recorded: string, collisions: nat)
    requires Injective(naming, data) && IsHistory(h, s)
    ensures var o, kept := Constructed(s, h, naming, data, limit, recorded, collisions), Retained(h, limit);
            && ((exists k :: 0 <= k < |kept| && kept[k].name == recorded) ==> o.current == recorded)
            && ((forall k :: 0 <= k < |kept| ==> kept[k].name != recorded) ==> o.current == o.update)
  {
    CurrentOf(s, h, naming, data, limit, recorded, collisions);
    hide Constructed, Retained, IsHistory;
  }

  lemma NewerAreBehind(s: Store, h: seq<Entry>, i: nat)
    requires IsHistory(h, s) && NumbersDistinct(s) && i < |h|
    ensures h[i].name in Owned(s) && |Newer(s, h[i].name)| == |h| - 1 - i
  {
    var name, behind := h[i].name, h[i + 1..];
    assert h[i].name in s;
    forall other | other in Newer(s, name) ensures other in Names(behind) {
      var j :| 0 <= j < |h| && h[j].name == other;
      assert j > i;
      assert behind[j - i - 1].name == other;
    }
    forall other | other in Names(behind) ensures other in Newer(s, name) {
      var j :| 0 <= j < |behind| && behind[j].name == other;
      BehindIsNewer(s, h, i, i + 1 + j);
    }
    assert Newer(s, name) == Names(behind);
    forall j, k | 0 <= j < k < |behind| ensures behind[j].name != behind[k].name {
      assert h[i + 1 + j].name != h[i + 1 + k].name;
    }
    NamesSize(behind);
  }

  lemma BehindIsNewer(s: Store, h: seq<Entry>, i: nat, j: nat)
    requires IsHistory(h, s) && NumbersDistinct(s) && i < j < |h|
    ensures h[i].name in s && h[j].name in Owned(s) && s[h[j].name].number > s[h[i].name].number
  {
    assert h[i].name in Owned(s) && h[j].name in Owned(s) && h[i].name != h[j].name;
  }

  lemma RetainedIsAmongNewest(s: Store, h: seq<Entry>, limit: nat, name: string)
    requires IsHistory(h, s) && NumbersDistinct(s)
    ensures AmongNewest(s, name, limit) <==>
            exists k :: 0 <= k < |Retained(h, limit)| && Retained(h, limit)[k].name == name
  {
    var kept, x := Retained(h, limit), Exceed(h, limit);
    if k :| 0 <= k < |kept| && kept[k].name == name {
      assert kept[k] == h[x + k];
      NewerAreBehind(s, h, x + k);
    }
    if AmongNewest(s, name, limit) {
      var i :| 0 <= i < |h| && h[i].name == name;
      NewerAreBehind(s, h, i);
      assert kept[i - x] == h[i];
    }
    hide IsHistory, NumbersDistinct, Newer, Owned;
  }

  /** A pass returns the recorded revision as current as long as it is among the newest `limit`, and only so long. */
  lemma RecordedIsCurrentIff(s: Store, h: seq<Entry>, naming: (string, nat) -> string, data: string,
                             limit: nat, recorded: string, collisions: nat)
    requires Injective(naming, data) && IsHistory(h, s) && NumbersDistinct(s)
    ensures var o := Constructed(s, h, naming, data, limit, recorded, collisions);
            o.current == if AmongNewest(s, recorded, limit) then recorded else o.update
  {
    CurrentIsRetained(s, h, naming, data, limit, recorded, collisions);
    RetainedIsAmongNewest(s, h, limit, recorded);
    hide Constructed, Retained, IsHistory, NumbersDistinct, AmongNewest;
  }

  /** The next number is 1 for an empty history, and otherwise one more than the highest number of an owned revision. */
  lemma NextIsOneMore(s: Store, h: seq<Entry>, limit: nat)
    requires IsHistory(h, s) && limit >= 1
    ensures Owned(s) == {} ==> NextRevision(Retained(h, limit)) == 1
    ensures Owned(s) != {} ==>
              && (forall name :: name in Owned(s) ==> s[name].number <= NextRevision(Retained(h, limit)) - 1)
              && (exists name :: name in Owned(s) && s[name].number == NextRevision(Retained(h, limit)) - 1)
  {
    if h == [] {
      assert Owned(s) == {};
    } else {
      var last := h[|h| - 1];
      RetainedEnd(h, limit);
      assert last.name in Owned(s);
      forall name | name in Owned(s) ensures s[name].number < NextRevision(Retained(h, limit)) {
        NextIsFresh(s, h, limit, name);
      }
      hide Retained, Names, IsHistory;
    }
  }

  /** A new revision gets number 1 or the next one, and the collision count with which its name was found. */
  lemma CreatedIsNext(s: Store, h: seq<Entry>, naming: (string, nat) -> string, data: string,
                      limit: nat, recorded: string, collisions: nat)
    requires Injective(naming, data) && IsHistory(h, s) && limit >= 1
    requires LastEqual(Retained(h, limit), data) < 0
    ensures var o := Constructed(s, h, naming, data, limit, recorded, collisions);
            var s1 := s - Expired(h, limit, recorded);
            && o.update == naming(data, o.collisions) && collisions <= o.collisions
            && (forall c :: collisions <= c < o.collisions ==>
                  naming(data, c) in s1 && s1[naming(data, c)].data != data)
            && (o.update in s1 ==> s1[o.update].data == data && o.store == s1)
            && (o.update !in s1 ==>
                  && o.store == s1[o.update := o.store[o.update]]
                  && o.store[o.update].data == data && o.store[o.update].owned
                  && (Owned(s) == {} ==> o.store[o.update].number == 1)
                  && (forall name :: name in Owned(s) ==> s[name].number < o.store[o.update].number)
                  && (Owned(s) != {} ==> exists name :: name in Owned(s) &&
                                                        o.store[o.update].number == s[name].number + 1))
  {
    var kept := Retained(h, limit);
    CreatedOutcome(s, h, naming, data, limit, recorded, collisions);
    NextIsOneMore(s, h, limit);
    hide IsHistory, Expired, Retained, LastEqual, Owned, NextRevision, Constructed;
    if Owned(s) != {} {
      var name :| name in Owned(s) && s[name].number == NextRevision(kept) - 1;
    }
  }

  lemma CreatedOutcome(s: Store, h: seq<Entry>, naming: (string, nat) -> string, data: string,
                       limit: nat, recorded: string, collisions: nat)
    requires Injective(naming, data) && IsHistory(h, s) && LastEqual(Retained(h, limit), data) < 0
    ensures var o := Constructed(s, h, naming, data, limit, recorded, collisions);
            var s1 := s - Expired(h, limit, recorded);
            && o.update == naming(data, o.collisions) && collisions <= o.collisions
            && (forall c :: collisions <= c < o.collisions ==>
                  naming(data, c) in s1 && s1[naming(data, c)].data != data)
            && (o.update in s1 ==> s1[o.update].data == data && o.store == s1)
            && (o.update !in s1 ==> o.store == s1[o.update := Revision(data, NextRevision(Retained(h, limit)), true)])
  {
    var s1 := s - Expired(h, limit, recorded);
    var p := Probe(s1, naming, data, collisions);
    forall c | collisions <= c < p ensures naming(data, c) in s1 && s1[naming(data, c)].data != data {
      assert Collides(s1, naming, data, c);
    }
    hide IsHistory, Expired, Retained, LastEqual, NextRevision, Names;
  }

  // ---------- Bounds ----------

  /** At most limit + 2 owned revisions after a whole pass. */
  lemma HistoryIsBounded(s: Store, h: seq<Entry>, naming: (string, nat) -> string, data: string,
                         limit: nat, recorded: string, collisions: nat)
    requires Injective(naming, data) && IsHistory(h, s)
    ensures |Owned(Constructed(s, h, naming, data, limit, recorded, collisions).store)| <= limit + 2
  {
    var o := Constructed(s, h, naming, data, limit, recorded, collisions);
    var s1 := s - Expired(h, limit, recorded);
    PassFacts(s, h, naming, data, limit, recorded, collisions);
    TrimKeepsNewestAndLive(s, h, limit, recorded);
    SubsetSize(Owned(o.store), Owned(s1) + {o.update});
    hide Constructed, IsHistory, Expired, Retained, Names;
  }

  /** The names tried between two collision counts. */
  ghost function Tried(naming: (string, nat) -> string, data: string, c: nat, p: nat): set<string> {
    set d | c <= d < p :: naming(data, d)
  }

  /** A pass raises the collision count by exactly the number of clashing names with other data, and keeps them all. */
  lemma {:induction false} CollisionsCountClashes(s: Store, naming: (string, nat) -> string, data: string, c: nat)
    requires Injective(naming, data)
    ensures var p := Probe(s, naming, data, c);
            && p == c + |Tried(naming, data, c, p)|
            && (forall name :: name in Tried(naming, data, c, p) ==> name in s && s[name].data != data)
    decreases |Ahead(s, naming, data, c)|
  {
    var p := Probe(s, naming, data, c);
    if Collides(s, naming, data, c) {
      AheadShrinks(s, naming, data, c);
      CollisionsCountClashes(s, naming, data, c + 1);
      var rest := Tried(naming, data, c + 1, p);
      assert Tried(naming, data, c, p) == {naming(data, c)} + rest;
      assert naming(data, c) !in rest;
    } else {
      assert Tried(naming, data, c, p) == {};
    }
  }

  // ---------- Whole runs ----------

  /** The store, and the current revision and collision count recorded in the status. */
  datatype State = State(store: Store, recorded: string, collisions: nat)

  datatype Action =
    | Pass(h: seq<Entry>, data: string, limit: nat, records: bool)   // template and limit may differ each time
    | AbortedTrim(h: seq<Entry>, limit: nat, deletions: nat)         // a failing delete ends the pass early
    | Foreign(name: string, data: string, number: int)               // somebody else creates a revision

  ghost predicate Enabled(naming: (string, nat) -> string, a: State, act: Action) {
    match act
    case Pass(h, data, limit, _) => IsHistory(h, a.store) && limit >= 1 && Injective(naming, data)
    case AbortedTrim(h, limit, _) => IsHistory(h, a.store) && limit >= 1
    case Foreign(name, _, _) => name !in a.store && name != ""
  }

  ghost function Step(naming: (string, nat) -> string, a: State, act: Action): State
    requires Enabled(naming, a, act)
  {
    match act
    case Pass(h, data, limit, records) =>
      var o := Constructed(a.store, h, naming, data, limit, a.recorded, a.collisions);
      if records then State(o.store, if a.recorded == "" then o.current else a.recorded, o.collisions)
      else a.(store := o.store)
    case AbortedTrim(h, limit, deletions) =>
      a.(store := a.store - (Names(h[..Min(deletions, Exceed(h, limit))]) - {a.recorded}))
    case Foreign(name, data, number) =>
      a.(store := a.store[name := Revision(data, number, false)])
  }

  ghost predicate IsRun(naming: (string, nat) -> string, states: seq<State>, acts: seq<Action>) {
    && |states| == |acts| + 1
    && forall i :: 0 <= i < |acts| ==>
         Enabled(naming, states[i], acts[i]) && states[i + 1] == Step(naming, states[i], acts[i])
  }

  ghost predicate Sound(a: State) {
    && NumbersDistinct(a.store)
    && "" !in a.store
    && (a.recorded != "" ==> a.recorded in a.store)
  }

  ghost predicate NeverEmpty(naming: (string, nat) -> string) {
    forall data, c :: naming(data, c) != ""
  }

  lemma StepKeepsSound(naming: (string, nat) -> string, a: State, act: Action)
    requires NeverEmpty(naming) && Sound(a) && Enabled(naming, a, act)
    ensures Sound(Step(naming, a, act))
    ensures a.recorded != "" ==>
              var b := Step(naming, a, act);
              b.recorded == a.recorded && b.store[b.recorded].data == a.store[a.recorded].data
  {
    match act
    case Pass(h, data, limit, records) =>
      PassKeepsSound(naming, a, act);
    case AbortedTrim(h, limit, deletions) =>
      assert a.recorded in a.store ==> a.recorded in Step(naming, a, act).store;
    case Foreign(name, data, number) =>
  }

  lemma PassKeepsSound(naming: (string, nat) -> string, a: State, act: Action)
    requires NeverEmpty(naming) && Sound(a) && act.Pass? && Enabled(naming, a, act)
    ensures Sound(Step(naming, a, act))
    ensures a.recorded != "" ==>
              var b := Step(naming, a, act);
              b.recorded == a.recorded && b.store[b.recorded].data == a.store[a.recorded].data
  {
    NumbersStayDistinct(a.store, act.h, naming, act.data, act.limit, a.recorded, a.collisions);
    PassFacts(a.store, act.h, naming, act.data, act.limit, a.recorded, a.collisions);
    CurrentIsStored(a.store, act.h, naming, act.data, act.limit, a.recorded, a.collisions);
    UpdateIsNotEmpty(a.store, act.h, naming, act.data, act.limit, a.recorded, a.collisions);
    assert a.recorded !in Expired(act.h, act.limit, a.recorded);
    hide Constructed, IsHistory, Expired, Retained, Names, NumbersDistinct, LastEqual;
  }

  lemma UpdateIsNotEmpty(s: Store, h: seq<Entry>, naming: (string, nat) -> string, data: string,
                         limit: nat, recorded: string, collisions: nat)
    requires Injective(naming, data) && IsHistory(h, s) && NeverEmpty(naming) && "" !in s
    ensures Constructed(s, h, naming, data, limit, recorded, collisions).update != ""
  {
    var kept := Retained(h, limit);
    var i := LastEqual(kept, data);
    if i >= 0 {
      KeptEntry(s, h, limit, recorded, i);
    }
    hide IsHistory, Expired, Retained, Names;
  }

  /** Over every run, a pass returns the recorded revision as current exactly as long as it is among the newest. */
  lemma CurrentOverRuns(naming: (string, nat) -> string, states: seq<State>, acts: seq<Action>, i: nat)
    requires NeverEmpty(naming) && IsRun(naming, states, acts) && Sound(states[0]) && i < |acts| && acts[i].Pass?
    ensures var a, act := states[i], acts[i];
            && IsHistory(act.h, a.store) && Injective(naming, act.data)
            && var o := Constructed(a.store, act.h, naming, act.data, act.limit, a.recorded, a.collisions);
               && o.current == (if AmongNewest(a.store, a.recorded, act.limit) then a.recorded else o.update)
               && (a.recorded == "" && act.records ==> states[i + 1].recorded == o.current == o.update)
  {
    var a, act := states[i], acts[i];
    RecordedIsNeverLost(naming, states, acts, i, i);
    assert Enabled(naming, a, act) && states[i + 1] == Step(naming, a, act);
    RecordedIsCurrentIff(a.store, act.h, naming, act.data, act.limit, a.recorded, a.collisions);
    hide Constructed, IsHistory, NumbersDistinct, IsRun;
  }

  /**
    In every run, with any templates, positive limits, failing deletes and other owners: once a current revision is
    recorded it is never deleted and its data never changes, and the numbers of owned revisions stay distinct.
   */
  lemma {:induction false} RecordedIsNeverLost(naming: (string, nat) -> string, states: seq<State>, acts: seq<Action>,
                                               i: nat, j: nat)
    requires NeverEmpty(naming) && IsRun(naming, states, acts) && Sound(states[0]) && i <= j < |states|
    ensures Sound(states[i]) && Sound(states[j])
    ensures states[i].recorded != "" ==>
              && states[j].recorded == states[i].recorded && states[i].recorded in states[j].store
              && states[j].store[states[i].recorded].data == states[i].store[states[i].recorded].data
    decreases j
  {
    if i < j {
      RecordedIsNeverLost(naming, states, acts, i, j - 1);
      StepKeepsSound(naming, states[j - 1], acts[j - 1]);
      assert states[j] == Step(naming, states[j - 1], acts[j - 1]);
    } else if j > 0 {
      RecordedIsNeverLost(naming, states, acts, j - 1, j - 1);
      StepKeepsSound(naming, states[j - 1], acts[j - 1]);
      assert states[j] == Step(naming, states[j - 1], acts[j - 1]);
    }
    hide Step, Enabled;
  }
}
