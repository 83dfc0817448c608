/**
  The API server's store as a map from UIDs to objects, calls on it that may fail, and the bookkeeping of batches of
  names: what two controllers need to say which objects a phase created, deleted or updated.
 */
module Stores {
  import opened Common
  import opened SlowStart
  import Names

  // ---------- The API ----------

  datatype Fate = Succeeds | Errs(effect: bool) | TimesOut(effect: bool)

  datatype Reply = Ok | NotFound | Error | Timeout

  /**
    `fate` decides for each writing call whether it succeeds, errs or times out; a failing call may have had its effect
    all the same. `unread` says which reads of one object fail. UIDs are never reused. `createErrors` counts the
    creations that return an error other than a timeout, `deleteErrors` the deletions that return any error.
   */
  class Client<T(==)> {
    var store: map<nat, T>
    var nextUid: nat
    var calls: nat
    var failures: nat
    var gets: nat
    var getErrors: nat
    var createErrors: nat
    var deleteErrors: nat
    const fate: nat -> Fate
    const unread: nat -> bool

    ghost predicate Valid()
      reads this
    {
      forall u :: u in store ==> u < nextUid
    }

    constructor (fate: nat -> Fate, unread: nat -> bool)
      ensures Valid() && store == map[] && calls == failures == gets == getErrors == createErrors == deleteErrors == 0
      ensures this.fate == fate && this.unread == unread
    {
      store, nextUid, calls, failures, gets, getErrors, createErrors, deleteErrors := map[], 0, 0, 0, 0, 0, 0, 0;
      this.fate, this.unread := fate, unread;
    }

    method Get(u: nat) returns (found: Option<T>)
      requires Valid()
      modifies this`gets, this`getErrors, this`failures
      ensures found.Some? ==> u in store && found.value == store[u]
      ensures failures == old(failures) + if found.Some? then 0 else 1
      ensures getErrors == old(getErrors) + if found.Some? then 0 else 1
    {
      gets := gets + 1;
      if u !in store || unread(gets) {
        failures, getErrors := failures + 1, getErrors + 1;
        return None;
      }
      found := Some(store[u]);
    }

    method Create(w: T) returns (reply: Reply)
      requires Valid()
      modifies this`store, this`nextUid, this`calls, this`failures, this`createErrors
      ensures Valid() && nextUid == old(nextUid) + 1 && calls == old(calls) + 1
      ensures reply != NotFound && createErrors == old(createErrors) + if reply == Error then 1 else 0
      ensures store == old(store) || store == old(store)[old(nextUid) := w]
      ensures reply == Ok ==> store == old(store)[old(nextUid) := w]
      ensures failures == old(failures) + if reply == Ok then 0 else 1
    {
      var f := fate(calls);
      calls := calls + 1;
      if f.Succeeds? || f.effect {
        store := store[nextUid := w];
      }
      nextUid := nextUid + 1;
      reply := ReplyOf(f);
      failures := failures + if reply == Ok then 0 else 1;
      createErrors := createErrors + if reply == Error then 1 else 0;
    }

    method Delete(u: nat) returns (reply: Reply)
      requires Valid()
      modifies this`store, this`calls, this`failures, this`deleteErrors
      ensures Valid() && calls == old(calls) + 1
      ensures deleteErrors == old(deleteErrors) + if reply == Ok then 0 else 1
      ensures store == old(store) || store == old(store) - {u}
      ensures reply == Ok || reply == NotFound ==> u !in store
      ensures reply == NotFound <==> u !in old(store)
      ensures failures == old(failures) + if reply == Ok then 0 else 1
    {
      var f := fate(calls);
      calls := calls + 1;
      if u !in store {
        reply := NotFound;
      } else {
        if f.Succeeds? || f.effect {
          store := store - {u};
        }
        reply := ReplyOf(f);
      }
      failures := failures + if reply == Ok then 0 else 1;
      deleteErrors := deleteErrors + if reply == Ok then 0 else 1;
    }

    method Update(u: nat, w: T) returns (reply: Reply)
      requires Valid() && u in store
      modifies this`store, this`calls, this`failures
      ensures Valid() && calls == old(calls) + 1
      ensures store == old(store) || store == old(store)[u := w]
      ensures reply == Ok ==> store == old(store)[u := w]
      ensures failures == old(failures) + if reply == Ok then 0 else 1
    {
      var f := fate(calls);
      calls := calls + 1;
      if f.Succeeds? || f.effect {
        store := store[u := w];
      }
      reply := ReplyOf(f);
      failures := failures + if reply == Ok then 0 else 1;
    }
  }

  function ReplyOf(f: Fate): Reply {
    match f
    case Succeeds => Ok
    case Errs(_) => Error
    case TimesOut(_) => Timeout
  }

  // ---------- Phases ----------

  ghost predicate Sub<T>(a: map<nat, T>, b: map<nat, T>) {
    a.Keys <= b.Keys && forall u :: u in a ==> a[u] == b[u]
  }

  /** Some of the given objects are deleted, all of them if `all`. */
  ghost predicate Removed<T>(s: map<nat, T>, s': map<nat, T>, us: set<nat>, all: bool) {
    && Sub(s', s)
    && s.Keys - us <= s'.Keys
    && (all ==> s'.Keys !! us)
  }

  lemma NothingRemoved<T>(s: map<nat, T>, s': map<nat, T>, all: bool)
    requires Removed(s, s', {}, all)
    ensures s' == s
  {
  }

  lemma RemovedStep<T>(s0: map<nat, T>, s: map<nat, T>, s': map<nat, T>, us: set<nat>, all: bool, u: nat, gone: bool)
    requires Removed(s0, s, us, all) && (s' == s || s' == s - {u}) && (gone ==> u !in s')
    ensures Removed(s0, s', us + {u}, all && gone)
  {
  }

  lemma AllRemoved<T>(s: map<nat, T>, s': map<nat, T>, us: set<nat>, all: bool)
    requires Removed(s, s', us, all)
    ensures all ==> s'.Keys !! us
  {
  }

  lemma RemovedWeakens<T>(s: map<nat, T>, s': map<nat, T>, us: set<nat>, all: bool, all': bool)
    requires Removed(s, s', us, all) && (all' ==> all)
    ensures Removed(s, s', us, all')
  {
  }

  // ---------- Lists of names ----------

  predicate Distinct(names: seq<string>) {
    forall i, j :: 0 <= i < j < |names| ==> names[i] != names[j]
  }

  function Elements(names: seq<string>): set<string> {
    set i | 0 <= i < |names| :: names[i]
  }

  lemma ElementsSplit(names: seq<string>, i: nat, j: nat)
    requires i <= j <= |names| && Distinct(names)
    ensures Elements(names[..j]) == Elements(names[..i]) + Elements(names[i..j])
    ensures Elements(names[..i]) !! Elements(names[i..j])
  {
    forall name | name in Elements(names[..j]) ensures name in Elements(names[..i]) + Elements(names[i..j]) {
      var k :| 0 <= k < j && names[..j][k] == name;
      if k < i {
        assert names[..i][k] == name;
      } else {
        assert names[i..j][k - i] == name;
      }
    }
    forall name | name in Elements(names[..i]) ensures name in Elements(names[..j]) {
      var k :| 0 <= k < i && names[..i][k] == name;
      assert names[..j][k] == name;
    }
    forall name | name in Elements(names[i..j]) ensures name in Elements(names[..j]) && name !in Elements(names[..i]) {
      var k :| 0 <= k < j - i && names[i..j][k] == name;
      assert names[..j][i + k] == name;
    }
  }

  lemma ElementsOneMore(names: seq<string>, k: nat)
    requires k < |names| && Distinct(names)
    ensures Elements(names[..k + 1]) == Elements(names[..k]) + {names[k]} && names[k] !in Elements(names[..k])
  {
    ElementsSplit(names, k, k + 1);
    assert names[k..k + 1] == [names[k]];
    assert Elements([names[k]]) == {names[k]} by {
      assert [names[k]][0] in Elements([names[k]]);
    }
  }

  lemma AppendElement(names: seq<string>, name: string)
    requires Distinct(names) && name !in Elements(names)
    ensures Distinct(names + [name]) && Elements(names + [name]) == Elements(names) + {name}
  {
    var all := names + [name];
    assert Distinct(all);
    assert all[..|names|] == names && all[..|names| + 1] == all;
    ElementsOneMore(all, |names|);
  }

  lemma NoElements(names: seq<string>)
    ensures Elements(names) == {} <==> names == []
  {
    assert names != [] ==> names[0] in Elements(names);
  }

  lemma ElementsIn(names: seq<string>, all: set<string>)
    requires Elements(names) <= all
    ensures forall i :: 0 <= i < |names| ==> names[i] in all
  {
    forall i | 0 <= i < |names| ensures names[i] in all {
      assert names[i] in Elements(names);
    }
  }

  lemma ListingElements(names: set<string>)
    ensures Distinct(Names.Listing(names)) && Elements(Names.Listing(names)) == names
  {
    var s := Names.Listing(names);
    Names.ListingIsDuplicateFree(names);
    forall i, j | 0 <= i < j < |s| ensures s[i] != s[j] {
      Names.LessTrichotomy(s[i], s[j]);
    }
    forall name | name in names ensures name in Elements(s) {
      var i :| 0 <= i < |s| && s[i] == name;
    }
    hide Names.Listing, Names.Less;
  }

  // ---------- Batches ----------

  /** The names tried so far and those still pending in a batch. */
  ghost predicate Splits(tried: set<string>, pending: set<string>, done: set<string>, batch: set<string>) {
    tried !! pending && tried + pending == done + batch && pending <= batch
  }

  lemma SplitStep(tried: set<string>, pending: set<string>, done: set<string>, batch: set<string>, name: string)
    requires Splits(tried, pending, done, batch) && name in pending
    ensures Splits(tried + {name}, pending - {name}, done, batch) && name !in tried && name in batch
  {
  }

  lemma SplitFacts(tried: set<string>, pending: set<string>, done: set<string>, batch: set<string>)
    requires Splits(tried, pending, done, batch)
    ensures tried <= done + batch && pending <= batch && tried !! pending
    ensures pending == {} ==> tried == done + batch
  {
  }

  // ---------- Slow start over names ----------

  const INITIAL_BATCH_SIZE := 1

  /** Which calls return an error, by position. */
  function ErrorAt(names: seq<string>, errs: set<string>): int -> bool {
    j => 0 <= j < |names| && names[j] in errs
  }

  /** The first `tried` names are called, as many as slow start allows: no batch follows one with an error. */
  ghost predicate SlowStarted(names: seq<string>, tried: nat, errs: set<string>) {
    && tried <= |names| && errs <= Elements(names[..tried])
    && tried == Calls(|names|, INITIAL_BATCH_SIZE, ErrorAt(names, errs))
  }

  lemma ErrorsBefore(names: seq<string>, errs: set<string>, i: nat, j: nat)
    requires i <= j <= |names|
    ensures Failures(ErrorAt(names, errs), i, j) == 0 <==> Elements(names[i..j]) !! errs
  {
    var fails := ErrorAt(names, errs);
    FailuresBound(fails, i, j);
    if Elements(names[i..j]) !! errs {
      forall k | i <= k < j ensures !fails(k) {
        assert names[i..j][k - i] in Elements(names[i..j]);
      }
    } else {
      var name :| name in Elements(names[i..j]) && name in errs;
      var k :| 0 <= k < j - i && names[i..j][k] == name;
      assert fails(i + k);
    }
    hide Failures, Elements;
  }

  lemma SlowStops(names: seq<string>, index: nat, batch: int, next: int, errs: set<string>)
    requires Distinct(names) && AtBatch(index, batch, |names|, INITIAL_BATCH_SIZE) && batch > 0 && next == index + batch
    requires index <= next <= |names| && errs <= Elements(names[index..next]) && errs != {}
    ensures SlowStarted(names, next, errs)
  {
    ElementsSplit(names, index, next);
    assert names[0..index] == names[..index];
    ErrorsBefore(names, errs, 0, index);
    ErrorsBefore(names, errs, index, next);
    hide Elements, Distinct, AtBatch, ErrorAt, Failures;
    LastBatch(index, batch, |names|, INITIAL_BATCH_SIZE, next, ErrorAt(names, errs));
  }

  lemma SlowFinishes(names: seq<string>, index: nat, batch: int)
    requires AtBatch(index, batch, |names|, INITIAL_BATCH_SIZE) && batch <= 0 && index == |names|
    ensures SlowStarted(names, index, {})
  {
    ErrorsBefore(names, {}, 0, index);
    hide Elements, ErrorAt, Failures;
  }

  /** Without an error every name is tried. */
  lemma NoErrorTriesAll(names: seq<string>, tried: nat)
    requires SlowStarted(names, tried, {})
    ensures tried == |names|
  {
    ErrorsBefore(names, {}, 0, |names|);
    CallsFacts(|names|, INITIAL_BATCH_SIZE, ErrorAt(names, {}));
    ErrorsBefore(names, {}, 0, tried);
    hide Elements, ErrorAt, Failures, Calls;
  }

  lemma PrefixElements(names: seq<string>, k: nat)
    requires k <= |names|
    ensures Elements(names[..k]) <= Elements(names)
  {
    forall name | name in Elements(names[..k]) ensures name in Elements(names) {
      var i :| 0 <= i < k && names[..k][i] == name;
      assert names[i] == name;
    }
  }

  /** What is tried is among the names, and all of them if there was no error. */
  lemma AllTried(names: seq<string>, tried: nat, errs: set<string>)
    requires SlowStarted(names, tried, errs)
    ensures tried <= |names| && Elements(names[..tried]) <= Elements(names)
    ensures errs == {} ==> Elements(names[..tried]) == Elements(names)
  {
    PrefixElements(names, tried);
    if errs == {} {
      NoErrorTriesAll(names, tried);
      assert names[..tried] == names;
    }
  }

  lemma NothingGone<T>(s: map<nat, T>)
    ensures Removed(s, s, {}, true)
  {
  }
}
