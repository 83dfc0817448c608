/** Sorting names byte by byte, as Go's `sort.Strings` does. */
module Names {

  predicate Less(a: string, b: string) {
    b != [] && (a == [] || a[0] < b[0] || (a[0] == b[0] && Less(a[1..], b[1..])))
  }

  /** The order decides at the first position where the names differ; a proper prefix comes first. */
  lemma {:induction false} LessIff(a: string, b: string)
    ensures Less(a, b) <==>
            exists k :: 0 <= k <= |a| && k < |b| && a[..k] == b[..k] && (k == |a| || a[k] < b[k])
  {
    if Less(a, b) {
      var k := LessAt(a, b);
    }
    if k :| 0 <= k <= |a| && k < |b| && a[..k] == b[..k] && (k == |a| || a[k] < b[k]) {
      LessFrom(a, b, k);
    }
  }

  lemma {:induction false} LessAt(a: string, b: string) returns (k: nat)
    requires Less(a, b)
    ensures k <= |a| && k < |b| && a[..k] == b[..k] && (k == |a| || a[k] < b[k])
  {
    if a == [] || a[0] < b[0] {
      k := 0;
    } else {
      var j := LessAt(a[1..], b[1..]);
      k := j + 1;
      assert a[..k] == [a[0]] + a[1..][..j] && b[..k] == [b[0]] + b[1..][..j];
    }
  }

  lemma {:induction false} LessFrom(a: string, b: string, k: nat)
    requires k <= |a| && k < |b| && a[..k] == b[..k] && (k == |a| || a[k] < b[k])
    ensures Less(a, b)
  {
    if k > 0 {
      assert a[0] == a[..k][0] == b[..k][0] == b[0];
      assert a[1..][..k - 1] == a[..k][1..] && b[1..][..k - 1] == b[..k][1..];
      LessFrom(a[1..], b[1..], k - 1);
    }
  }

  predicate AtMost(a: string, b: string) {
    !Less(b, a)
  }

  lemma {:induction false} LessTransitive(a: string, b: string, c: string)
    requires Less(a, b) && Less(b, c)
    ensures Less(a, c)
  {
    if a != [] && a[0] == b[0] && b[0] == c[0] {
      LessTransitive(a[1..], b[1..], c[1..]);
    }
  }

  lemma {:induction false} LessTrichotomy(a: string, b: string)
    ensures Less(a, b) || a == b || Less(b, a)
    ensures !(Less(a, b) && (a == b || Less(b, a)))
  {
    if a != [] && b != [] && a[0] == b[0] {
      LessTrichotomy(a[1..], b[1..]);
      assert a == [a[0]] + a[1..] && b == [b[0]] + b[1..];
    }
  }

  lemma AtMostTransitive(a: string, b: string, c: string)
    requires AtMost(a, b) && AtMost(b, c)
    ensures AtMost(a, c)
  {
    LessTrichotomy(a, b);
    LessTrichotomy(b, c);
    if a != b && b != c {
      LessTransitive(a, b, c);
    }
    LessTrichotomy(a, c);
  }

  ghost predicate Sorted(s: seq<string>) {
    forall i, j :: 0 <= i < j < |s| ==> AtMost(s[i], s[j])
  }

  ghost predicate StrictlySorted(s: seq<string>) {
    forall i, j :: 0 <= i < j < |s| ==> Less(s[i], s[j])
  }

  function Insert(x: string, s: seq<string>): seq<string> {
    if s == [] then [x]
    else if Less(s[0], x) then [s[0]] + Insert(x, s[1..])
    else [x] + s
  }

  function Sort(s: seq<string>): seq<string> {
    if s == [] then [] else Insert(s[0], Sort(s[1..]))
  }

  lemma {:induction false} InsertKeeps(x: string, s: seq<string>)
    ensures multiset(Insert(x, s)) == multiset(s) + multiset{x}
  {
    if s != [] {
      assert s == [s[0]] + s[1..];
      if Less(s[0], x) {
        InsertKeeps(x, s[1..]);
      }
    }
  }

  lemma PrependSorted(x: string, s: seq<string>)
    requires Sorted(s) && forall y :: y in multiset(s) ==> AtMost(x, y)
    ensures Sorted([x] + s)
  {
    hide AtMost;
    assert forall j :: 0 <= j < |s| ==> s[j] in multiset(s);
  }

  lemma {:induction false} InsertSorted(x: string, s: seq<string>)
    requires Sorted(s)
    ensures Sorted(Insert(x, s))
  {
    if s != [] {
      if Less(s[0], x) {
        InsertSorted(x, s[1..]);
        InsertKeeps(x, s[1..]);
        LessTrichotomy(s[0], x);
        hide Less;
        forall y | y in multiset(Insert(x, s[1..])) ensures AtMost(s[0], y) {
          assert y == x || y in s[1..];
        }
        PrependSorted(s[0], Insert(x, s[1..]));
      } else {
        hide Less;
        forall y | y in multiset(s) ensures AtMost(x, y) {
          if y != s[0] {
            AtMostTransitive(x, s[0], y);
          }
        }
        PrependSorted(x, s);
      }
    }
  }

  /** `Sort` sorts: the result is ordered and has the same names with the same multiplicities. */
  lemma {:induction false} SortSorts(s: seq<string>)
    ensures Sorted(Sort(s)) && multiset(Sort(s)) == multiset(s)
  {
    if s != [] {
      SortSorts(s[1..]);
      InsertSorted(s[0], Sort(s[1..]));
      InsertKeeps(s[0], Sort(s[1..]));
      assert s == [s[0]] + s[1..];
    }
  }

  lemma HeadIsLeast(s: seq<string>, x: string)
    requires Sorted(s) && x in multiset(s)
    ensures s != [] && AtMost(s[0], x)
  {
    var i :| 0 <= i < |s| && s[i] == x;
    if i == 0 {
      LessTrichotomy(x, x);
    }
  }

  lemma TailMultiset(s: seq<string>)
    requires s != []
    ensures multiset(s[1..]) == multiset(s) - multiset{s[0]}
  {
    assert s == [s[0]] + s[1..];
  }

  /** A sorted arrangement is determined by the names it holds. */
  lemma {:induction false} SortedUnique(s: seq<string>, t: seq<string>)
    requires Sorted(s) && Sorted(t) && multiset(s) == multiset(t)
    ensures s == t
  {
    if s == [] {
      assert t == [] by {
        assert |multiset(t)| == 0;
      }
    } else {
      HeadIsLeast(t, s[0]) by {
        assert s[0] in multiset(s);
      }
      HeadIsLeast(s, t[0]) by {
        assert t[0] in multiset(t);
      }
      LessTrichotomy(s[0], t[0]);
      hide Less;
      TailMultiset(s);
      TailMultiset(t);
      SortedUnique(s[1..], t[1..]);
      assert s == [s[0]] + s[1..] && t == [t[0]] + t[1..];
    }
  }

  /** The names of a set in order, each once. */
  ghost function Listing(names: set<string>): (s: seq<string>)
    ensures multiset(s) == multiset(names) && Sorted(s)
  {
    if names == {} then []
    else
      var x :| x in names;
      assert names == (names - {x}) + {x};
      InsertSorted(x, Listing(names - {x}));
      InsertKeeps(x, Listing(names - {x}));
      Insert(x, Listing(names - {x}))
  }

  /** Any list of distinct names sorts to the listing of their set. */
  lemma SortIsListing(s: seq<string>, names: set<string>)
    requires multiset(s) == multiset(names)
    ensures Sort(s) == Listing(names)
  {
    SortSorts(s);
    SortedUnique(Sort(s), Listing(names));
  }

  lemma NoRepetition(s: seq<string>, names: set<string>, i: nat, j: nat)
    requires multiset(s) == multiset(names) && i < j < |s|
    ensures s[i] != s[j]
  {
    assert s == s[..j] + s[j..];
    assert multiset(s) == multiset(s[..j]) + multiset(s[j..]);
    assert s[j] == s[j..][0] && s[j] in multiset(s[j..]);
    assert multiset(s)[s[j]] <= 1;
    assert s[j] !in multiset(s[..j]);
    assert s[i] == s[..j][i];
  }

  /** The listing of a set has no repetition and as many names as the set. */
  lemma ListingIsDuplicateFree(names: set<string>)
    ensures StrictlySorted(Listing(names)) && |Listing(names)| == |names|
    ensures forall x :: x in names <==> x in Listing(names)
  {
    var s := Listing(names);
    forall x ensures x in names <==> x in s {
      assert x in s <==> x in multiset(s);
    }
    assert |multiset(s)| == |s|;
    forall i, j | 0 <= i < j < |s| ensures Less(s[i], s[j]) {
      assert AtMost(s[i], s[j]);
      LessTrichotomy(s[i], s[j]);
      NoRepetition(s, names, i, j);
    }
  }

  /** A strictly sorted list is the listing of the set of its names. */
  lemma StrictIsListing(s: seq<string>, names: set<string>)
    requires StrictlySorted(s) && forall x :: x in s <==> x in names
    ensures s == Listing(names)
  {
    forall i, j | 0 <= i < j < |s| ensures AtMost(s[i], s[j]) && s[i] != s[j] {
      LessTrichotomy(s[i], s[j]);
    }
    assert Sorted(s);
    hide Less, AtMost, Listing;
    DistinctMultiset(s, names);
    SortedUnique(s, Listing(names));
  }

  lemma {:induction false} DistinctMultiset(s: seq<string>, names: set<string>)
    requires (forall i, j :: 0 <= i < j < |s| ==> s[i] != s[j]) && forall x :: x in s <==> x in names
    ensures multiset(s) == multiset(names)
    decreases |s|
  {
    if s == [] {
      assert names == {};
    } else {
      var last, front := s[|s| - 1], s[..|s| - 1];
      assert s == front + [last];
      DistinctMultiset(front, names - {last});
      assert names == (names - {last}) + {last};
    }
  }

  /** `List` of a string set. */
  method List(names: set<string>) returns (s: seq<string>)
    ensures s == Listing(names)
  {
    s := [];
    var todo := names;
    while todo != {}
      invariant todo <= names && multiset(s) == multiset(names - todo)
      decreases |todo|
    {
      var name :| name in todo;
      assert names - (todo - {name}) == (names - todo) + {name};
      todo := todo - {name};
      s := s + [name];
    }
    assert names - todo == names;
    SortIsListing(s, names);
    s := Sort(s);
  }
}
