/** Sorting as the Go standard library promises it, and why the result of a
    sort by a strict total order does not depend on the input order. */
module Ordering {
  import opened Common

  /** less is a strict total order on the elements of s. */
  ghost predicate StrictTotalOn<T(!new)>(less: (T, T) -> bool, s: set<T>) {
    && (forall x :: x in s ==> !less(x, x))
    && (forall x, y, z :: x in s && y in s && z in s && less(x, y) && less(y, z) ==> less(x, z))
    && (forall x, y :: x in s && y in s && x != y ==> less(x, y) || less(y, x))
  }

  predicate StrictlySorted<T>(less: (T, T) -> bool, s: seq<T>) {
    forall i, j :: 0 <= i < j < |s| ==> less(s[i], s[j])
  }

  function Insert<T>(less: (T, T) -> bool, x: T, s: seq<T>): seq<T> {
    if s == [] || less(x, s[0]) then [x] + s
    else [s[0]] + Insert(less, x, s[1..])
  }

  /** The library call sort.Slice / sort.Strings: some correct sort.
      SortedUnique shows that any other correct sort returns the same. */
  function SortBy<T>(less: (T, T) -> bool, s: seq<T>): seq<T> {
    if s == [] then [] else Insert(less, s[0], SortBy(less, s[1..]))
  }

  lemma {:induction false} InsertSorted<T(!new)>(less: (T, T) -> bool, x: T, s: seq<T>, all: set<T>)
    requires x !in s && x in all && StrictTotalOn(less, all) && forall y :: y in s ==> y in all
    requires StrictlySorted(less, s)
    ensures StrictlySorted(less, Insert(less, x, s))
    ensures multiset(Insert(less, x, s)) == multiset(s) + multiset{x}
    ensures forall y :: y in Insert(less, x, s) <==> y == x || y in s
  {
    if s == [] || less(x, s[0]) {
      forall y | y in s ensures less(x, y) { assert s[0] in all && y in all; }
    } else {
      var t := s[1..];
      assert s == [s[0]] + t;
      InsertSorted(less, x, t, all);
      var r := Insert(less, x, t);
      forall y | y in r ensures less(s[0], y) { assert s[0] in s; }
    }
  }

  lemma {:induction false} SortByCorrect<T(!new)>(less: (T, T) -> bool, s: seq<T>)
    requires Distinct(s) && StrictTotalOn(less, ToSet(s))
    ensures StrictlySorted(less, SortBy(less, s))
    ensures multiset(SortBy(less, s)) == multiset(s)
    ensures forall y :: y in SortBy(less, s) <==> y in s
  {
    if s != [] {
      var t := s[1..];
      assert s == [s[0]] + t;
      assert ToSet(t) <= ToSet(s);
      SortByCorrect(less, t);
      InsertSorted(less, s[0], SortBy(less, t), ToSet(s));
    }
  }

  /** Two strictly sorted sequences with the same elements are the same sequence. */
  lemma {:induction false} SortedUnique<T(!new)>(less: (T, T) -> bool, a: seq<T>, b: seq<T>)
    requires StrictTotalOn(less, ToSet(a))
    requires StrictlySorted(less, a) && StrictlySorted(less, b)
    requires forall x :: x in a <==> x in b
    ensures a == b
  {
    assert b != [] ==> b[0] in b;
    if a != [] {
      assert a[0] in b;
      LeastFirst(less, a, b);
      assert a == [a[0]] + a[1..] && b == [b[0]] + b[1..];
      forall x ensures x in a[1..] <==> x in b[1..] {
        if x in a[1..] { assert less(a[0], x) && x in ToSet(a); }
        if x in b[1..] { assert less(b[0], x) && x in ToSet(a); }
      }
      assert ToSet(a[1..]) <= ToSet(a);
      SortedUnique(less, a[1..], b[1..]);
    }
  }

  lemma LeastFirst<T(!new)>(less: (T, T) -> bool, a: seq<T>, b: seq<T>)
    requires a != [] && b != [] && StrictTotalOn(less, ToSet(a))
    requires StrictlySorted(less, a) && StrictlySorted(less, b)
    requires forall x :: x in a <==> x in b
    ensures a[0] == b[0]
  {
    var x, y := a[0], b[0];
    assert x in b && y in b;
    assert x in ToSet(a) && y in ToSet(a);
    var i :| 0 <= i < |b| && b[i] == x;
    var j :| 0 <= j < |a| && a[j] == y;
    assert i == 0 || less(y, x);
    assert j == 0 || less(x, y);
  }

  /** Lists the elements of a set in some order: Go's randomised map iteration. */
  method Enumerate<T>(s: set<T>) returns (r: seq<T>)
    ensures Distinct(r) && (forall x :: x in r <==> x in s) && |r| == |s|
  {
    r := [];
    var rest := s;
    while rest != {}
      invariant rest <= s && Distinct(r) && |r| + |rest| == |s|
      invariant forall x :: x in r <==> x in s && x !in rest
      decreases rest
    {
      var x :| x in rest;
      r := r + [x];
      rest := rest - {x};
    }
  }

  /** Some listing of a set, for specifications only. */
  ghost function Listing<T(!new)>(s: set<T>): (r: seq<T>)
    ensures Distinct(r) && (forall x :: x in r <==> x in s) && |r| == |s|
  {
    if s == {} then [] else var x :| x in s; [x] + Listing(s - {x})
  }

  /** The one strictly sorted listing of a set. */
  ghost function SortedSet<T(!new)>(less: (T, T) -> bool, s: set<T>): seq<T> {
    SortBy(less, Listing(s))
  }

  lemma SortedSetCorrect<T(!new)>(less: (T, T) -> bool, s: set<T>)
    requires StrictTotalOn(less, s)
    ensures StrictlySorted(less, SortedSet(less, s))
    ensures forall x :: x in SortedSet(less, s) <==> x in s
    ensures |SortedSet(less, s)| == |s|
  {
    assert ToSet(Listing(s)) == s;
    SortByCorrect(less, Listing(s));
    assert |multiset(SortBy(less, Listing(s)))| == |multiset(Listing(s))|;
  }

  /** Sorting any duplicate-free listing of a set gives that one sorted listing,
      whatever order the listing came in. */
  lemma SortIgnoresOrder<T(!new)>(less: (T, T) -> bool, listing: seq<T>, s: set<T>)
    requires StrictTotalOn(less, s) && Distinct(listing)
    requires forall x :: x in listing <==> x in s
    ensures SortBy(less, listing) == SortedSet(less, s)
  {
    assert ToSet(listing) == s;
    SortByCorrect(less, listing);
    SortedSetCorrect(less, s);
    assert ToSet(SortBy(less, listing)) == s;
    SortedUnique(less, SortBy(less, listing), SortedSet(less, s));
  }

  /** Go's string comparison: lexicographic. */
  predicate StringLess(a: string, b: string) {
    b != [] && (a == [] || a[0] < b[0] || (a[0] == b[0] && StringLess(a[1..], b[1..])))
  }

  lemma {:induction false} StringLessIrreflexive(a: string)
    ensures !StringLess(a, a)
  {
    if a != [] { StringLessIrreflexive(a[1..]); }
  }

  lemma {:induction false} StringLessTransitive(a: string, b: string, c: string)
    requires StringLess(a, b) && StringLess(b, c)
    ensures StringLess(a, c)
  {
    if a != [] && a[0] == b[0] && b[0] == c[0] {
      StringLessTransitive(a[1..], b[1..], c[1..]);
    }
  }

  lemma {:induction false} StringLessConnected(a: string, b: string)
    requires a != b
    ensures StringLess(a, b) || StringLess(b, a)
  {
    if a != [] && b != [] && a[0] == b[0] {
      assert a == [a[0]] + a[1..] && b == [b[0]] + b[1..];
      StringLessConnected(a[1..], b[1..]);
    }
  }

  lemma StringLessTotal(s: set<string>)
    ensures StrictTotalOn(StringLess, s)
  {
    forall x { StringLessIrreflexive(x); }
    forall x, y, z | StringLess(x, y) && StringLess(y, z) { StringLessTransitive(x, y, z); }
    forall x, y | x != y { StringLessConnected(x, y); }
  }
}
