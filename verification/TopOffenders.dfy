/** evaluator/pkg/status: the ranking of the tuples denied most often. */
module TopOffenders {
  import opened Common
  import opened Ordering

  datatype Tuple = Tuple(srcPod: string, dstPod: string, protocol: string, direction: string, dstPort: int)

  type Counted = (Tuple, nat)

  /** Count descending, then source, destination, port, protocol and direction ascending. */
  predicate RanksBefore(a: Counted, b: Counted) {
    if a.1 != b.1 then a.1 > b.1
    else if a.0.srcPod != b.0.srcPod then StringLess(a.0.srcPod, b.0.srcPod)
    else if a.0.dstPod != b.0.dstPod then StringLess(a.0.dstPod, b.0.dstPod)
    else if a.0.dstPort != b.0.dstPort then a.0.dstPort < b.0.dstPort
    else if a.0.protocol != b.0.protocol then StringLess(a.0.protocol, b.0.protocol)
    else StringLess(a.0.direction, b.0.direction)
  }

  /** Distinct tuples are never tied. */
  lemma RanksBeforeTotal(s: set<Counted>)
    ensures StrictTotalOn(RanksBefore, s)
  {
    hide StringLess;
    forall x { StringLessIrreflexive(x); }
    forall x, y, z | StringLess(x, y) && StringLess(y, z) { StringLessTransitive(x, y, z); }
    forall x, y | x != y { StringLessConnected(x, y); }
    forall x: Counted, y: Counted, z: Counted | RanksBefore(x, y) && RanksBefore(y, z) ensures RanksBefore(x, z) { }
  }

  lemma RanksByCount(a: Counted, b: Counted)
    ensures RanksBefore(a, b) ==> a.1 >= b.1
    ensures a.1 > b.1 ==> RanksBefore(a, b)
  {
  }

  /** Field i of the ranking: is a's before b's? */
  predicate FieldBefore(a: Counted, b: Counted, i: nat) {
    match i
    case 0 => a.1 > b.1
    case 1 => StringLess(a.0.srcPod, b.0.srcPod)
    case 2 => StringLess(a.0.dstPod, b.0.dstPod)
    case 3 => a.0.dstPort < b.0.dstPort
    case 4 => StringLess(a.0.protocol, b.0.protocol)
    case _ => StringLess(a.0.direction, b.0.direction)
  }

  predicate FieldSame(a: Counted, b: Counted, i: nat) {
    match i
    case 0 => a.1 == b.1
    case 1 => a.0.srcPod == b.0.srcPod
    case 2 => a.0.dstPod == b.0.dstPod
    case 3 => a.0.dstPort == b.0.dstPort
    case 4 => a.0.protocol == b.0.protocol
    case _ => a.0.direction == b.0.direction
  }

  /** The first of the six fields that differs decides. */
  lemma FirstDifferenceDecides(a: Counted, b: Counted)
    ensures RanksBefore(a, b) <==>
      exists i: nat :: i < 6 && FieldBefore(a, b, i) && forall j: nat :: j < i ==> FieldSame(a, b, j)
  {
    hide StringLess;
    forall s { StringLessIrreflexive(s); }
    assert FieldSame(a, b, 0) <==> a.1 == b.1;
    assert FieldSame(a, b, 1) <==> a.0.srcPod == b.0.srcPod;
    assert FieldSame(a, b, 2) <==> a.0.dstPod == b.0.dstPod;
    assert FieldSame(a, b, 3) <==> a.0.dstPort == b.0.dstPort;
    assert FieldSame(a, b, 4) <==> a.0.protocol == b.0.protocol;
    if RanksBefore(a, b) {
      var i: nat := if a.1 != b.1 then 0 else if a.0.srcPod != b.0.srcPod then 1 else if a.0.dstPod != b.0.dstPod then 2
        else if a.0.dstPort != b.0.dstPort then 3 else if a.0.protocol != b.0.protocol then 4 else 5;
      assert FieldBefore(a, b, i);
      assert forall j: nat :: j < i ==> FieldSame(a, b, j);
    }
  }

  function Min(a: int, b: int): int { if a < b then a else b }

  /** The entries of the counter map. */
  function Entries(m: map<Tuple, nat>): set<Counted> { set t | t in m :: (t, m[t]) }

  lemma {:induction false} EntriesCount(m: map<Tuple, nat>)
    ensures |Entries(m)| == |m|
    decreases |m|
  {
    if m != map[] {
      var k :| k in m;
      var rest := m - {k};
      EntriesCount(rest);
      forall e ensures e in Entries(m) <==> e in Entries(rest) + {(k, m[k])} {
        if e in Entries(m) && e.0 != k { assert e.0 in rest && rest[e.0] == e.1; }
      }
      assert Entries(m) == Entries(rest) + {(k, m[k])};
      assert m.Keys == rest.Keys + {k};
    }
  }

  /** The first n of all counters in rank order. */
  ghost function Top(m: map<Tuple, nat>, n: int): seq<Counted> {
    var all := SortedSet(RanksBefore, Entries(m));
    if n <= 0 then [] else all[..Min(n, |all|)]
  }

  method ComputeTopOffenders(m: map<Tuple, nat>, n: int) returns (out: seq<Counted>)
    ensures out == Top(m, n)
  {
    hide RanksBefore, SortBy, SortedSet;
    RanksBeforeTotal(Entries(m));
    SortedSetCorrect(RanksBefore, Entries(m));
    EntriesCount(m);
    if n <= 0 || |m| == 0 { return []; }
    var keys := Enumerate(m.Keys);
    var all: seq<Counted> := [];
    for i := 0 to |keys|
      invariant |all| == i && forall j :: 0 <= j < i ==> all[j] == (keys[j], m[keys[j]])
    {
      all := all + [(keys[i], m[keys[i]])];
    }
    forall x ensures x in all <==> x in Entries(m) {
      if x in Entries(m) {
        var j :| 0 <= j < |keys| && keys[j] == x.0;
        assert all[j] == x;
      }
    }
    SortIgnoresOrder(RanksBefore, all, Entries(m));
    all := SortBy(RanksBefore, all);
    if |all| > n { all := all[..n]; }
    out := [];
    for i := 0 to |all|
      invariant out == all[..i]
    {
      out := out + [all[i]];
    }
  }

  /** r lists the n counters of m that rank first. */
  ghost predicate IsTop(m: map<Tuple, nat>, n: nat, r: seq<Counted>) {
    && |r| == Min(n, |m|)
    && StrictlySorted(RanksBefore, r)
    && (forall x :: x in r ==> x in Entries(m))
    && (forall x, y :: x in r && y in Entries(m) && y !in r ==> RanksBefore(x, y))
  }

  lemma TopIsTop(m: map<Tuple, nat>, n: nat)
    ensures IsTop(m, n, Top(m, n))
  {
    hide RanksBefore, SortedSet;
    RanksBeforeTotal(Entries(m));
    SortedSetCorrect(RanksBefore, Entries(m));
    EntriesCount(m);
    var all, top := SortedSet(RanksBefore, Entries(m)), Top(m, n);
    assert forall j :: 0 <= j < |top| ==> all[j] == top[j] && all[j] in top;
    forall x, y | x in top && y in Entries(m) && y !in top ensures RanksBefore(x, y) {
      var i :| 0 <= i < |top| && top[i] == x;
      var j :| 0 <= j < |all| && all[j] == y;
      assert i < j;
    }
  }

  /** There is only one such list, so the ranking does not depend on the iteration order of the map. */
  lemma TopIsUnique(m: map<Tuple, nat>, n: nat, r: seq<Counted>)
    requires IsTop(m, n, r)
    ensures r == Top(m, n)
  {
    hide RanksBefore, SortedSet, Entries;
    var s := Entries(m);
    var rest := SortedSet(RanksBefore, s - ToSet(r));
    RanksBeforeTotal(s);
    RanksBeforeTotal(s - ToSet(r));
    SortedSetCorrect(RanksBefore, s);
    SortedSetCorrect(RanksBefore, s - ToSet(r));
    EntriesCount(m);
    SortedConcat(r, rest);
    Members(r, rest, s);
    SortedUnique(RanksBefore, r + rest, SortedSet(RanksBefore, s));
  }

  lemma SortedConcat(a: seq<Counted>, b: seq<Counted>)
    requires StrictlySorted(RanksBefore, a) && StrictlySorted(RanksBefore, b)
    requires forall x, y :: x in a && y in b ==> RanksBefore(x, y)
    ensures StrictlySorted(RanksBefore, a + b)
  {
    hide RanksBefore;
  }

  lemma Members(a: seq<Counted>, b: seq<Counted>, s: set<Counted>)
    requires (forall x :: x in a ==> x in s) && forall x :: x in b <==> x in s - ToSet(a)
    ensures (forall x :: x in a + b <==> x in s) && ToSet(a + b) == s
  {
    forall x ensures x in a + b <==> x in s { }
  }
}
