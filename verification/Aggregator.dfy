/** evaluator/pkg/status: verdict counters per policy, and their periodic publication. */
module Aggregator {
  import opened Common
  import opened Ordering
  import opened TopOffenders

  datatype PolicyKey = PolicyKey(ns: string, name: string)

  /** One call of Record. */
  datatype Observation = Observation(key: PolicyKey, tuple: Tuple, wouldDeny: bool, generation: int)

  // ----- what the counters should say about the observations of one policy

  datatype Totals = Totals(flowsEvaluated: nat, flowsWouldDeny: nat, observedGeneration: int, tuples: map<Tuple, nat>)

  function CountOf(tuples: map<Tuple, nat>, t: Tuple): nat {
    if t in tuples then tuples[t] else 0
  }

  function Bump(t: Totals, o: Observation): Totals {
    Totals(t.flowsEvaluated + 1,
           if o.wouldDeny then t.flowsWouldDeny + 1 else t.flowsWouldDeny,
           if o.generation > t.observedGeneration then o.generation else t.observedGeneration,
           if o.wouldDeny then t.tuples[o.tuple := CountOf(t.tuples, o.tuple) + 1] else t.tuples)
  }

  function Summary(h: seq<Observation>): Totals {
    if h == [] then Totals(0, 0, 0, map[]) else Bump(Summary(h[..|h| - 1]), h[|h| - 1])
  }

  lemma SummaryOfNothing()
    ensures Summary([]) == Totals(0, 0, 0, map[])
  {
  }

  lemma SummarySnoc(h: seq<Observation>, o: Observation)
    ensures Summary(h + [o]) == Bump(Summary(h), o)
  {
    assert (h + [o])[..|h|] == h;
  }

  /** The tuples of the denied observations, in order. */
  function DeniedTuples(h: seq<Observation>): seq<Tuple> {
    if h == [] then []
    else DeniedTuples(h[..|h| - 1]) + if h[|h| - 1].wouldDeny then [h[|h| - 1].tuple] else []
  }

  function Total(m: map<Tuple, nat>, keys: seq<Tuple>): nat {
    if keys == [] then 0 else CountOf(m, keys[0]) + Total(m, keys[1..])
  }

  /** The counters are exact: flows evaluated, flows denied, the multiplicity of every denied
      tuple and no other tuple, and the highest generation seen, never below zero. */
  lemma {:induction false} SummaryIsExact(h: seq<Observation>)
    ensures var s := Summary(h);
      && s.flowsEvaluated == |h|
      && s.flowsWouldDeny == |DeniedTuples(h)| <= |h|
      && (forall t :: CountOf(s.tuples, t) == multiset(DeniedTuples(h))[t])
      && (forall t :: t in s.tuples <==> t in DeniedTuples(h))
      && s.observedGeneration >= 0
      && (forall o :: o in h ==> o.generation <= s.observedGeneration)
      && (s.observedGeneration == 0 || exists o :: o in h && o.generation == s.observedGeneration)
  {
    if h != [] {
      var front, o := h[..|h| - 1], h[|h| - 1];
      assert h == front + [o];
      SummaryIsExact(front);
      if Summary(h).observedGeneration == o.generation { assert o in h; }
    }
  }

  lemma {:induction false} TotalAfterBump(m: map<Tuple, nat>, t: Tuple, keys: seq<Tuple>)
    requires Distinct(keys)
    ensures Total(m[t := CountOf(m, t) + 1], keys) == Total(m, keys) + if t in keys then 1 else 0
  {
    if keys != [] {
      assert keys == [keys[0]] + keys[1..];
      TotalAfterBump(m, t, keys[1..]);
    }
  }

  lemma {:induction false} TotalOfNothing(keys: seq<Tuple>)
    ensures Total(map[], keys) == 0
  {
    if keys != [] { TotalOfNothing(keys[1..]); }
  }

  /** flowsWouldDeny is the sum of the tuple counters, over any listing that holds them all. */
  lemma {:induction false} DeniesAreTupleTotal(h: seq<Observation>, keys: seq<Tuple>)
    requires Distinct(keys) && forall t :: t in Summary(h).tuples ==> t in keys
    ensures Summary(h).flowsWouldDeny == Total(Summary(h).tuples, keys)
  {
    if h == [] {
      TotalOfNothing(keys);
    } else {
      var front, o := h[..|h| - 1], h[|h| - 1];
      DeniesAreTupleTotal(front, keys);
      if o.wouldDeny { TotalAfterBump(Summary(front).tuples, o.tuple, keys); }
    }
  }

  // ----- the observations of every policy, and what a flush publishes

  /** Per policy, the observations since its entry was created. */
  type History = map<PolicyKey, seq<Observation>>

  function Of(h: History, k: PolicyKey): seq<Observation> { if k in h then h[k] else [] }

  function Recorded(h: History, o: Observation): History { h[o.key := Of(h, o.key) + [o]] }

  function AllRecorded(h: History, os: seq<Observation>): History {
    if os == [] then h else Recorded(AllRecorded(h, os[..|os| - 1]), os[|os| - 1])
  }

  datatype PatchOutcome = Patched | NotFound | Cancelled | Failed

  datatype Status = Status(observedGeneration: int, flowsEvaluated: nat, flowsWouldDeny: nat, topOffenders: seq<Counted>)

  ghost function StatusOf(t: Totals, topN: int): Status {
    Status(t.observedGeneration, t.flowsEvaluated, t.flowsWouldDeny, Top(t.tuples, topN))
  }

  /** How the API server answers each patch, and what is recorded while the patch is in flight. */
  datatype World = World(outcome: PolicyKey -> PatchOutcome, arrivals: PolicyKey -> seq<Observation>)

  type Published = seq<(PolicyKey, Status)>

  /** Patching the keys in turn: what is published comes from the snapshot; the live history
      takes the arrivals, and loses the entries of policies that are gone. */
  ghost function FlushFrom(keys: seq<PolicyKey>, snapshot: History, live: History, world: World, topN: int): (Published, History) {
    if keys == [] then ([], live)
    else
      var k := keys[0];
      var live1 := AllRecorded(live, world.arrivals(k));
      match world.outcome(k)
      case Cancelled => ([], live1)
      case NotFound => FlushFrom(keys[1..], snapshot, live1 - {k}, world, topN)
      case Failed => FlushFrom(keys[1..], snapshot, live1, world, topN)
      case Patched =>
        var rest := FlushFrom(keys[1..], snapshot, live1, world, topN);
        ([(k, StatusOf(Summary(Of(snapshot, k)), topN))] + rest.0, rest.1)
  }

  /** What was published so far, then the rest of a flush. */
  function After(published: Published, rest: (Published, History)): (Published, History) {
    (published + rest.0, rest.1)
  }

  lemma FlushStep(keys: seq<PolicyKey>, snapshot: History, live: History, world: World, topN: int)
    requires keys != []
    ensures var k, live1 := keys[0], AllRecorded(live, world.arrivals(keys[0]));
      FlushFrom(keys, snapshot, live, world, topN) ==
        match world.outcome(k)
        case Cancelled => ([], live1)
        case NotFound => FlushFrom(keys[1..], snapshot, live1 - {k}, world, topN)
        case Failed => FlushFrom(keys[1..], snapshot, live1, world, topN)
        case Patched => After([(k, StatusOf(Summary(Of(snapshot, k)), topN))], FlushFrom(keys[1..], snapshot, live1, world, topN))
  {
  }

  lemma FlushEnd(snapshot: History, live: History, world: World, topN: int)
    ensures FlushFrom([], snapshot, live, world, topN) == ([], live)
  {
  }

  predicate KeyLess(a: PolicyKey, b: PolicyKey) {
    if a.ns != b.ns then StringLess(a.ns, b.ns) else StringLess(a.name, b.name)
  }

  /** By namespace, then by name. */
  lemma KeyOrder(a: PolicyKey, b: PolicyKey)
    ensures KeyLess(a, b) <==> StringLess(a.ns, b.ns) || (a.ns == b.ns && StringLess(a.name, b.name))
  {
    StringLessIrreflexive(a.ns);
  }

  lemma KeyLessTotal(s: set<PolicyKey>)
    ensures StrictTotalOn(KeyLess, s)
  {
    hide StringLess;
    forall x { StringLessIrreflexive(x); }
    forall x, y, z | StringLess(x, y) && StringLess(y, z) { StringLessTransitive(x, y, z); }
    forall x, y | x != y { StringLessConnected(x, y); }
  }

  /** Each status published is that of its policy at the snapshot; each policy is published at
      most once, in key order, and only if its patch succeeded; and unless the flush is cancelled,
      every policy whose patch succeeds is published. */
  ghost predicate PublishesSnapshot(out: Published, keys: seq<PolicyKey>, snapshot: History, world: World, topN: int) {
    && (forall p :: p in out ==>
          p.0 in keys && world.outcome(p.0) == Patched && p.1 == StatusOf(Summary(Of(snapshot, p.0)), topN))
    && (forall i, j :: 0 <= i < j < |out| ==> KeyLess(out[i].0, out[j].0))
    && ((forall k :: k in keys ==> world.outcome(k) != Cancelled) ==>
          forall k :: k in keys && world.outcome(k) == Patched ==> exists p :: p in out && p.0 == k)
  }

  lemma SkipFirst(out: Published, keys: seq<PolicyKey>, snapshot: History, world: World, topN: int)
    requires keys != [] && world.outcome(keys[0]) != Patched
    requires PublishesSnapshot(out, keys[1..], snapshot, world, topN)
    ensures PublishesSnapshot(out, keys, snapshot, world, topN)
  {
    hide Summary, StatusOf, KeyLess, Of;
    assert keys == [keys[0]] + keys[1..];
  }

  lemma PublishFirst(out: Published, keys: seq<PolicyKey>, snapshot: History, world: World, topN: int)
    requires keys != [] && world.outcome(keys[0]) == Patched && StrictlySorted(KeyLess, keys)
    requires PublishesSnapshot(out, keys[1..], snapshot, world, topN)
    ensures PublishesSnapshot([(keys[0], StatusOf(Summary(Of(snapshot, keys[0])), topN))] + out, keys, snapshot, world, topN)
  {
    hide Summary, StatusOf, KeyLess, Of;
    var k, rest := keys[0], keys[1..];
    var p := (k, StatusOf(Summary(Of(snapshot, k)), topN));
    assert keys == [k] + rest;
    forall q | q in out ensures KeyLess(k, q.0) {
      var i :| 0 <= i < |rest| && rest[i] == q.0;
      assert keys[i + 1] == q.0;
    }
    forall l | l in keys && world.outcome(l) == Patched && (forall m :: m in keys ==> world.outcome(m) != Cancelled)
      ensures exists q :: q in [p] + out && q.0 == l
    {
      assert p in [p] + out;
      if l != k { var q :| q in out && q.0 == l; assert q in [p] + out; }
    }
  }

  /** So it is whatever is recorded while the flush runs. */
  lemma {:induction false} PublishedIsSnapshot(keys: seq<PolicyKey>, snapshot: History, live: History, world: World, topN: int)
    requires StrictlySorted(KeyLess, keys)
    ensures PublishesSnapshot(FlushFrom(keys, snapshot, live, world, topN).0, keys, snapshot, world, topN)
  {
    hide Summary, StatusOf, KeyLess, AllRecorded;
    if keys == [] {
    } else {
      var live1 := AllRecorded(live, world.arrivals(keys[0]));
      var out := FlushFrom(keys, snapshot, live, world, topN).0;
      match world.outcome(keys[0])
      case Cancelled =>
      case NotFound =>
        PublishedIsSnapshot(keys[1..], snapshot, live1 - {keys[0]}, world, topN);
        SkipFirst(out, keys, snapshot, world, topN);
      case Failed =>
        PublishedIsSnapshot(keys[1..], snapshot, live1, world, topN);
        SkipFirst(out, keys, snapshot, world, topN);
      case Patched =>
        PublishedIsSnapshot(keys[1..], snapshot, live1, world, topN);
        PublishFirst(FlushFrom(keys[1..], snapshot, live1, world, topN).0, keys, snapshot, world, topN);
    }
  }

  // ----- what the history of a policy gains

  predicate IsOf(o: Observation, k: PolicyKey) { o.key == k }

  /** The observations of one policy, in order. */
  function OnlyOf(os: seq<Observation>, k: PolicyKey): seq<Observation> { Filter(os, o => IsOf(o, k)) }

  lemma OnlyOfSnoc(os: seq<Observation>, o: Observation, k: PolicyKey)
    ensures OnlyOf(os + [o], k) == OnlyOf(os, k) + if o.key == k then [o] else []
    ensures OnlyOf([], k) == []
  {
    FilterConcat(os, [o], o => IsOf(o, k));
    assert [o][1..] == [];
  }

  /** Recording adds to the history of each policy its own observations, in order, and no others. */
  lemma {:induction false} RecordedPerPolicy(h: History, os: seq<Observation>, k: PolicyKey)
    ensures Of(AllRecorded(h, os), k) == Of(h, k) + OnlyOf(os, k)
    ensures AllRecorded(h, os).Keys == h.Keys + set o | o in os :: o.key
  {
    hide OnlyOf;
    if os == [] {
      OnlyOfNothing(k);
      assert Of(h, k) + [] == Of(h, k);
    } else {
      var front, o := os[..|os| - 1], os[|os| - 1];
      assert os == front + [o];
      RecordedPerPolicy(h, front, k);
      OnlyOfSnoc(front, o, k);
      assert Of(h, k) + OnlyOf(front, k) + [] == Of(h, k) + OnlyOf(front, k);
    }
  }

  lemma OnlyOfNothing(k: PolicyKey)
    ensures OnlyOf([], k) == []
  {
  }

  // ----- which entries survive a flush

  /** All that is recorded while the keys are patched, up to a cancellation. */
  function Arrivals(keys: seq<PolicyKey>, world: World): seq<Observation> {
    if keys == [] then []
    else world.arrivals(keys[0]) + if world.outcome(keys[0]) == Cancelled then [] else Arrivals(keys[1..], world)
  }

  lemma OnlyOfConcat(a: seq<Observation>, b: seq<Observation>, k: PolicyKey)
    ensures OnlyOf(a + b, k) == OnlyOf(a, k) + OnlyOf(b, k)
  {
    FilterConcat(a, b, o => IsOf(o, k));
  }

  /** An entry whose policy is not found missing keeps its history and only gains what is recorded
      during the flush. */
  lemma {:induction false} OthersSurvive(keys: seq<PolicyKey>, snapshot: History, live: History, world: World, topN: int, k: PolicyKey)
    requires k !in keys || world.outcome(k) != NotFound
    ensures var after := FlushFrom(keys, snapshot, live, world, topN).1;
      && Of(after, k) == Of(live, k) + OnlyOf(Arrivals(keys, world), k)
      && (k in live ==> k in after)
  {
    hide OnlyOf, StatusOf, AllRecorded, FlushFrom;
    if keys == [] {
      FlushEnd(snapshot, live, world, topN);
      OnlyOfNothing(k);
      assert Of(live, k) + [] == Of(live, k);
    } else {
      var key, live1 := keys[0], AllRecorded(live, world.arrivals(keys[0]));
      FlushStep(keys, snapshot, live, world, topN);
      RecordedPerPolicy(live, world.arrivals(key), k);
      OnlyOfConcat(world.arrivals(key), Arrivals(keys[1..], world), k);
      assert forall a: seq<Observation>, b, c :: (a + b) + c == a + (b + c);
      match world.outcome(key)
      case Cancelled => assert world.arrivals(key) + [] == world.arrivals(key);
      case NotFound => OthersSurvive(keys[1..], snapshot, live1 - {key}, world, topN, k);
      case Failed => OthersSurvive(keys[1..], snapshot, live1, world, topN, k);
      case Patched => OthersSurvive(keys[1..], snapshot, live1, world, topN, k);
    }
  }

  /** An entry whose policy is found missing starts again from nothing: it holds what is recorded
      after its patch, and if there is nothing, it is gone. */
  lemma {:induction false} EvictedStartsAgain(keys: seq<PolicyKey>, snapshot: History, live: History, world: World, topN: int, i: nat)
    requires i < |keys| && Distinct(keys) && world.outcome(keys[i]) == NotFound
    requires forall j :: 0 <= j < i ==> world.outcome(keys[j]) != Cancelled
    ensures var after := FlushFrom(keys, snapshot, live, world, topN).1;
      && Of(after, keys[i]) == OnlyOf(Arrivals(keys[i + 1..], world), keys[i])
      && (Of(after, keys[i]) == [] ==> keys[i] !in after)
  {
    hide OnlyOf, StatusOf, AllRecorded, FlushFrom;
    var key, k, live1 := keys[0], keys[i], AllRecorded(live, world.arrivals(keys[0]));
    FlushStep(keys, snapshot, live, world, topN);
    if i == 0 {
      OthersSurvive(keys[1..], snapshot, live1 - {k}, world, topN, k);
      NewcomersOnly(keys[1..], snapshot, live1 - {k}, world, topN, k);
      assert [] + OnlyOf(Arrivals(keys[1..], world), k) == OnlyOf(Arrivals(keys[1..], world), k);
    } else {
      assert keys[1..][i - 1] == k && keys[1..][i..] == keys[i + 1..];
      EvictedStartsAgain(keys[1..], snapshot, if world.outcome(key) == NotFound then live1 - {key} else live1, world, topN, i - 1);
    }
  }

  /** An entry that appears has a history. */
  lemma {:induction false} NewcomersOnly(keys: seq<PolicyKey>, snapshot: History, live: History, world: World, topN: int, k: PolicyKey)
    requires k !in live && k !in keys
    ensures var after := FlushFrom(keys, snapshot, live, world, topN).1; k in after ==> Of(after, k) != []
    decreases |keys|
  {
    hide OnlyOf, StatusOf, AllRecorded, FlushFrom;
    if keys == [] {
      FlushEnd(snapshot, live, world, topN);
    } else {
      var key, live1 := keys[0], AllRecorded(live, world.arrivals(keys[0]));
      FlushStep(keys, snapshot, live, world, topN);
      RecordedPerPolicy(live, world.arrivals(key), k);
      var live2 := if world.outcome(key) == NotFound then live1 - {key} else live1;
      if k in live1 {
        SomethingRecorded(live, world.arrivals(key), k);
        OthersSurvive(keys[1..], snapshot, live2, world, topN, k);
      } else {
        NewcomersOnly(keys[1..], snapshot, live2, world, topN, k);
      }
    }
  }

  lemma SomethingRecorded(h: History, os: seq<Observation>, k: PolicyKey)
    requires k !in h && k in AllRecorded(h, os)
    ensures Of(AllRecorded(h, os), k) != []
  {
    hide AllRecorded;
    RecordedPerPolicy(h, os, k);
    var o :| o in os && o.key == k;
    assert IsOf(o, k);
    assert o in OnlyOf(os, k);
  }

  /** Counters only grow with a history. */
  lemma {:induction false} CountersGrow(a: seq<Observation>, b: seq<Observation>)
    ensures var s, t := Summary(a), Summary(a + b);
      && s.flowsEvaluated <= t.flowsEvaluated && s.flowsWouldDeny <= t.flowsWouldDeny
      && s.observedGeneration <= t.observedGeneration
      && forall x :: CountOf(s.tuples, x) <= CountOf(t.tuples, x)
  {
    hide Summary;
    if b == [] {
      assert a + b == a;
    } else {
      var front, o := b[..|b| - 1], b[|b| - 1];
      CountersGrow(a, front);
      SummarySnoc(a + front, o);
      assert a + b == a + front + [o];
    }
  }

  /** What is published for a policy, from the observations at the snapshot: how many there are, how
      many were denied, and the highest generation. */
  lemma StatusIsExact(h: seq<Observation>, topN: int)
    ensures var s := StatusOf(Summary(h), topN);
      && s.flowsEvaluated == |h|
      && s.flowsWouldDeny == |DeniedTuples(h)|
      && (forall o :: o in h ==> o.generation <= s.observedGeneration)
      && (s.observedGeneration == 0 || exists o :: o in h && o.generation == s.observedGeneration)
  {
    hide Summary, DeniedTuples, Top;
    SummaryIsExact(h);
  }

  lemma EntryOf(m: map<Tuple, nat>, x: Counted)
    ensures x in Entries(m) <==> x.0 in m && x.1 == m[x.0]
  {
  }

  /** The offenders published are denied tuples with the number of their denials, and no denied tuple
      left out has more. */
  lemma OffendersAreExact(h: seq<Observation>, topN: nat, x: Counted, t: Tuple)
    requires x in StatusOf(Summary(h), topN).topOffenders
    ensures x.0 in DeniedTuples(h) && x.1 == multiset(DeniedTuples(h))[x.0]
    ensures t in DeniedTuples(h) && (forall y :: y in StatusOf(Summary(h), topN).topOffenders ==> y.0 != t)
      ==> multiset(DeniedTuples(h))[t] <= x.1
  {
    hide Summary, DeniedTuples, RanksBefore, Top, Entries, StrictlySorted;
    SummaryIsExact(h);
    var m := Summary(h).tuples;
    TopIsTop(m, topN);
    EntryOf(m, x);
    assert CountOf(m, x.0) == m[x.0];
    if t in DeniedTuples(h) && forall y :: y in Top(m, topN) ==> y.0 != t {
      var y := (t, m[t]);
      EntryOf(m, y);
      RanksByCount(x, y);
      assert CountOf(m, t) == m[t];
    }
  }

  // ----- the running aggregator

  class PolicyAgg {
    var flowsEvaluated: nat
    var flowsWouldDeny: nat
    var observedGeneration: int
    var tuples: map<Tuple, nat>

    ghost function View(): Totals
      reads this
    {
      Totals(flowsEvaluated, flowsWouldDeny, observedGeneration, tuples)
    }

    constructor ()
      ensures View() == Totals(0, 0, 0, map[])
    {
      flowsEvaluated, flowsWouldDeny, observedGeneration, tuples := 0, 0, 0, map[];
    }

    /** The counters of one entry, under the lock. */
    method Add(o: Observation)
      modifies this
      ensures View() == Bump(old(View()), o)
    {
      flowsEvaluated := flowsEvaluated + 1;
      if o.generation > observedGeneration {
        observedGeneration := o.generation;
      }
      if !o.wouldDeny { return; }
      flowsWouldDeny := flowsWouldDeny + 1;
      tuples := tuples[o.tuple := CountOf(tuples, o.tuple) + 1];
    }
  }

  class Aggregator {
    var counts: map<PolicyKey, PolicyAgg>
    const topN: int
    ghost var history: History

    ghost function Repr(): set<object>
      reads this
    {
      set k | k in counts :: counts[k]
    }

    /** Every entry is an object of its own and summarises the observations since it was created. */
    ghost predicate Valid()
      reads this, Repr()
    {
      && counts.Keys == history.Keys
      && (forall k, l :: k in counts && l in counts && k != l ==> counts[k] != counts[l])
      && (forall k :: k in counts ==> counts[k].View() == Summary(history[k]))
    }

    constructor (topN: int)
      ensures Valid() && fresh(Repr()) && history == map[] && this.topN == topN
    {
      this.topN := topN;
      counts, history := map[], map[];
    }

    /** The entry of a policy, made on its first verdict. */
    method EnsureEntry(key: PolicyKey)
      requires Valid()
      modifies this
      ensures Valid() && key in counts
      ensures counts == old(counts) || (key !in old(counts) && fresh(counts[key]) && counts == old(counts)[key := counts[key]])
      ensures history == old(history)[key := Of(old(history), key)]
    {
      hide Summary;
      if key in counts {
        assert history[key := Of(history, key)] == history;
        return;
      }
      var made := new PolicyAgg();
      counts := counts[key := made];
      history := history[key := []];
      SummaryOfNothing();
    }

    /** One more observation in an existing entry. */
    method AddTo(o: Observation)
      requires Valid() && o.key in counts
      modifies this`history, counts[o.key]
      ensures Valid() && counts == old(counts)
      ensures history == old(history)[o.key := old(history)[o.key] + [o]]
    {
      hide Summary, Bump, PolicyAgg.View;
      SummarySnoc(history[o.key], o);
      counts[o.key].Add(o);
      history := history[o.key := history[o.key] + [o]];
    }

    method Record(o: Observation)
      requires Valid()
      modifies this, Repr()
      ensures Valid() && fresh(Repr() - old(Repr()))
      ensures history == Recorded(old(history), o)
    {
      hide Summary, Bump, PolicyAgg.View, Valid;
      ghost var h := history;
      EnsureEntry(o.key);
      assert fresh(counts[o.key]) || counts[o.key] in old(Repr());
      AddTo(o);
      assert history == h[o.key := Of(h, o.key)][o.key := Of(h, o.key) + [o]];
    }

    method RecordAll(os: seq<Observation>)
      requires Valid()
      modifies this, Repr()
      ensures Valid() && fresh(Repr() - old(Repr()))
      ensures history == AllRecorded(old(history), os)
      decreases |os|
    {
      if os != [] {
        RecordAll(os[..|os| - 1]);
        Record(os[|os| - 1]);
      }
    }

    /** The copy made under the lock: new objects, one per entry. */
    method TakeSnapshot() returns (snapshot: map<PolicyKey, PolicyAgg>)
      requires Valid()
      ensures snapshot.Keys == counts.Keys
      ensures forall k :: k in snapshot ==> fresh(snapshot[k]) && snapshot[k].View() == Summary(history[k])
    {
      snapshot := map[];
      var rest := counts.Keys;
      while rest != {}
        invariant rest <= counts.Keys && snapshot.Keys == counts.Keys - rest
        invariant forall k :: k in snapshot ==> fresh(snapshot[k]) && snapshot[k].View() == Summary(history[k])
        decreases rest
      {
        var k :| k in rest;
        var v := counts[k];
        var copy := new PolicyAgg();
        copy.flowsEvaluated := v.flowsEvaluated;
        copy.flowsWouldDeny := v.flowsWouldDeny;
        copy.observedGeneration := v.observedGeneration;
        copy.tuples := v.tuples;
        snapshot := snapshot[k := copy];
        rest := rest - {k};
      }
    }

    method Evict(key: PolicyKey)
      requires Valid()
      modifies this
      ensures Valid() && Repr() <= old(Repr())
      ensures history == old(history) - {key}
    {
      counts := counts - {key};
      history := history - {key};
    }

    /** The patches, one after the other, while verdicts go on being recorded. */
    method PatchAll(keys: seq<PolicyKey>, snapshot: map<PolicyKey, PolicyAgg>, world: World, ghost taken: History)
      returns (published: Published)
      requires Valid()
      requires forall k :: k in keys ==> k in snapshot && k in taken
      requires forall k :: k in snapshot && k in taken ==> snapshot[k] !in Repr() && snapshot[k].View() == Summary(taken[k])
      modifies this, Repr()
      ensures Valid() && fresh(Repr() - old(Repr()))
      ensures (published, history) == FlushFrom(keys, taken, old(history), world, topN)
    {
      hide Summary, Top, AllRecorded, FlushFrom;
      published := [];
      assert keys[0..] == keys;
      ghost var rest := FlushFrom(keys, taken, history, world, topN);
      assert [] + rest.0 == rest.0;
      for i := 0 to |keys|
        invariant Valid() && fresh(Repr() - old(Repr()))
        invariant FlushFrom(keys, taken, old(history), world, topN) == After(published, FlushFrom(keys[i..], taken, history, world, topN))
      {
        var key := keys[i];
        var agg := snapshot[key];
        var offenders := ComputeTopOffenders(agg.tuples, topN);
        var status := Status(agg.observedGeneration, agg.flowsEvaluated, agg.flowsWouldDeny, offenders);
        assert status == StatusOf(Summary(Of(taken, key)), topN);
        FlushStep(keys[i..], taken, history, world, topN);
        assert keys[i..][1..] == keys[i + 1..];
        RecordAll(world.arrivals(key));
        match world.outcome(key) {
          case Cancelled =>
            assert published + [] == published;
            return;
          case NotFound => Evict(key);
          case Failed =>
          case Patched =>
            rest := FlushFrom(keys[i + 1..], taken, history, world, topN);
            assert published + ([(key, status)] + rest.0) == published + [(key, status)] + rest.0;
            published := published + [(key, status)];
        }
      }
      assert keys[|keys|..] == [] && published + [] == published;
      FlushEnd(taken, history, world, topN);
    }

    /** One flush: snapshot, sorted keys, patches. */
    method Flush(world: World) returns (published: Published)
      requires Valid()
      modifies this, Repr()
      ensures Valid() && fresh(Repr() - old(Repr()))
      ensures (published, history) == FlushFrom(SortedSet(KeyLess, old(counts.Keys)), old(history), old(history), world, topN)
    {
      hide Summary, Top, KeyLess, SortBy, SortedSet, FlushFrom, StrictTotalOn, StrictlySorted, Distinct, AllRecorded;
      var snapshot := TakeSnapshot();
      var listed := Enumerate(snapshot.Keys);
      KeyLessTotal(snapshot.Keys);
      SortIgnoresOrder(KeyLess, listed, snapshot.Keys);
      SortedSetCorrect(KeyLess, snapshot.Keys);
      var keys := SortBy(KeyLess, listed);
      published := PatchAll(keys, snapshot, world, history);
    }
  }
}
