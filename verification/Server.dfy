/** evaluator/pkg/server: which policies a flow is evaluated against, and what is recorded. */
module Server {
  import opened Common
  import opened Policies
  import opened Semantics
  import opened TopOffenders
  import Matcher
  import PolicyStore
  import Aggregator

  // ----- the results of a list of policies

  function Results(policies: seq<Policy>, flow: Flow, lookup: Lookup): seq<Result> {
    if policies == [] then []
    else Results(policies[..|policies| - 1], flow, lookup) + Verdicts(flow, policies[|policies| - 1], lookup)
  }

  function ClusterResults(policies: seq<ClusterPolicy>, flow: Flow, lookup: Lookup): seq<Result> {
    if policies == [] then []
    else ClusterResults(policies[..|policies| - 1], flow, lookup) + ClusterVerdicts(flow, policies[|policies| - 1], lookup)
  }

  /** The policies of the destination's namespace, then of the source's if it is another one. */
  function SelectedPolicies(index: PolicyStore.Index, flow: Flow): seq<Policy> {
    PolicyStore.InNamespace(index, flow.dstNs) +
    if flow.srcNs != "" && flow.srcNs != flow.dstNs then PolicyStore.InNamespace(index, flow.srcNs) else []
  }

  function Evaluated(index: PolicyStore.Index, flow: Flow, lookup: Lookup): seq<Result> {
    Results(SelectedPolicies(index, flow), flow, lookup) + ClusterResults(index.cluster, flow, lookup)
  }

  // ----- recording

  predicate IsApplicable(r: Result) { r.verdict != NotApplicable }

  predicate IsDenied(r: Result) { r.verdict.WouldDeny? }

  function DirectionName(d: Direction): string {
    match d
    case Ingress => "Ingress"
    case Egress => "Egress"
    case Other(name) => name
  }

  function ObservationOf(flow: Flow, r: Result): Aggregator.Observation {
    Aggregator.Observation(
      Aggregator.PolicyKey(r.policyNs, r.policyName),
      Tuple(flow.srcNs + "/" + flow.srcName, flow.dstNs + "/" + flow.dstName, flow.protocol, DirectionName(r.direction), flow.dstPort),
      r.verdict.WouldDeny?, r.generation)
  }

  /** One observation per applicable result, in order. */
  function Observations(flow: Flow, results: seq<Result>): seq<Aggregator.Observation> {
    if results == [] then []
    else
      var last := results[|results| - 1];
      Observations(flow, results[..|results| - 1]) + if IsApplicable(last) then [ObservationOf(flow, last)] else []
  }

  // ----- what is recorded, from the flow and the results alone

  /** The result applies and is of that policy. */
  predicate AppliesTo(r: Result, k: Aggregator.PolicyKey) {
    r.verdict != NotApplicable && r.policyNs == k.ns && r.policyName == k.name
  }

  predicate DeniesBy(r: Result, k: Aggregator.PolicyKey) {
    r.verdict.WouldDeny? && r.policyNs == k.ns && r.policyName == k.name
  }

  /** The tuple names the two pods, the protocol, the direction and the port. */
  predicate NamesFlow(t: Tuple, flow: Flow, dir: Direction) {
    && t.srcPod == flow.srcNs + "/" + flow.srcName && t.dstPod == flow.dstNs + "/" + flow.dstName
    && t.protocol == flow.protocol && t.dstPort == flow.dstPort
    && match dir
       case Ingress => t.direction == "Ingress"
       case Egress => t.direction == "Egress"
       case Other(name) => t.direction == name
  }

  function OfPolicy(k: Aggregator.PolicyKey): Result -> bool { r => AppliesTo(r, k) }

  function DeniedBy(k: Aggregator.PolicyKey): Result -> bool { r => DeniesBy(r, k) }

  function DeniedAs(k: Aggregator.PolicyKey, flow: Flow, t: Tuple): Result -> bool {
    r => DeniesBy(r, k) && NamesFlow(t, flow, r.direction)
  }

  lemma ObservedFields(flow: Flow, r: Result)
    ensures var o := ObservationOf(flow, r);
      && o.key.ns == r.policyNs && o.key.name == r.policyName && o.generation == r.generation
      && (o.wouldDeny <==> r.verdict.WouldDeny?)
    ensures forall t :: NamesFlow(t, flow, r.direction) <==> t == ObservationOf(flow, r).tuple
  {
  }

  /** Every observation is that of an applicable result, and says who, what and whether denied. */
  lemma {:induction false} EveryObservation(flow: Flow, results: seq<Result>, o: Aggregator.Observation)
    requires o in Observations(flow, results)
    ensures exists r :: r in results && AppliesTo(r, o.key) && NamesFlow(o.tuple, flow, r.direction)
                        && (o.wouldDeny <==> r.verdict.WouldDeny?) && o.generation == r.generation
  {
    var front, last := results[..|results| - 1], results[|results| - 1];
    assert results == front + [last];
    if o in Observations(flow, front) {
      EveryObservation(flow, front, o);
    } else {
      ObservedFields(flow, last);
    }
  }

  lemma {:induction false} DeniedTuplesConcat(a: seq<Aggregator.Observation>, b: seq<Aggregator.Observation>)
    ensures Aggregator.DeniedTuples(a + b) == Aggregator.DeniedTuples(a) + Aggregator.DeniedTuples(b)
  {
    if b == [] {
      assert a + b == a;
    } else {
      assert (a + b)[..|a + b| - 1] == a + b[..|b| - 1] && (a + b)[|a + b| - 1] == b[|b| - 1];
      DeniedTuplesConcat(a, b[..|b| - 1]);
    }
  }

  lemma DeniedTuplesOfOne(o: Aggregator.Observation)
    ensures Aggregator.DeniedTuples([o]) == if o.wouldDeny then [o.tuple] else []
    ensures Aggregator.DeniedTuples([]) == []
  {
    assert [o][..0] == [];
  }

  lemma FilterOne(r: Result, p: Result -> bool)
    ensures Filter([r], p) == if p(r) then [r] else []
  {
    assert [r][1..] == [];
  }

  lemma ObservationsSnoc(flow: Flow, results: seq<Result>, r: Result)
    ensures Observations(flow, results + [r]) == Observations(flow, results) + if IsApplicable(r) then [ObservationOf(flow, r)] else []
  {
    assert (results + [r])[..|results|] == results;
  }

  /** The observations of a policy are as many as its applicable results, the denied ones among them
      as many as its denials, and each tuple as often as the flow was denied by it in that direction. */
  lemma {:induction false} ObservationCounts(flow: Flow, results: seq<Result>, k: Aggregator.PolicyKey, t: Tuple)
    ensures var os := Aggregator.OnlyOf(Observations(flow, results), k);
      && |os| == |Filter(results, OfPolicy(k))|
      && |Aggregator.DeniedTuples(os)| == |Filter(results, DeniedBy(k))|
      && multiset(Aggregator.DeniedTuples(os))[t] == |Filter(results, DeniedAs(k, flow, t))|
  {
    hide Observations, Aggregator.OnlyOf, Aggregator.DeniedTuples, Filter, ObservationOf, NamesFlow;
    if results == [] {
      NoObservations(flow, k, t);
    } else {
      var front, r := results[..|results| - 1], results[|results| - 1];
      assert results == front + [r];
      ObservationCounts(flow, front, k, t);
      ObservationsSnoc(flow, front, r);
      FilterConcat(front, [r], OfPolicy(k));
      FilterConcat(front, [r], DeniedBy(k));
      FilterConcat(front, [r], DeniedAs(k, flow, t));
      FilterOne(r, OfPolicy(k));
      FilterOne(r, DeniedBy(k));
      FilterOne(r, DeniedAs(k, flow, t));
      var os, o := Observations(flow, front), ObservationOf(flow, r);
      ObservedFields(flow, r);
      Aggregator.OnlyOfSnoc(os, o, k);
      var mine := Aggregator.OnlyOf(os, k);
      DeniedTuplesConcat(mine, [o]);
      DeniedTuplesOfOne(o);
      assert os + [] == os && mine + [] == mine && Aggregator.DeniedTuples(mine) + [] == Aggregator.DeniedTuples(mine);
    }
  }

  lemma NoObservations(flow: Flow, k: Aggregator.PolicyKey, t: Tuple)
    ensures Observations(flow, []) == [] && Aggregator.OnlyOf([], k) == [] && Aggregator.DeniedTuples([]) == []
    ensures Filter([], OfPolicy(k)) == [] && Filter([], DeniedBy(k)) == [] && Filter([], DeniedAs(k, flow, t)) == []
  {
  }

  /** The counters of a policy gain what the results say: a flow evaluated per applicable result of
      that policy, a denial per denied one, and the tuple of the flow as often as it was denied. */
  ghost predicate Gains(before: Aggregator.History, after: Aggregator.History, flow: Flow, results: seq<Result>, k: Aggregator.PolicyKey) {
    var s, t := Aggregator.Summary(Aggregator.Of(before, k)), Aggregator.Summary(Aggregator.Of(after, k));
    && t.flowsEvaluated == s.flowsEvaluated + |Filter(results, OfPolicy(k))|
    && t.flowsWouldDeny == s.flowsWouldDeny + |Filter(results, DeniedBy(k))|
    && forall x :: Aggregator.CountOf(t.tuples, x) == Aggregator.CountOf(s.tuples, x) + |Filter(results, DeniedAs(k, flow, x))|
  }

  lemma CountersGain(before: Aggregator.History, flow: Flow, results: seq<Result>, k: Aggregator.PolicyKey)
    ensures Gains(before, Aggregator.AllRecorded(before, Observations(flow, results)), flow, results, k)
  {
    hide Observations, Aggregator.OnlyOf, Aggregator.DeniedTuples, Filter, Aggregator.AllRecorded, Aggregator.Summary, Aggregator.CountOf;
    var os := Observations(flow, results);
    var a, b := Aggregator.Of(before, k), Aggregator.OnlyOf(os, k);
    Aggregator.RecordedPerPolicy(before, os, k);
    Aggregator.SummaryIsExact(a);
    Aggregator.SummaryIsExact(a + b);
    DeniedTuplesConcat(a, b);
    assert multiset(Aggregator.DeniedTuples(a) + Aggregator.DeniedTuples(b)) ==
           multiset(Aggregator.DeniedTuples(a)) + multiset(Aggregator.DeniedTuples(b));
    ObservationCounts(flow, results, k, Tuple("", "", "", "", 0));
    forall x { ObservationCounts(flow, results, k, x); }
  }

  /** As many observations are denials as the server counts. */
  lemma {:induction false} DenialsRecorded(flow: Flow, results: seq<Result>)
    ensures |Aggregator.DeniedTuples(Observations(flow, results))| == |Filter(results, IsDenied)|
  {
    hide Observations, Aggregator.DeniedTuples, Filter, ObservationOf;
    if results == [] {
      NoObservations(flow, Aggregator.PolicyKey("", ""), Tuple("", "", "", "", 0));
      FilterNone(results, IsDenied);
    } else {
      var front, r := results[..|results| - 1], results[|results| - 1];
      assert results == front + [r];
      DenialsRecorded(flow, front);
      ObservationsSnoc(flow, front, r);
      FilterConcat(front, [r], IsDenied);
      FilterOne(r, IsDenied);
      ObservedFields(flow, r);
      DeniedTuplesConcat(Observations(flow, front), [ObservationOf(flow, r)]);
      DeniedTuplesOfOne(ObservationOf(flow, r));
      assert Observations(flow, front) + [] == Observations(flow, front);
    }
  }

  class Evaluator {
    const store: PolicyStore.Store
    const agg: Aggregator.Aggregator
    var denied: nat

    constructor (store: PolicyStore.Store, agg: Aggregator.Aggregator)
      ensures this.store == store && this.agg == agg && denied == 0
    {
      this.store, this.agg, denied := store, agg, 0;
    }

    /** handleEvaluate, after decoding. */
    method HandleEvaluate(flow: Flow, lookup: Lookup) returns (results: seq<Result>)
      requires store.Valid() && agg.Valid()
      modifies this, agg, agg.Repr()
      ensures results == Evaluated(old(store.View()), flow, lookup)
      ensures agg.Valid() && fresh(agg.Repr() - old(agg.Repr()))
      ensures agg.history == Aggregator.AllRecorded(old(agg.history), Observations(flow, results))
      ensures forall k :: Gains(old(agg.history), agg.history, flow, results, k)
      ensures denied == old(denied) + |Filter(results, IsDenied)|
      ensures denied == old(denied) + |Aggregator.DeniedTuples(Observations(flow, results))|
    {
      hide Observations, Aggregator.AllRecorded, Filter, Gains;
      ghost var before := agg.history;
      results := Collect(flow, lookup);
      RecordResults(flow, results);
      forall k ensures Gains(before, agg.history, flow, results, k) { CountersGain(before, flow, results, k); }
      DenialsRecorded(flow, results);
    }

    method Collect(flow: Flow, lookup: Lookup) returns (results: seq<Result>)
      requires store.Valid()
      ensures results == Evaluated(store.View(), flow, lookup)
    {
      hide Verdicts, ClusterVerdicts, Results, ClusterResults;
      var inDst := store.PoliciesInNamespace(flow.dstNs);
      var policies := inDst[..];
      if flow.srcNs != "" && flow.srcNs != flow.dstNs {
        var inSrc := store.PoliciesInNamespace(flow.srcNs);
        policies := policies + inSrc[..];
      }
      assert policies == SelectedPolicies(store.View(), flow);
      results := MatchAll(policies, flow, lookup);
      var cluster := store.ClusterPolicies();
      var more := MatchAllCluster(cluster[..], flow, lookup);
      results := results + more;
    }

    static method MatchAll(policies: seq<Policy>, flow: Flow, lookup: Lookup) returns (results: seq<Result>)
      ensures results == Results(policies, flow, lookup)
    {
      hide Verdicts;
      results := [];
      for i := 0 to |policies|
        invariant results == Results(policies[..i], flow, lookup)
      {
        assert policies[..i + 1][..i] == policies[..i];
        var rs := Matcher.Match(flow, policies[i], lookup);
        results := results + rs;
      }
      assert policies[..|policies|] == policies;
    }

    static method MatchAllCluster(policies: seq<ClusterPolicy>, flow: Flow, lookup: Lookup) returns (results: seq<Result>)
      ensures results == ClusterResults(policies, flow, lookup)
    {
      hide ClusterVerdicts;
      results := [];
      for i := 0 to |policies|
        invariant results == ClusterResults(policies[..i], flow, lookup)
      {
        assert policies[..i + 1][..i] == policies[..i];
        var rs := Matcher.MatchCluster(flow, policies[i], lookup);
        results := results + rs;
      }
      assert policies[..|policies|] == policies;
    }

    method RecordResults(flow: Flow, results: seq<Result>)
      requires agg.Valid()
      modifies this, agg, agg.Repr()
      ensures agg.Valid() && fresh(agg.Repr() - old(agg.Repr()))
      ensures agg.history == Aggregator.AllRecorded(old(agg.history), Observations(flow, results))
      ensures denied == old(denied) + |Filter(results, IsDenied)|
    {
      hide Filter, Aggregator.Recorded, Aggregator.AllRecorded, Observations;
      NothingRecorded(agg.history, flow);
      for i := 0 to |results|
        invariant agg.Valid() && fresh(agg.Repr() - old(agg.Repr()))
        invariant agg.history == Aggregator.AllRecorded(old(agg.history), Observations(flow, results[..i]))
        invariant denied == old(denied) + |Filter(results[..i], IsDenied)|
      {
        var r := results[i];
        FilterSnoc(results, i, IsDenied);
        OneMoreRecorded(old(agg.history), flow, results, i);
        if r.verdict == NotApplicable { continue; }
        agg.Record(ObservationOf(flow, r));
        if r.verdict.WouldDeny? { denied := denied + 1; }
      }
      assert results[..|results|] == results;
    }
  }

  lemma NothingRecorded(h: Aggregator.History, flow: Flow)
    ensures Aggregator.AllRecorded(h, Observations(flow, [])) == h
    ensures Filter<Result>([], IsDenied) == []
  {
  }

  lemma OneMoreRecorded(h: Aggregator.History, flow: Flow, results: seq<Result>, i: nat)
    requires i < |results|
    ensures var before := Aggregator.AllRecorded(h, Observations(flow, results[..i]));
      Aggregator.AllRecorded(h, Observations(flow, results[..i + 1])) ==
        if IsApplicable(results[i]) then Aggregator.Recorded(before, ObservationOf(flow, results[i])) else before
  {
    assert results[..i + 1][..i] == results[..i];
    var before, after := Observations(flow, results[..i]), Observations(flow, results[..i + 1]);
    if IsApplicable(results[i]) {
      assert after[..|after| - 1] == before;
    } else {
      assert after == before;
    }
  }

  // ----- the index loses no verdict

  /** The results of every stored namespaced policy, namespace by namespace in some order. */
  function AllResults(index: PolicyStore.Index, order: seq<string>, flow: Flow, lookup: Lookup): seq<Result> {
    if order == [] then []
    else AllResults(index, order[..|order| - 1], flow, lookup) +
         Results(PolicyStore.InNamespace(index, order[|order| - 1]), flow, lookup)
  }

  function Applicable(rs: seq<Result>): seq<Result> { Filter(rs, IsApplicable) }

  lemma {:induction false} SilentPolicies(policies: seq<Policy>, ns: string, flow: Flow, lookup: Lookup)
    requires lookup.Valid() && forall p :: p in policies ==> p.ns == ns
    requires ns != flow.dstNs && (ns != flow.srcNs || ns == "")
    ensures Applicable(Results(policies, flow, lookup)) == []
  {
    if policies != [] {
      var front, p := policies[..|policies| - 1], policies[|policies| - 1];
      assert p in policies;
      SilentPolicies(front, ns, flow, lookup);
      FilterConcat(Results(front, flow, lookup), Verdicts(flow, p, lookup), IsApplicable);
      SilentPolicy(p, flow, lookup);
    }
  }

  /** A policy of a namespace that is neither the source's nor the destination's never applies. */
  lemma SilentPolicy(p: Policy, flow: Flow, lookup: Lookup)
    requires lookup.Valid()
    requires p.ns != flow.dstNs && (p.ns != flow.srcNs || p.ns == "")
    ensures Applicable(Verdicts(flow, p, lookup)) == []
  {
    hide EffectiveTypes;
    forall dir ensures PolicyVerdict(p, flow, dir, lookup) == NotApplicable {
      if SubjectPod(flow, dir, lookup).Some? {
        match dir
        case Ingress => lookup.PodFound(flow.dstNs, flow.dstName);
        case Egress => lookup.PodFound(flow.srcNs, flow.srcName);
        case Other(_) =>
      }
    }
    forall r | r in Verdicts(flow, p, lookup) ensures !IsApplicable(r) { }
    FilterNone(Verdicts(flow, p, lookup), IsApplicable);
  }

  function NamespaceShare(index: PolicyStore.Index, ns: string, flow: Flow, lookup: Lookup): multiset<Result> {
    multiset(Applicable(Results(PolicyStore.InNamespace(index, ns), flow, lookup)))
  }

  predicate Concerned(ns: string, flow: Flow) {
    ns == flow.dstNs || (ns == flow.srcNs && ns != "")
  }

  lemma OneMoreNamespace(index: PolicyStore.Index, order: seq<string>, flow: Flow, lookup: Lookup)
    requires lookup.Valid() && PolicyStore.WellKept(index) && order != []
    ensures var ns := order[|order| - 1];
      multiset(Applicable(AllResults(index, order, flow, lookup))) ==
      multiset(Applicable(AllResults(index, order[..|order| - 1], flow, lookup))) +
      if Concerned(ns, flow) then NamespaceShare(index, ns, flow, lookup) else multiset{}
  {
    hide Results, Filter;
    var front, ns := order[..|order| - 1], order[|order| - 1];
    var policies := PolicyStore.InNamespace(index, ns);
    FilterConcat(AllResults(index, front, flow, lookup), Results(policies, flow, lookup), IsApplicable);
    if !Concerned(ns, flow) { SilentPolicies(policies, ns, flow, lookup); }
  }

  lemma {:induction false} OrderSum(index: PolicyStore.Index, order: seq<string>, flow: Flow, lookup: Lookup)
    requires lookup.Valid() && PolicyStore.WellKept(index) && Distinct(order)
    ensures multiset(Applicable(AllResults(index, order, flow, lookup))) ==
      (if flow.dstNs in order then NamespaceShare(index, flow.dstNs, flow, lookup) else multiset{}) +
      (if flow.srcNs in order && flow.srcNs != "" && flow.srcNs != flow.dstNs
       then NamespaceShare(index, flow.srcNs, flow, lookup) else multiset{})
  {
    hide Results, NamespaceShare, Applicable, PolicyStore.WellKept;
    if order == [] {
      NothingApplicable();
    } else {
      hide AllResults;
      var front, ns := order[..|order| - 1], order[|order| - 1];
      assert order == front + [ns];
      OrderSum(index, front, flow, lookup);
      OneMoreNamespace(index, order, flow, lookup);
    }
  }

  lemma NothingApplicable()
    ensures Applicable([]) == []
  {
  }

  lemma {:induction false} ResultsConcat(a: seq<Policy>, b: seq<Policy>, flow: Flow, lookup: Lookup)
    ensures Results(a + b, flow, lookup) == Results(a, flow, lookup) + Results(b, flow, lookup)
  {
    hide Verdicts;
    if b == [] {
      assert a + b == a;
    } else {
      assert (a + b)[..|a + b| - 1] == a + b[..|b| - 1] && (a + b)[|a + b| - 1] == b[|b| - 1];
      ResultsConcat(a, b[..|b| - 1], flow, lookup);
    }
  }

  /** The applicable results the server collects are, as a multiset, those of evaluating the flow
      against every stored namespaced policy and every cluster policy. */
  lemma IndexLosesNoVerdict(index: PolicyStore.Index, order: seq<string>, flow: Flow, lookup: Lookup)
    requires lookup.Valid() && PolicyStore.WellKept(index)
    requires Distinct(order) && forall ns :: ns in order <==> ns in index.policies
    ensures multiset(Applicable(Evaluated(index, flow, lookup))) ==
            multiset(Applicable(AllResults(index, order, flow, lookup) + ClusterResults(index.cluster, flow, lookup)))
  {
    hide Results, ClusterResults, AllResults;
    var dst := PolicyStore.InNamespace(index, flow.dstNs);
    var src := if flow.srcNs != "" && flow.srcNs != flow.dstNs then PolicyStore.InNamespace(index, flow.srcNs) else [];
    var cs := ClusterResults(index.cluster, flow, lookup);
    var every := AllResults(index, order, flow, lookup);
    OrderSum(index, order, flow, lookup);
    ResultsConcat(dst, src, flow, lookup);
    FilterConcat(Results(dst, flow, lookup), Results(src, flow, lookup), IsApplicable);
    FilterConcat(Results(dst + src, flow, lookup), cs, IsApplicable);
    FilterConcat(every, cs, IsApplicable);
    ResultsOfNothing(flow, lookup);
  }

  lemma ResultsOfNothing(flow: Flow, lookup: Lookup)
    ensures Applicable(Results([], flow, lookup)) == []
  {
  }

  /** And no policy is evaluated twice. */
  lemma NoPolicyTwice(index: PolicyStore.Index, flow: Flow)
    requires PolicyStore.WellKept(index)
    ensures var ps := SelectedPolicies(index, flow);
      forall i, j :: 0 <= i < j < |ps| ==> ps[i].ns != ps[j].ns || ps[i].name != ps[j].name
  {
    var dst, src := PolicyStore.InNamespace(index, flow.dstNs), PolicyStore.InNamespace(index, flow.srcNs);
    assert forall p :: p in dst ==> p.ns == flow.dstNs;
    assert forall p :: p in src ==> p.ns == flow.srcNs;
    assert PolicyStore.UniqueNames(dst, PolicyStore.PolicyName) && PolicyStore.UniqueNames(src, PolicyStore.PolicyName);
  }
}
