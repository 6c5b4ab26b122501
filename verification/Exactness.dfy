/** The generated policy, read by the evaluator, permits exactly what was observed. */
module Exactness {
  import opened Common
  import opened Ordering
  import opened Ipv4
  import opened Labels
  import opened Policies
  import opened Semantics
  import opened Compiler

  // ----- what a record stands for

  datatype Resolution = Workload(labels: LabelMap, ns: string) | Address

  /** A service with a selector, else a pod with labels, else the bare address. */
  function Resolve(data: BrokerData, ip: string): Resolution {
    if data.services(ip).Found? && data.services(ip).value.selector != map[] then
      Workload(data.services(ip).value.selector, data.services(ip).value.ns)
    else if data.pods(ip).Found? && data.pods(ip).value.labels != map[] then
      Workload(data.pods(ip).value.labels, data.pods(ip).value.ns)
    else Address
  }

  /** The peer of the flow is what the record's address resolves to. Labels the API server
      would refuse make a selector nothing matches. */
  predicate PeerIs(res: Resolution, ip: string, flow: Flow, dir: Direction, lookup: Lookup) {
    match res
    case Address => ParseIp(ip).Some? && PeerIp(flow, dir) == ip
    case Workload(labels, ns) =>
      var peer := PeerPod(flow, dir, lookup);
      && peer.Some? && Contains(peer.value.labels, labels)
      && lookup.GetNamespaceLabels(peer.value.ns).Some?
      && HasLabel(lookup.GetNamespaceLabels(peer.value.ns).value, NAMESPACE_NAME_LABEL, ns)
      && ValidLabels(labels) && ValidValue(ns)
  }

  predicate Permits(t: PodTraffic, detail: PodDetail, data: BrokerData, flow: Flow, dir: Direction, lookup: Lookup) {
    match WishOf(t, detail)
    case None => false
    case Some(w) =>
      && w.dir == dir && flow.dstPort == w.port && flow.protocol == w.protocol
      && PeerIs(Resolve(data, w.peer), w.peer, flow, dir, lookup)
  }

  /** The subject of the flow carries the labels of the pod the policy was made for. */
  predicate IsTarget(detail: PodDetail, flow: Flow, dir: Direction, lookup: Lookup) {
    var subject := SubjectPod(flow, dir, lookup);
    && subject.Some? && subject.value.ns == detail.ns
    && ValidLabels(detail.labels) && Contains(subject.value.labels, detail.labels)
  }

  // ----- peers

  lemma MatchLabelsMeaning(wanted: LabelMap, labels: LabelMap)
    ensures SelectorMatches(MatchLabels(wanted), labels) <==> ValidLabels(wanted) && Contains(labels, wanted)
  {
  }

  lemma NamespaceSelectorMeaning(ns: string, labels: LabelMap)
    ensures SelectorMatches(MatchLabels(map[NAMESPACE_NAME_LABEL := ns]), labels) <==>
              ValidValue(ns) && HasLabel(labels, NAMESPACE_NAME_LABEL, ns)
  {
    hide ValidKey, ValidValue;
    var wanted := map[NAMESPACE_NAME_LABEL := ns];
    NamespaceNameLabelValid();
    MatchLabelsMeaning(wanted, labels);
    assert NAMESPACE_NAME_LABEL in wanted;
  }

  lemma WorkloadPeerMeaning(labels: LabelMap, ns: string, ip: string, flow: Flow, dir: Direction, lookup: Lookup)
    ensures PeerAdmits(WorkloadPeer(labels, ns), flow, dir, lookup) <==>
              PeerIs(Workload(labels, ns), ip, flow, dir, lookup)
  {
    hide SelectorMatches, ValidLabels, ValidValue, Contains, HasLabel;
    var peer := PeerPod(flow, dir, lookup);
    if peer.Some? {
      MatchLabelsMeaning(labels, peer.value.labels);
      var nsLabels := lookup.GetNamespaceLabels(peer.value.ns);
      if nsLabels.Some? { NamespaceSelectorMeaning(ns, nsLabels.value); }
    }
  }

  /** The peer entry made for an address admits exactly what the address resolves to. */
  lemma PeerForMeaning(data: BrokerData, ip: string, flow: Flow, dir: Direction, lookup: Lookup)
    ensures PeerAdmits(PeerFor(data, ip), flow, dir, lookup) <==>
              PeerIs(Resolve(data, ip), ip, flow, dir, lookup)
  {
    hide BlockAdmits, ParseIp;
    match Resolve(data, ip)
    case Workload(labels, ns) =>
      assert PeerFor(data, ip) == WorkloadPeer(labels, ns);
      WorkloadPeerMeaning(labels, ns, ip, flow, dir, lookup);
    case Address =>
      assert PeerFor(data, ip) == AddressPeer(ip);
      HostBlockAdmits(ip, PeerIp(flow, dir));
  }

  // ----- rules

  lemma PortAdmitsMade(port: int, protocol: string, flow: Flow, lookup: Lookup)
    ensures PortAdmits(PortOf(port, protocol), flow, lookup) <==> flow.dstPort == port && flow.protocol == protocol
  {
  }

  lemma CanonicalRule(pairs: set<(string, PortSpec)>, data: BrokerData, ip: string)
    requires (forall q :: q in pairs ==> Plain(q.1)) && ip in PeersOf(pairs)
    ensures var r := RuleFor(pairs, data, ip);
      && r.ports != [] && StrictlySorted(PortLess, r.ports)
      && forall p :: p in r.ports <==> (ip, p) in pairs
  {
    hide PeerFor, PortLess, SortedSet;
    var r := RuleFor(pairs, data, ip);
    PortLessTotal(PortsOf(pairs, ip));
    SortedSetCorrect(PortLess, PortsOf(pairs, ip));
    forall p ensures p in r.ports <==> (ip, p) in pairs { assert (ip, p) in pairs ==> (ip, p).1 in PortsOf(pairs, ip); }
    var q :| q in pairs && q.0 == ip;
    assert q == (ip, q.1) && q.1 in r.ports;
  }

  lemma RuleForAdmits(pairs: set<(string, PortSpec)>, data: BrokerData, ip: string, flow: Flow, dir: Direction, lookup: Lookup)
    requires forall q :: q in pairs ==> Plain(q.1)
    requires ip in PeersOf(pairs)
    ensures RuleAdmits(RuleFor(pairs, data, ip), flow, dir, lookup) <==>
            PeerAdmits(PeerFor(data, ip), flow, dir, lookup) && exists p :: (ip, p) in pairs && PortAdmits(p, flow, lookup)
  {
    hide PeerFor, PeerAdmits, PortAdmits, PortLess, SortedSet, PeersOf, PortsOf;
    CanonicalRule(pairs, data, ip);
    var r := RuleFor(pairs, data, ip);
    assert r.peers[0] in r.peers;
  }

  /** The rules made from a set of pairs admit a flow exactly when one pair does. */
  lemma RulesForAdmits(pairs: set<(string, PortSpec)>, data: BrokerData, flow: Flow, dir: Direction, lookup: Lookup)
    requires forall q :: q in pairs ==> Plain(q.1)
    ensures (exists r :: r in RulesFor(pairs, data) && RuleAdmits(r, flow, dir, lookup)) <==>
            exists q :: q in pairs && PeerAdmits(PeerFor(data, q.0), flow, dir, lookup) && PortAdmits(q.1, flow, lookup)
  {
    hide PeerFor, PeerAdmits, PortAdmits, RuleAdmits, SortedSet, RuleFor, StringLess, Plain;
    var peers := SortedSet(StringLess, PeersOf(pairs));
    StringLessTotal(PeersOf(pairs));
    SortedSetCorrect(StringLess, PeersOf(pairs));
    if r :| r in RulesFor(pairs, data) && RuleAdmits(r, flow, dir, lookup) {
      var i :| 0 <= i < |peers| && r == RuleFor(pairs, data, peers[i]);
      assert peers[i] in PeersOf(pairs);
      RuleForAdmits(pairs, data, peers[i], flow, dir, lookup);
      var p :| (peers[i], p) in pairs && PortAdmits(p, flow, lookup);
      assert (peers[i], p).0 == peers[i];
    }
    if q :| q in pairs && PeerAdmits(PeerFor(data, q.0), flow, dir, lookup) && PortAdmits(q.1, flow, lookup) {
      assert q == (q.0, q.1) && q.0 in PeersOf(pairs);
      var i :| 0 <= i < |peers| && peers[i] == q.0;
      RuleForAdmits(pairs, data, q.0, flow, dir, lookup);
      assert RulesFor(pairs, data)[i] == RuleFor(pairs, data, q.0);
    }
  }

  lemma WantedPlain(traffic: seq<PodTraffic>, detail: PodDetail, dir: Direction)
    ensures forall q :: q in Wanted(traffic, detail, dir) ==> Plain(q.1)
  {
  }

  lemma CompiledRules(traffic: seq<PodTraffic>, detail: PodDetail, data: BrokerData, dir: Direction)
    requires !dir.Other?
    ensures RulesOf(Compiled(traffic, detail, data).policy.spec, dir) == RulesFor(Wanted(traffic, detail, dir), data)
  {
    hide RulesFor, Wanted;
    RulesForNothing(data);
  }

  lemma CompiledAdmits(traffic: seq<PodTraffic>, detail: PodDetail, data: BrokerData, flow: Flow, dir: Direction, lookup: Lookup)
    requires !dir.Other?
    ensures Admits(Compiled(traffic, detail, data).policy.spec, flow, dir, lookup) <==>
            exists t :: t in traffic && Permits(t, detail, data, flow, dir, lookup)
  {
    hide PeerFor, PeerAdmits, PortAdmits, RuleAdmits, RulesFor, Compiled, PeerIs, Resolve, WishOf;
    var pairs := Wanted(traffic, detail, dir);
    WantedPlain(traffic, detail, dir);
    CompiledRules(traffic, detail, data, dir);
    RulesForAdmits(pairs, data, flow, dir, lookup);
    forall t | t in traffic && WishOf(t, detail).Some? && WishOf(t, detail).value.dir == dir
      ensures var w := WishOf(t, detail).value; var q := (w.peer, PortOf(w.port, w.protocol));
        q in pairs && (PeerAdmits(PeerFor(data, q.0), flow, dir, lookup) && PortAdmits(q.1, flow, lookup)
                       <==> Permits(t, detail, data, flow, dir, lookup))
    {
      var w := WishOf(t, detail).value;
      PeerForMeaning(data, w.peer, flow, dir, lookup);
      PortAdmitsMade(w.port, w.protocol, flow, lookup);
    }
    if q :| q in pairs && PeerAdmits(PeerFor(data, q.0), flow, dir, lookup) && PortAdmits(q.1, flow, lookup) {
      var t :| t in traffic && WishOf(t, detail).Some? && WishOf(t, detail).value.dir == dir &&
        q == (WishOf(t, detail).value.peer, PortOf(WishOf(t, detail).value.port, WishOf(t, detail).value.protocol));
      assert Permits(t, detail, data, flow, dir, lookup);
    }
  }

  // ----- main results

  /** Allow in a direction exactly when the subject is the target and some record of that
      direction has the same port, the same normalised protocol and a peer that the flow has. */
  lemma GeneratedPolicyIsExact(traffic: seq<PodTraffic>, detail: PodDetail, data: BrokerData, flow: Flow, dir: Direction, lookup: Lookup)
    requires !dir.Other?
    ensures var v := PolicyVerdict(Compiled(traffic, detail, data).policy, flow, dir, lookup);
      var permitted := exists t :: t in traffic && Permits(t, detail, data, flow, dir, lookup);
      && (v == Allow <==> IsTarget(detail, flow, dir, lookup) && permitted)
      && (v.WouldDeny? <==> IsTarget(detail, flow, dir, lookup) && !permitted)
  {
    hide Permits, Admits, SelectorMatches, ValidLabels, Contains;
    var policy := Compiled(traffic, detail, data).policy;
    CompiledAdmits(traffic, detail, data, flow, dir, lookup);
    assert policy.ns == detail.ns && policy.spec.podSelector == MatchLabels(detail.labels);
    var subject := SubjectPod(flow, dir, lookup);
    if subject.Some? { MatchLabelsMeaning(detail.labels, subject.value.labels); }
  }

  predicate AcceptsIn(traffic: seq<PodTraffic>, detail: PodDetail, dir: Direction) {
    exists t :: t in traffic && WishOf(t, detail).Some? && WishOf(t, detail).value.dir == dir
  }

  /** The directions listed are those with an accepted record, and both when there is none. */
  lemma ListedDirections(traffic: seq<PodTraffic>, detail: PodDetail, data: BrokerData, dir: Direction)
    ensures AppliesIn(Compiled(traffic, detail, data).policy.spec, dir) <==>
      && !dir.Other?
      && (AcceptsIn(traffic, detail, dir)
          || (!AcceptsIn(traffic, detail, Ingress) && !AcceptsIn(traffic, detail, Egress)))
    ensures WellFormedTypes(Compiled(traffic, detail, data).policy.spec)
  {
    hide RulesFor, WishOf;
    forall d ensures Wanted(traffic, detail, d) != {} <==> AcceptsIn(traffic, detail, d) {
      if t :| t in traffic && WishOf(t, detail).Some? && WishOf(t, detail).value.dir == d {
        var w := WishOf(t, detail).value;
        assert (w.peer, PortOf(w.port, w.protocol)) in Wanted(traffic, detail, d);
      }
    }
  }

  /** In the evaluator's list of results: an observed record is allowed. */
  lemma ObservedIsAllowed(traffic: seq<PodTraffic>, t: PodTraffic, detail: PodDetail, data: BrokerData, flow: Flow, dir: Direction, lookup: Lookup)
    requires t in traffic && Permits(t, detail, data, flow, dir, lookup) && IsTarget(detail, flow, dir, lookup)
    ensures exists r :: r in Verdicts(flow, Compiled(traffic, detail, data).policy, lookup)
              && r.direction == dir && r.verdict == Allow
  {
    hide Compiled, IsTarget, PeerIs, PolicyVerdict, SubjectPod, ParsePort;
    var policy := Compiled(traffic, detail, data).policy;
    assert WishOf(t, detail).value.dir == dir && !dir.Other?;
    ListedDirections(traffic, detail, data, dir);
    OneVerdictPerDirection(flow, policy, lookup, dir);
    GeneratedPolicyIsExact(traffic, detail, data, flow, dir, lookup);
    var r :| r in Verdicts(flow, policy, lookup) && r.direction == dir;
    assert r == ResultFor(policy, flow, dir, lookup);
  }

  /** In the evaluator's list of results: only an observed record is allowed. */
  lemma AllowedWasObserved(traffic: seq<PodTraffic>, detail: PodDetail, data: BrokerData, flow: Flow, lookup: Lookup, r: Result)
    requires r in Verdicts(flow, Compiled(traffic, detail, data).policy, lookup) && r.verdict == Allow
    ensures !r.direction.Other? && IsTarget(detail, flow, r.direction, lookup)
    ensures exists t :: t in traffic && Permits(t, detail, data, flow, r.direction, lookup)
  {
    hide Compiled, IsTarget, Permits, PolicyVerdict, SubjectPod;
    var policy := Compiled(traffic, detail, data).policy;
    ListedDirections(traffic, detail, data, r.direction);
    EffectiveTypesCorrect(policy.spec);
    GeneratedPolicyIsExact(traffic, detail, data, flow, r.direction, lookup);
  }

  /** Permuting or repeating records leaves the whole generated policy identical. */
  lemma OrderAndRepetitionDoNotMatter(a: seq<PodTraffic>, b: seq<PodTraffic>, detail: PodDetail, data: BrokerData)
    requires forall t :: t in a <==> t in b
    ensures Compiled(a, detail, data) == Compiled(b, detail, data)
  {
    assert Wanted(a, detail, Ingress) == Wanted(b, detail, Ingress);
    assert Wanted(a, detail, Egress) == Wanted(b, detail, Egress);
  }

  /** rules hold one rule per address, in strictly ascending address order; each has the one peer
      of its address and, strictly ascending, the ports asked for it. */
  ghost predicate Canonical(rules: seq<Rule>, addresses: seq<string>, pairs: set<(string, PortSpec)>, data: BrokerData) {
    && |rules| == |addresses|
    && StrictlySorted(StringLess, addresses)
    && (forall ip :: ip in addresses <==> ip in PeersOf(pairs))
    && forall i :: 0 <= i < |rules| ==>
         && rules[i].peers == [PeerFor(data, addresses[i])]
         && rules[i].ports != [] && StrictlySorted(PortLess, rules[i].ports)
         && forall p :: p in rules[i].ports <==> (addresses[i], p) in pairs
  }

  /** The rules of the generated policy are in that one canonical form. */
  lemma CanonicalOrder(traffic: seq<PodTraffic>, detail: PodDetail, data: BrokerData, dir: Direction)
    requires !dir.Other?
    ensures exists addresses ::
      Canonical(RulesOf(Compiled(traffic, detail, data).policy.spec, dir), addresses, Wanted(traffic, detail, dir), data)
  {
    hide PeerFor, PortLess, StringLess, SortedSet, Wanted, PeersOf, PortsOf, Plain, Compiled;
    var pairs := Wanted(traffic, detail, dir);
    var addresses := SortedSet(StringLess, PeersOf(pairs));
    WantedPlain(traffic, detail, dir);
    CompiledRules(traffic, detail, data, dir);
    StringLessTotal(PeersOf(pairs));
    SortedSetCorrect(StringLess, PeersOf(pairs));
    var rules := RulesFor(pairs, data);
    forall i | 0 <= i < |rules|
      ensures rules[i] == RuleFor(pairs, data, addresses[i])
      ensures rules[i].ports != [] && StrictlySorted(PortLess, rules[i].ports)
      ensures forall p :: p in rules[i].ports <==> (addresses[i], p) in pairs
    {
      CanonicalRule(pairs, data, addresses[i]);
    }
    assert Canonical(rules, addresses, pairs, data);
  }
}
