/** evaluator/pkg/matcher: the loops that evaluate a flow against a policy,
    each proved to compute what Semantics says. */
module Matcher {
  import Text
  import opened Common
  import opened Labels
  import opened Ipv4
  import opened Policies
  import opened Semantics

  method IpBlockMatches(ip: string, block: IpBlock) returns (r: bool)
    ensures r == BlockAdmits(block, ip)
  {
    hide InNetwork;
    if ip == "" {
      assert Text.Split(ip, '.') == [[]];
      return false;
    }
    var addr := ParseIp(ip);
    if addr.None? { return false; }
    var allow := ParseCidr(block.cidr);
    if allow.None? || !InNetwork(allow.value, addr.value) { return false; }
    for i := 0 to |block.except|
      invariant forall j :: 0 <= j < i ==> !InCidr(block.except[j], addr.value)
    {
      var ex := ParseCidr(block.except[i]);
      if ex.Some? && InNetwork(ex.value, addr.value) {
        assert block.except[i] in block.except && InCidr(block.except[i], addr.value);
        return false;
      }
    }
    return true;
  }

  method PeerEntryMatches(peer: Option<Pod>, flow: Flow, dir: Direction, p: Peer, lookup: Lookup) returns (r: bool)
    requires peer == PeerPod(flow, dir, lookup)
    ensures r == PeerAdmits(p, flow, dir, lookup)
  {
    if p.ipBlock.Some? {
      r := IpBlockMatches(PeerIp(flow, dir), p.ipBlock.value);
      return;
    }
    if peer.None? { return false; }
    if p.namespaceSelector.Some? {
      var nsLabels := lookup.GetNamespaceLabels(peer.value.ns);
      if nsLabels.None? { return false; }
      if !SelectorMatches(p.namespaceSelector.value, nsLabels.value) { return false; }
    } else {
      var subjectNs := match dir case Ingress => flow.dstNs case Egress => flow.srcNs case Other(_) => "";
      if peer.value.ns != subjectNs { return false; }
    }
    if p.podSelector.Some? {
      if !SelectorMatches(p.podSelector.value, peer.value.labels) { return false; }
    }
    return true;
  }

  method PeerListMatches(flow: Flow, dir: Direction, peers: seq<Peer>, lookup: Lookup) returns (r: bool)
    ensures r == (peers == [] || exists p :: p in peers && PeerAdmits(p, flow, dir, lookup))
  {
    if |peers| == 0 { return true; }
    var peerObj := PeerPod(flow, dir, lookup);
    for i := 0 to |peers|
      invariant forall j :: 0 <= j < i ==> !PeerAdmits(peers[j], flow, dir, lookup)
    {
      var matches := PeerEntryMatches(peerObj, flow, dir, peers[i], lookup);
      if matches { return true; }
    }
    return false;
  }

  method NamedPortMatches(name: string, protocol: string, observed: int, pod: Option<Pod>) returns (r: bool)
    ensures r == (pod.Some? && name != "" && Declares(pod.value, name, protocol, observed))
  {
    if pod.None? || name == "" { return false; }
    var containers := pod.value.containers;
    for i := 0 to |containers|
      invariant forall a, cp: ContainerPort :: 0 <= a < i && cp in containers[a] && cp.name == name && cp.number == observed ==>
                  (if cp.protocol == "" then "TCP" else cp.protocol) != protocol
    {
      var ports := containers[i];
      for j := 0 to |ports|
        invariant forall b :: 0 <= b < j && ports[b].name == name && ports[b].number == observed ==>
                    (if ports[b].protocol == "" then "TCP" else ports[b].protocol) != protocol
      {
        var cp := ports[j];
        if cp.name != name { continue; }
        var cpProto := cp.protocol;
        if cpProto == "" { cpProto := "TCP"; }
        if cpProto != protocol { continue; }
        if cp.number == observed {
          assert containers[i] in containers && cp in containers[i];
          return true;
        }
      }
    }
    return false;
  }

  method PortEntryMatches(flow: Flow, p: PortSpec, dstPod: Option<Pod>, ghost lookup: Lookup) returns (r: bool)
    requires dstPod == lookup.GetPod(flow.dstNs, flow.dstName)
    ensures r == PortAdmits(p, flow, lookup)
  {
    var wantProto := "TCP";
    if p.protocol.Some? { wantProto := p.protocol.value; }
    if wantProto != flow.protocol { return false; }
    if p.port.None? { return true; }
    if p.port.value.Number? {
      var port := p.port.value.n;
      if p.endPort.Some? { return flow.dstPort >= port && flow.dstPort <= p.endPort.value; }
      return flow.dstPort == port;
    }
    r := NamedPortMatches(p.port.value.name, wantProto, flow.dstPort, dstPod);
  }

  method PortsMatch(flow: Flow, ports: seq<PortSpec>, dstPod: Option<Pod>, ghost lookup: Lookup) returns (r: bool)
    requires dstPod == lookup.GetPod(flow.dstNs, flow.dstName)
    ensures r == (ports == [] || exists p :: p in ports && PortAdmits(p, flow, lookup))
  {
    if |ports| == 0 { return true; }
    for i := 0 to |ports|
      invariant forall j :: 0 <= j < i ==> !PortAdmits(ports[j], flow, lookup)
    {
      var matches := PortEntryMatches(flow, ports[i], dstPod, lookup);
      if matches { return true; }
    }
    return false;
  }

  /** evaluateRules and evaluateRulesCluster, which differ only in where the rules sit. */
  method EvaluateRules(flow: Flow, spec: Spec, dir: Direction, lookup: Lookup) returns (v: Verdict)
    ensures v == RulesVerdict(spec, flow, dir, lookup)
  {
    var portPod := lookup.GetPod(flow.dstNs, flow.dstName);
    if dir.Other? { return WouldDeny(UnknownDirection); }
    var rules := RulesOf(spec, dir);
    if |rules| == 0 { return WouldDeny(NoRules(dir)); }
    for i := 0 to |rules|
      invariant forall j :: 0 <= j < i ==> !RuleAdmits(rules[j], flow, dir, lookup)
    {
      var peerOk := PeerListMatches(flow, dir, rules[i].peers, lookup);
      var portOk := PortsMatch(flow, rules[i].ports, portPod, lookup);
      if peerOk && portOk {
        assert rules[i] in RulesOf(spec, dir) && RuleAdmits(rules[i], flow, dir, lookup);
        return Allow;
      }
    }
    return WouldDeny(NoRuleMatched(dir));
  }

  method DedupPolicyTypes(types: seq<Direction>) returns (out: seq<Direction>)
    ensures out == Dedup(types)
  {
    if |types| <= 1 {
      assert |types| == 1 ==> types[..0] == [] && types == [types[0]];
      return types;
    }
    var sawIngress, sawEgress := false, false;
    out := [];
    for i := 0 to |types|
      invariant out == Dedup(types[..i])
      invariant sawIngress == (Ingress in types[..i]) && sawEgress == (Egress in types[..i])
    {
      assert types[..i + 1][..i] == types[..i] && types[..i + 1] == types[..i] + [types[i]];
      var t := types[i];
      match t {
        case Ingress =>
          if sawIngress { continue; }
          sawIngress := true;
        case Egress =>
          if sawEgress { continue; }
          sawEgress := true;
        case Other(_) =>
      }
      out := out + [t];
    }
    assert types[..|types|] == types;
  }

  method EffectivePolicyTypes(spec: Spec) returns (types: seq<Direction>)
    ensures types == EffectiveTypes(spec)
  {
    if |spec.policyTypes| > 0 {
      types := DedupPolicyTypes(spec.policyTypes);
      return;
    }
    types := [Ingress];
    if |spec.egress| > 0 { types := types + [Egress]; }
  }

  method Match(flow: Flow, policy: Policy, lookup: Lookup) returns (results: seq<Result>)
    ensures results == Verdicts(flow, policy, lookup)
  {
    results := [];
    var types := EffectivePolicyTypes(policy.spec);
    for i := 0 to |types|
      invariant |results| == i
      invariant forall j :: 0 <= j < i ==> results[j] == ResultFor(policy, flow, types[j], lookup)
    {
      var dir := types[i];
      var base := Result(policy.ns, policy.name, policy.uid, policy.generation, dir, NotApplicable);
      var subject := SubjectPod(flow, dir, lookup);
      if subject.None? {
        results := results + [base];
        continue;
      }
      if subject.value.ns != policy.ns {
        results := results + [base];
        continue;
      }
      if !SelectorMatches(policy.spec.podSelector, subject.value.labels) {
        results := results + [base];
        continue;
      }
      var verdict := EvaluateRules(flow, policy.spec, dir, lookup);
      results := results + [base.(verdict := verdict)];
    }
  }

  method MatchCluster(flow: Flow, policy: ClusterPolicy, lookup: Lookup) returns (results: seq<Result>)
    ensures results == ClusterVerdicts(flow, policy, lookup)
  {
    results := [];
    var types := EffectivePolicyTypes(policy.spec);
    for i := 0 to |types|
      invariant |results| == i
      invariant forall j :: 0 <= j < i ==> results[j] == ClusterResultFor(policy, flow, types[j], lookup)
    {
      var dir := types[i];
      var base := Result("", policy.name, policy.uid, policy.generation, dir, NotApplicable);
      var subject := SubjectPod(flow, dir, lookup);
      if subject.None? {
        results := results + [base];
        continue;
      }
      if policy.namespaceSelector.Some? {
        var nsLabels := lookup.GetNamespaceLabels(subject.value.ns);
        if nsLabels.None? || !SelectorMatches(policy.namespaceSelector.value, nsLabels.value) {
          results := results + [base];
          continue;
        }
      }
      if !SelectorMatches(policy.spec.podSelector, subject.value.labels) {
        results := results + [base];
        continue;
      }
      var verdict := EvaluateRules(flow, policy.spec, dir, lookup);
      results := results + [base.(verdict := verdict)];
    }
  }
}
