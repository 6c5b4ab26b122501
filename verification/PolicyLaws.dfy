/** Laws that tie the parts of a policy to each other and to the pods and ports themselves:
    operators of selectors, forms of peers, forms of ports, and reasons for denials. */
module PolicyLaws {
  import opened Common
  import opened Labels
  import opened Policies
  import opened Semantics

  // ----- pod selectors, in result lists

  function Selecting(p: Policy, sel: LabelSelector): Policy { p.(spec := p.spec.(podSelector := sel)) }

  lemma VerdictOfSelector(flow: Flow, p: Policy, sel: LabelSelector, lookup: Lookup, dir: Direction)
    ensures var subject := SubjectPod(flow, dir, lookup);
      PolicyVerdict(Selecting(p, sel), flow, dir, lookup) ==
        if subject.Some? && subject.value.ns == p.ns && SelectorMatches(sel, subject.value.labels)
        then RulesVerdict(p.spec, flow, dir, lookup) else NotApplicable
  {
    hide SelectorMatches, PeerAdmits, PortAdmits;
  }

  lemma SameTypes(p: Policy, sel: LabelSelector)
    ensures EffectiveTypes(Selecting(p, sel).spec) == EffectiveTypes(p.spec)
  {
  }

  lemma RulesApply(spec: Spec, flow: Flow, dir: Direction, lookup: Lookup)
    ensures RulesVerdict(spec, flow, dir, lookup) != NotApplicable
  {
  }

  /** Result r is the i-th result of the policies that select by one of the values as a match label:
      of those that apply, if any does, and of none otherwise. */
  ghost predicate IsResultByValue(r: Result, i: nat, flow: Flow, p: Policy, k: string, vs: seq<string>, lookup: Lookup) {
    && (forall v :: v in vs ==>
          var one := Verdicts(flow, Selecting(p, MatchLabels(map[k := v])), lookup);
          i < |one| && one[i].direction == r.direction && (one[i].verdict != NotApplicable ==> one[i].verdict == r.verdict))
    && (r.verdict != NotApplicable ==>
          exists v :: v in vs &&
            var one := Verdicts(flow, Selecting(p, MatchLabels(map[k := v])), lookup);
            i < |one| && one[i].verdict == r.verdict)
  }

  /** A policy that selects pods by In reports in each direction what the policies that select them
      by one of its values report. */
  lemma InSelectsByValue(flow: Flow, p: Policy, k: string, vs: seq<string>, lookup: Lookup)
    requires ValidKey(k) && vs != [] && forall v :: v in vs ==> ValidValue(v)
    ensures var rs := Verdicts(flow, Selecting(p, In(k, vs)), lookup);
      forall i :: 0 <= i < |rs| ==> IsResultByValue(rs[i], i, flow, p, k, vs, lookup)
  {
    hide ValidKey, ValidValue, SelectorMatches, PolicyVerdict, RulesVerdict, EffectiveTypes;
    var rs := Verdicts(flow, Selecting(p, In(k, vs)), lookup);
    forall sel { SameTypes(p, sel); }
    forall i | 0 <= i < |rs| ensures IsResultByValue(rs[i], i, flow, p, k, vs, lookup) {
      InVerdict(flow, p, k, vs, lookup, rs[i].direction);
    }
  }

  lemma InVerdict(flow: Flow, p: Policy, k: string, vs: seq<string>, lookup: Lookup, dir: Direction)
    requires ValidKey(k) && vs != [] && forall v :: v in vs ==> ValidValue(v)
    ensures var v0 := PolicyVerdict(Selecting(p, In(k, vs)), flow, dir, lookup);
      && (forall v :: v in vs ==>
            var v1 := PolicyVerdict(Selecting(p, MatchLabels(map[k := v])), flow, dir, lookup);
            v1 != NotApplicable ==> v1 == v0)
      && (v0 != NotApplicable ==>
            exists v :: v in vs && PolicyVerdict(Selecting(p, MatchLabels(map[k := v])), flow, dir, lookup) == v0)
  {
    hide ValidKey, ValidValue, SelectorMatches, PolicyVerdict, RulesVerdict, Selecting;
    VerdictOfSelector(flow, p, In(k, vs), lookup, dir);
    forall v { VerdictOfSelector(flow, p, MatchLabels(map[k := v]), lookup, dir); }
    var subject := SubjectPod(flow, dir, lookup);
    if subject.Some? { InIsSomeLabel(k, vs, subject.value.labels); }
  }

  /** Selecting by NotIn is the complement among the pods of the policy's namespace: of the two
      policies exactly one applies to such a pod, and with the same verdict. */
  lemma NotInSelectsTheOthers(flow: Flow, p: Policy, k: string, vs: seq<string>, lookup: Lookup)
    requires ValidKey(k) && vs != [] && forall v :: v in vs ==> ValidValue(v)
    ensures var ins, outs := Verdicts(flow, Selecting(p, In(k, vs)), lookup), Verdicts(flow, Selecting(p, NotIn(k, vs)), lookup);
      && |ins| == |outs|
      && forall i :: 0 <= i < |ins| ==>
           var subject := SubjectPod(flow, ins[i].direction, lookup);
           && ins[i].direction == outs[i].direction
           && if subject.Some? && subject.value.ns == p.ns
              then (ins[i].verdict == NotApplicable) != (outs[i].verdict == NotApplicable)
              else ins[i].verdict == outs[i].verdict == NotApplicable
  {
    hide ValidKey, ValidValue, SelectorMatches, PolicyVerdict, RulesVerdict, EffectiveTypes;
    SameTypes(p, In(k, vs));
    SameTypes(p, NotIn(k, vs));
    forall dir
      ensures var subject := SubjectPod(flow, dir, lookup);
        var a, b := PolicyVerdict(Selecting(p, In(k, vs)), flow, dir, lookup), PolicyVerdict(Selecting(p, NotIn(k, vs)), flow, dir, lookup);
        if subject.Some? && subject.value.ns == p.ns then (a == NotApplicable) != (b == NotApplicable) else a == b == NotApplicable
    {
      VerdictOfSelector(flow, p, In(k, vs), lookup, dir);
      VerdictOfSelector(flow, p, NotIn(k, vs), lookup, dir);
      RulesApply(p.spec, flow, dir, lookup);
      var subject := SubjectPod(flow, dir, lookup);
      if subject.Some? { NotInIsNotIn(k, vs, subject.value.labels); }
    }
  }

  // ----- ports

  /** A range admits what one of its numbers does. */
  lemma RangeIsItsNumbers(n: int, e: int, protocol: Option<string>, flow: Flow, lookup: Lookup)
    ensures PortAdmits(PortSpec(Some(Number(n)), Some(e), protocol), flow, lookup) <==>
              exists m :: n <= m <= e && PortAdmits(PortSpec(Some(Number(m)), None, protocol), flow, lookup)
  {
    if n <= flow.dstPort <= e {
      assert PortAdmits(PortSpec(Some(Number(flow.dstPort)), None, protocol), flow, lookup) <==>
             PortAdmits(PortSpec(Some(Number(n)), Some(e), protocol), flow, lookup);
    }
  }

  /** A number with a protocol admits that port under that protocol; no protocol means TCP; no port
      means every number. */
  lemma PortForms(m: int, protocol: string, p: PortSpec, flow: Flow, lookup: Lookup)
    ensures PortAdmits(PortSpec(Some(Number(m)), None, Some(protocol)), flow, lookup) <==> flow.dstPort == m && flow.protocol == protocol
    ensures p.protocol == None ==> (PortAdmits(p, flow, lookup) <==> PortAdmits(p.(protocol := Some("TCP")), flow, lookup))
    ensures p.port == None ==>
      (PortAdmits(p, flow, lookup) <==> PortAdmits(PortSpec(Some(Number(flow.dstPort)), None, p.protocol), flow, lookup))
  {
  }

  /** The container ports of a pod that go by a name under a protocol, TCP if it says none. */
  predicate Named(pod: Pod, cp: ContainerPort, name: string, protocol: string) {
    && (exists c :: c in pod.containers && cp in c)
    && cp.name == name
    && (if cp.protocol == "" then protocol == "TCP" else cp.protocol == protocol)
  }

  /** A name admits what the number of one of the destination pod's ports of that name does. */
  lemma NameIsItsNumbers(name: string, endPort: Option<int>, protocol: Option<string>, flow: Flow, lookup: Lookup)
    ensures var pod := lookup.GetPod(flow.dstNs, flow.dstName);
      PortAdmits(PortSpec(Some(Name(name)), endPort, protocol), flow, lookup) <==>
        name != "" && pod.Some? &&
        exists cp :: Named(pod.value, cp, name, protocol.GetOr("TCP"))
                     && PortAdmits(PortSpec(Some(Number(cp.number)), None, protocol), flow, lookup)
  {
    var pod := lookup.GetPod(flow.dstNs, flow.dstName);
    var pr := protocol.GetOr("TCP");
    if pod.Some? && Declares(pod.value, name, pr, flow.dstPort) {
      var c, cp :| c in pod.value.containers && cp in c && cp.name == name
        && (if cp.protocol == "" then "TCP" else cp.protocol) == pr && cp.number == flow.dstPort;
      assert Named(pod.value, cp, name, pr);
    }
    if cp :| pod.Some? && Named(pod.value, cp, name, pr) && PortAdmits(PortSpec(Some(Number(cp.number)), None, protocol), flow, lookup) {
      var c :| c in pod.value.containers && cp in c;
    }
  }

  // ----- peers

  const EVERYTHING := LabelSelector(map[], [])

  lemma EverythingMatches(labels: LabelMap)
    ensures SelectorMatches(EVERYTHING, labels)
  {
  }

  /** For a selected subject, a peer without a namespace selector is a pod of the policy's own
      namespace, and if there is a pod selector, one that it matches. */
  lemma OwnNamespacePeer(policy: Policy, pods: Option<LabelSelector>, flow: Flow, dir: Direction, lookup: Lookup)
    requires lookup.Valid() && Selects(policy, flow, dir, lookup)
    ensures PeerAdmits(Peer(pods, None, None), flow, dir, lookup) <==>
      var peer := if dir == Ingress then lookup.GetPod(flow.srcNs, flow.srcName) else lookup.GetPod(flow.dstNs, flow.dstName);
      && peer.Some? && peer.value.ns == policy.ns
      && (pods.Some? ==> SelectorMatches(pods.value, peer.value.labels))
  {
    hide SelectorMatches;
    match dir
    case Ingress => lookup.PodFound(flow.dstNs, flow.dstName);
    case Egress => lookup.PodFound(flow.srcNs, flow.srcName);
    case Other(_) =>
  }

  /** A pod selector and a namespace selector together are met by the peers that meet both; no pod
      selector means all pods; no namespace selector means the subject's namespace. */
  lemma PeerSelectorsCombine(pods: LabelSelector, namespaces: LabelSelector, flow: Flow, dir: Direction, lookup: Lookup)
    ensures PeerAdmits(Peer(Some(pods), Some(namespaces), None), flow, dir, lookup) <==>
      && PeerAdmits(Peer(Some(pods), Some(EVERYTHING), None), flow, dir, lookup)
      && PeerAdmits(Peer(None, Some(namespaces), None), flow, dir, lookup)
    ensures PeerAdmits(Peer(None, Some(namespaces), None), flow, dir, lookup) <==>
            PeerAdmits(Peer(Some(EVERYTHING), Some(namespaces), None), flow, dir, lookup)
    ensures PeerAdmits(Peer(None, None, None), flow, dir, lookup) <==> PeerAdmits(Peer(Some(EVERYTHING), None, None), flow, dir, lookup)
    ensures var peer := PeerPod(flow, dir, lookup);
      peer.Some? && lookup.GetNamespaceLabels(peer.value.ns).Some? && peer.value.ns == SubjectNs(flow, dir) ==>
        (PeerAdmits(Peer(Some(pods), None, None), flow, dir, lookup) <==>
         PeerAdmits(Peer(Some(pods), Some(EVERYTHING), None), flow, dir, lookup))
  {
    hide SelectorMatches;
    forall labels { EverythingMatches(labels); }
  }

  /** A block decides alone: the selectors beside it are not read. */
  lemma BlockDecidesAlone(p: Peer, flow: Flow, dir: Direction, lookup: Lookup)
    requires p.ipBlock.Some?
    ensures PeerAdmits(p, flow, dir, lookup) <==> PeerAdmits(Peer(None, None, p.ipBlock), flow, dir, lookup)
  {
  }

  /** A rule admits a flow exactly if a rule with one of its peers and any port does, and a rule with
      any peer and one of its ports; an empty list stands for any. */
  lemma RuleIsPeersAndPorts(r: Rule, flow: Flow, dir: Direction, lookup: Lookup)
    ensures RuleAdmits(Rule([], []), flow, dir, lookup)
    ensures RuleAdmits(r, flow, dir, lookup) <==>
      && (r.peers == [] || exists p :: p in r.peers && RuleAdmits(Rule([p], []), flow, dir, lookup))
      && (r.ports == [] || exists q :: q in r.ports && RuleAdmits(Rule([], [q]), flow, dir, lookup))
  {
    hide PeerAdmits, PortAdmits;
    forall p ensures RuleAdmits(Rule([p], []), flow, dir, lookup) <==> PeerAdmits(p, flow, dir, lookup) {
      assert Rule([p], []).peers[0] == p;
    }
    forall q ensures RuleAdmits(Rule([], [q]), flow, dir, lookup) <==> PortAdmits(q, flow, lookup) {
      assert Rule([], [q]).ports[0] == q;
    }
  }

  // ----- reasons, and the order of directions

  /** Why a selected pod's flow is denied: there is no rule in the direction, or there are rules and
      none matched. */
  lemma DenialReasons(policy: Policy, flow: Flow, dir: Direction, lookup: Lookup)
    requires dir == Ingress || dir == Egress
    ensures var v, rules := PolicyVerdict(policy, flow, dir, lookup), if dir == Ingress then policy.spec.ingress else policy.spec.egress;
      && (v.WouldDeny? ==> v.reason == if rules == [] then NoRules(dir) else NoRuleMatched(dir))
      && (rules == [] ==> v != Allow)
  {
  }

  /** The first of the listed types stays first; with both listed, the other one follows. */
  lemma {:induction false} FirstTypeFirst(types: seq<Direction>)
    requires types != [] && AllKnown(types)
    ensures Dedup(types) != [] && Dedup(types)[0] == types[0]
    ensures Ingress in types && Egress in types ==> Dedup(types) == [types[0], if types[0] == Ingress then Egress else Ingress]
  {
    var front, last := types[..|types| - 1], types[|types| - 1];
    assert types == front + [last];
    if front == [] {
      assert Dedup(front) == [];
    } else {
      FirstTypeFirst(front);
      DedupDistinct(front);
      DedupDistinct(types);
      DedupElements(front);
    }
  }

  /** Results say whose they are; those of cluster policies have no namespace. */
  lemma ResultsIdentifyPolicy(flow: Flow, p: Policy, c: ClusterPolicy, lookup: Lookup)
    ensures forall r :: r in Verdicts(flow, p, lookup) ==>
              r.policyNs == p.ns && r.policyName == p.name && r.uid == p.uid && r.generation == p.generation
    ensures forall r :: r in ClusterVerdicts(flow, c, lookup) ==>
              r.policyNs == "" && r.policyName == c.name && r.uid == c.uid && r.generation == c.generation
  {
    hide EffectiveTypes, PolicyVerdict, ClusterVerdict;
  }
}
