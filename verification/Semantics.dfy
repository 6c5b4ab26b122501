/** What a policy means, stated with quantifiers as the NetworkPolicy documentation
    does: which peers, ports and rules admit a flow, and which verdict follows. */
module Semantics {
  import opened Common
  import opened Labels
  import opened Ipv4
  import opened Policies

  // ----- the two sides of a flow

  function SubjectPod(flow: Flow, dir: Direction, lookup: Lookup): Option<Pod> {
    match dir
    case Ingress => lookup.GetPod(flow.dstNs, flow.dstName)
    case Egress => lookup.GetPod(flow.srcNs, flow.srcName)
    case Other(_) => None
  }

  function PeerPod(flow: Flow, dir: Direction, lookup: Lookup): Option<Pod> {
    match dir
    case Ingress => lookup.GetPod(flow.srcNs, flow.srcName)
    case Egress => lookup.GetPod(flow.dstNs, flow.dstName)
    case Other(_) => None
  }

  function PeerIp(flow: Flow, dir: Direction): string {
    match dir
    case Ingress => flow.srcIp
    case Egress => flow.dstIp
    case Other(_) => ""
  }

  function SubjectNs(flow: Flow, dir: Direction): string {
    match dir
    case Ingress => flow.dstNs
    case Egress => flow.srcNs
    case Other(_) => ""
  }

  // ----- peers, ports, rules

  predicate InCidr(cidr: string, ip: Ip) {
    ParseCidr(cidr).Some? && InNetwork(ParseCidr(cidr).value, ip)
  }

  predicate BlockAdmits(block: IpBlock, ip: string) {
    && ParseIp(ip).Some?
    && InCidr(block.cidr, ParseIp(ip).value)
    && forall e :: e in block.except ==> !InCidr(e, ParseIp(ip).value)
  }

  predicate PeerAdmits(p: Peer, flow: Flow, dir: Direction, lookup: Lookup) {
    if p.ipBlock.Some? then BlockAdmits(p.ipBlock.value, PeerIp(flow, dir))
    else
      var peer := PeerPod(flow, dir, lookup);
      && peer.Some?
      && (if p.namespaceSelector.Some? then
            var labels := lookup.GetNamespaceLabels(peer.value.ns);
            labels.Some? && SelectorMatches(p.namespaceSelector.value, labels.value)
          else peer.value.ns == SubjectNs(flow, dir))
      && (p.podSelector.Some? ==> SelectorMatches(p.podSelector.value, peer.value.labels))
  }

  function ProtocolOf(p: PortSpec): string {
    if p.protocol.Some? then p.protocol.value else "TCP"
  }

  /** Some container of the pod declares the name with this protocol (TCP by default) and number. */
  predicate Declares(pod: Pod, name: string, protocol: string, number: int) {
    exists c, cp :: c in pod.containers && cp in c && cp.name == name
      && (if cp.protocol == "" then "TCP" else cp.protocol) == protocol && cp.number == number
  }

  predicate PortAdmits(p: PortSpec, flow: Flow, lookup: Lookup) {
    && ProtocolOf(p) == flow.protocol
    && match p.port
       case None => true
       case Some(Number(n)) =>
         if p.endPort.Some? then n <= flow.dstPort <= p.endPort.value else flow.dstPort == n
       case Some(Name(name)) =>
         var pod := lookup.GetPod(flow.dstNs, flow.dstName);
         pod.Some? && name != "" && Declares(pod.value, name, ProtocolOf(p), flow.dstPort)
  }

  predicate RuleAdmits(r: Rule, flow: Flow, dir: Direction, lookup: Lookup) {
    && (r.peers == [] || exists p :: p in r.peers && PeerAdmits(p, flow, dir, lookup))
    && (r.ports == [] || exists p :: p in r.ports && PortAdmits(p, flow, lookup))
  }

  function RulesOf(spec: Spec, dir: Direction): seq<Rule> {
    match dir
    case Ingress => spec.ingress
    case Egress => spec.egress
    case Other(_) => []
  }

  predicate Admits(spec: Spec, flow: Flow, dir: Direction, lookup: Lookup) {
    exists r :: r in RulesOf(spec, dir) && RuleAdmits(r, flow, dir, lookup)
  }

  // ----- verdicts

  /** The verdict for a pod the policy selects: deny by default. */
  function RulesVerdict(spec: Spec, flow: Flow, dir: Direction, lookup: Lookup): Verdict {
    if Admits(spec, flow, dir, lookup) then Allow
    else if dir.Other? then WouldDeny(UnknownDirection)
    else if RulesOf(spec, dir) == [] then WouldDeny(NoRules(dir))
    else WouldDeny(NoRuleMatched(dir))
  }

  predicate Selects(policy: Policy, flow: Flow, dir: Direction, lookup: Lookup) {
    var subject := SubjectPod(flow, dir, lookup);
    && subject.Some?
    && subject.value.ns == policy.ns
    && SelectorMatches(policy.spec.podSelector, subject.value.labels)
  }

  predicate ClusterSelects(policy: ClusterPolicy, flow: Flow, dir: Direction, lookup: Lookup) {
    var subject := SubjectPod(flow, dir, lookup);
    && subject.Some?
    && (policy.namespaceSelector.Some? ==>
          var labels := lookup.GetNamespaceLabels(subject.value.ns);
          labels.Some? && SelectorMatches(policy.namespaceSelector.value, labels.value))
    && SelectorMatches(policy.spec.podSelector, subject.value.labels)
  }

  function PolicyVerdict(policy: Policy, flow: Flow, dir: Direction, lookup: Lookup): Verdict {
    if Selects(policy, flow, dir, lookup) then RulesVerdict(policy.spec, flow, dir, lookup) else NotApplicable
  }

  function ClusterVerdict(policy: ClusterPolicy, flow: Flow, dir: Direction, lookup: Lookup): Verdict {
    if ClusterSelects(policy, flow, dir, lookup) then RulesVerdict(policy.spec, flow, dir, lookup) else NotApplicable
  }

  // ----- the directions a policy applies in

  /** Repeated Ingress and Egress entries are dropped, first occurrences keep their order. */
  function Dedup(types: seq<Direction>): seq<Direction> {
    if types == [] then []
    else
      var front, last := types[..|types| - 1], types[|types| - 1];
      Dedup(front) + if !last.Other? && last in front then [] else [last]
  }

  function EffectiveTypes(spec: Spec): seq<Direction> {
    if spec.policyTypes != [] then Dedup(spec.policyTypes)
    else [Ingress] + if spec.egress != [] then [Egress] else []
  }

  predicate AppliesIn(spec: Spec, dir: Direction) {
    if spec.policyTypes != [] then dir in spec.policyTypes
    else dir == Ingress || (dir == Egress && spec.egress != [])
  }

  predicate WellFormedTypes(spec: Spec) {
    AllKnown(spec.policyTypes)
  }

  function ResultFor(policy: Policy, flow: Flow, dir: Direction, lookup: Lookup): Result {
    Result(policy.ns, policy.name, policy.uid, policy.generation, dir, PolicyVerdict(policy, flow, dir, lookup))
  }

  function ClusterResultFor(policy: ClusterPolicy, flow: Flow, dir: Direction, lookup: Lookup): Result {
    Result("", policy.name, policy.uid, policy.generation, dir, ClusterVerdict(policy, flow, dir, lookup))
  }

  function Verdicts(flow: Flow, policy: Policy, lookup: Lookup): seq<Result> {
    var types := EffectiveTypes(policy.spec);
    seq(|types|, i requires 0 <= i < |types| => ResultFor(policy, flow, types[i], lookup))
  }

  function ClusterVerdicts(flow: Flow, policy: ClusterPolicy, lookup: Lookup): seq<Result> {
    var types := EffectiveTypes(policy.spec);
    seq(|types|, i requires 0 <= i < |types| => ClusterResultFor(policy, flow, types[i], lookup))
  }

  // ----- one result per effective direction

  predicate AllKnown(types: seq<Direction>) { forall t :: t in types ==> !t.Other? }

  lemma {:induction false} DedupElements(types: seq<Direction>)
    ensures forall t :: t in Dedup(types) <==> t in types
  {
    if types != [] {
      var front, last := types[..|types| - 1], types[|types| - 1];
      assert types == front + [last];
      DedupElements(front);
    }
  }

  lemma {:induction false} DedupDistinct(types: seq<Direction>)
    requires AllKnown(types)
    ensures Distinct(Dedup(types))
    ensures |Dedup(types)| == (if Ingress in types then 1 else 0) + (if Egress in types then 1 else 0)
  {
    if types != [] {
      var front, last := types[..|types| - 1], types[|types| - 1];
      assert types == front + [last];
      DedupElements(front);
      DedupDistinct(front);
      assert last == Ingress || last == Egress;
    }
  }

  lemma EffectiveTypesCorrect(spec: Spec)
    ensures forall d :: d in EffectiveTypes(spec) <==> AppliesIn(spec, d)
    ensures WellFormedTypes(spec) ==> Distinct(EffectiveTypes(spec)) && |EffectiveTypes(spec)| <= 2
  {
    DedupElements(spec.policyTypes);
    if WellFormedTypes(spec) { DedupDistinct(spec.policyTypes); }
  }

  /** Exactly one result for each direction the policy applies in, and none for the
      others; it is Allow exactly when the policy selects the subject pod and some rule
      has a matching peer and a matching port, WouldDeny when it selects and none has. */
  lemma OneVerdictPerDirection(flow: Flow, policy: Policy, lookup: Lookup, dir: Direction)
    requires WellFormedTypes(policy.spec)
    ensures AppliesIn(policy.spec, dir) <==> exists r :: r in Verdicts(flow, policy, lookup) && r.direction == dir
    ensures forall r, r' | r in Verdicts(flow, policy, lookup) && r' in Verdicts(flow, policy, lookup)
              :: r.direction == r'.direction ==> r == r'
    ensures |Verdicts(flow, policy, lookup)| == |EffectiveTypes(policy.spec)| <= 2
    ensures forall r :: r in Verdicts(flow, policy, lookup) && r.direction == dir ==>
              && (r.verdict == Allow <==> Selects(policy, flow, dir, lookup) && Admits(policy.spec, flow, dir, lookup))
              && (r.verdict.WouldDeny? <==> Selects(policy, flow, dir, lookup) && !Admits(policy.spec, flow, dir, lookup))
              && (r.verdict.NotApplicable? <==> !Selects(policy, flow, dir, lookup))
  {
    var types := EffectiveTypes(policy.spec);
    EffectiveTypesCorrect(policy.spec);
    var rs := Verdicts(flow, policy, lookup);
    if dir in types {
      var i :| 0 <= i < |types| && types[i] == dir;
      assert rs[i] in rs && rs[i].direction == dir;
    }
  }

  // ----- address blocks as intervals

  /** A block admits an address exactly when the address value lies in the interval
      of the block and in no interval of a readable exception. */
  lemma BlockAdmitsIsInterval(block: IpBlock, ip: string)
    ensures BlockAdmits(block, ip) <==>
      && ParseIp(ip).Some?
      && InInterval(block.cidr, Value(ParseIp(ip).value))
      && forall e :: e in block.except ==> !InInterval(e, Value(ParseIp(ip).value))
  {
    hide InNetwork;
    if ParseIp(ip).Some? {
      InCidrIsInterval(block.cidr, ParseIp(ip).value);
      forall e | e in block.except { InCidrIsInterval(e, ParseIp(ip).value); }
    }
  }

  predicate InInterval(cidr: string, v: nat) {
    match ParseCidr(cidr)
    case None => false
    case Some(net) => Lowest(net) <= v < Lowest(net) + BlockSize(net)
  }

  lemma InCidrIsInterval(cidr: string, ip: Ip)
    ensures InCidr(cidr, ip) <==> InInterval(cidr, Value(ip))
  {
    hide InNetwork;
    if ParseCidr(cidr).Some? { InNetworkIsInterval(ParseCidr(cidr).value, ip); }
  }

  /** The block "s/32" admits the text s and nothing else, and only if s is an address. */
  lemma HostBlockAdmits(s: string, ip: string)
    ensures BlockAdmits(IpBlock(s + "/32", []), ip) <==> ParseIp(s).Some? && ip == s
  {
    hide InNetwork;
    HostCidr(s);
    if ParseIp(s).Some? && ParseIp(ip).Some? {
      HostNetwork(ParseIp(s).value, ParseIp(ip).value);
      ParsePrint(s);
      ParsePrint(ip);
    }
  }

  // ----- widening a policy

  predicate CoversRule(narrow: Rule, wide: Rule) {
    && (wide.peers == [] <==> narrow.peers == []) && (forall p :: p in narrow.peers ==> p in wide.peers)
    && (wide.ports == [] <==> narrow.ports == []) && (forall p :: p in narrow.ports ==> p in wide.ports)
  }

  /** wide has every rule of narrow, perhaps with more peers in a non-empty peer list and
      more ports in a non-empty port list, and perhaps more rules. */
  predicate CoversRules(narrow: seq<Rule>, wide: seq<Rule>) {
    forall r :: r in narrow ==> exists r' :: r' in wide && CoversRule(r, r')
  }

  lemma CoverKeepsAdmits(r: Rule, r': Rule, flow: Flow, dir: Direction, lookup: Lookup)
    requires CoversRule(r, r') && RuleAdmits(r, flow, dir, lookup)
    ensures RuleAdmits(r', flow, dir, lookup)
  {
    hide PeerAdmits, PortAdmits;
    if r.peers != [] {
      var p :| p in r.peers && PeerAdmits(p, flow, dir, lookup);
      assert p in r'.peers;
    }
    if r.ports != [] {
      var p :| p in r.ports && PortAdmits(p, flow, lookup);
      assert p in r'.ports;
    }
  }

  predicate Widens(narrow: Policy, wide: Policy) {
    && wide.ns == narrow.ns && wide.spec.podSelector == narrow.spec.podSelector
    && wide.spec.policyTypes == narrow.spec.policyTypes
    && CoversRules(narrow.spec.ingress, wide.spec.ingress)
    && CoversRules(narrow.spec.egress, wide.spec.egress)
  }

  lemma CoverKeepsVerdict(flow: Flow, narrow: Policy, wide: Policy, lookup: Lookup, dir: Direction)
    requires Widens(narrow, wide) && PolicyVerdict(narrow, flow, dir, lookup) == Allow
    ensures PolicyVerdict(wide, flow, dir, lookup) == Allow
  {
    hide PeerAdmits, PortAdmits, SelectorMatches, RuleAdmits, CoversRule;
    var r :| r in RulesOf(narrow.spec, dir) && RuleAdmits(r, flow, dir, lookup);
    var r' :| r' in RulesOf(wide.spec, dir) && CoversRule(r, r');
    CoverKeepsAdmits(r, r', flow, dir, lookup);
  }

  /** With explicit policy types, adding rules, peers or ports leaves the result list with the
      same directions in the same order, and every Allow in it an Allow. */
  lemma WideningKeepsAllow(flow: Flow, narrow: Policy, wide: Policy, lookup: Lookup)
    requires Widens(narrow, wide) && narrow.spec.policyTypes != []
    ensures var ns, ws := Verdicts(flow, narrow, lookup), Verdicts(flow, wide, lookup);
      && |ws| == |ns|
      && forall i :: 0 <= i < |ns| ==>
           ws[i].direction == ns[i].direction && (ns[i].verdict == Allow ==> ws[i].verdict == Allow)
  {
    hide PolicyVerdict, Widens, Dedup;
    SameTypes(narrow, wide);
    forall dir | PolicyVerdict(narrow, flow, dir, lookup) == Allow ensures PolicyVerdict(wide, flow, dir, lookup) == Allow {
      CoverKeepsVerdict(flow, narrow, wide, lookup, dir);
    }
  }

  lemma SameTypes(narrow: Policy, wide: Policy)
    requires Widens(narrow, wide)
    ensures wide.spec.policyTypes == narrow.spec.policyTypes
    ensures narrow.spec.egress != [] ==> wide.spec.egress != []
  {
    if narrow.spec.egress != [] { assert narrow.spec.egress[0] in narrow.spec.egress; }
  }

  /** With inferred policy types the result list of the narrow policy is kept in the same way, as
      the front of that of the wide one. One result more appears exactly with the first egress
      rule: Egress, where the flows of selected pods were not restricted before, is denied from
      then on unless the new rules admit it. */
  lemma WideningInferredTypes(flow: Flow, narrow: Policy, wide: Policy, lookup: Lookup)
    requires Widens(narrow, wide) && narrow.spec.policyTypes == []
    ensures var ns, ws := Verdicts(flow, narrow, lookup), Verdicts(flow, wide, lookup);
      && |ns| <= |ws|
      && (forall i :: 0 <= i < |ns| ==>
            ws[i].direction == ns[i].direction && (ns[i].verdict == Allow ==> ws[i].verdict == Allow))
      && (|ws| > |ns| <==> narrow.spec.egress == [] && wide.spec.egress != [])
      && (|ws| > |ns| ==>
            && |ns| == 1 && |ws| == 2 && ws[1].direction == Egress
            && (ws[1].verdict.WouldDeny? <==>
                  Selects(wide, flow, Egress, lookup) && !Admits(wide.spec, flow, Egress, lookup)))
  {
    hide Widens, Selects, Admits;
    SameTypes(narrow, wide);
    forall dir | PolicyVerdict(narrow, flow, dir, lookup) == Allow ensures PolicyVerdict(wide, flow, dir, lookup) == Allow {
      CoverKeepsVerdict(flow, narrow, wide, lookup, dir);
    }
  }
}
