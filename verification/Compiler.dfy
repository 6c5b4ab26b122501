/** advisor/pkg/network: compiling observed traffic into a NetworkPolicy. */
module Compiler {
  import opened Common
  import opened Ordering
  import opened Text
  import opened Labels
  import opened Policies

  // ----- inputs

  /** An observed record. dstIp and dstPort are the peer's; srcPodPort is the pod's own port. */
  datatype PodTraffic = PodTraffic(
    srcPodPort: string, trafficType: string, dstIp: string, dstPort: string, protocol: string)

  datatype PodDetail = PodDetail(name: string, ns: string, podIp: string, labels: LabelMap)

  datatype SvcDetail = SvcDetail(ns: string, selector: LabelMap)

  /** What a broker lookup gives: an error, nothing, or a value. */
  datatype Answer<+T> = Failed | Missing | Found(value: T)

  datatype BrokerData = BrokerData(services: string -> Answer<SvcDetail>, pods: string -> Answer<PodDetail>)

  // ----- outputs

  datatype Manifest = Manifest(policy: Policy, labels: LabelMap)

  datatype Outcome = Generated(manifest: Manifest) | NoPodDetail

  // ----- reading a record

  /** Simple case folding, as far as ASCII words need it: besides the ASCII letters,
      only the long s folds to S and the Kelvin sign folds to K. */
  function Fold(c: char): char {
    if 'a' <= c <= 'z' then c - 'a' + 'A'
    else if c == '\U{017F}' then 'S'
    else if c == '\U{212A}' then 'K'
    else c
  }

  predicate EqualFold(s: string, upper: string) {
    |s| == |upper| && forall i :: 0 <= i < |s| ==> Fold(s[i]) == upper[i]
  }

  /** strconv.Atoi on 64 bits: an optional sign, then decimal digits. */
  function Atoi(s: string): Option<int> {
    var digits := if s != "" && (s[0] == '+' || s[0] == '-') then s[1..] else s;
    if digits == "" || !AllDigits(digits) then None
    else
      var n: int := if s[0] == '-' then -(DecimalValue(digits) as int) else DecimalValue(digits);
      if -0x8000_0000_0000_0000 <= n < 0x8000_0000_0000_0000 then Some(n) else None
  }

  function ParsePort(s: string): (r: Option<int>)
    ensures r.Some? ==> 0 < r.value <= 65535
  {
    match Atoi(s)
    case Some(n) => if n <= 0 || n > 65535 then None else Some(n)
    case None => None
  }

  /** protocolPtr: what is not a known protocol becomes TCP. */
  function NormalProtocol(p: string): string {
    if p == "UDP" || p == "SCTP" then p else "TCP"
  }

  function PortOf(port: int, protocol: string): PortSpec {
    PortSpec(Some(Number(port)), None, Some(protocol))
  }

  /** What one record asks for: access in a direction, for a peer address, on a port. */
  datatype Wish = Wish(dir: Direction, peer: string, port: int, protocol: string)

  function WishOf(t: PodTraffic, detail: PodDetail): Option<Wish> {
    if t.dstIp == "" || t.dstIp == detail.podIp then None
    else if EqualFold(t.trafficType, "INGRESS") then
      match ParsePort(t.srcPodPort)
      case Some(n) => Some(Wish(Ingress, t.dstIp, n, NormalProtocol(t.protocol)))
      case None => None
    else if EqualFold(t.trafficType, "EGRESS") then
      match ParsePort(t.dstPort)
      case Some(n) => Some(Wish(Egress, t.dstIp, n, NormalProtocol(t.protocol)))
      case None => None
    else None
  }

  /** The (peer, port) pairs a list of records asks for in a direction. */
  function Wanted(traffic: seq<PodTraffic>, detail: PodDetail, dir: Direction): set<(string, PortSpec)> {
    set t | t in traffic && WishOf(t, detail).Some? && WishOf(t, detail).value.dir == dir ::
      var w := WishOf(t, detail).value; (w.peer, PortOf(w.port, w.protocol))
  }

  // ----- the accumulator

  datatype PeerPorts = PeerPorts(peerIp: string, ports: seq<PortSpec>)

  /** A port the compiler itself makes: a positive number with a protocol. */
  predicate Plain(p: PortSpec) {
    p.port.Some? && p.port.value.Number? && p.port.value.n > 0 && p.endPort.None? && p.protocol.Some?
  }

  /** One entry per peer, each with distinct ports and at least one. */
  predicate Tidy(rules: seq<PeerPorts>) {
    && (forall i, j :: 0 <= i < j < |rules| ==> rules[i].peerIp != rules[j].peerIp)
    && (forall r :: r in rules ==> r.ports != [] && Distinct(r.ports) && forall p :: p in r.ports ==> Plain(p))
  }

  function Pairs(rules: seq<PeerPorts>): set<(string, PortSpec)> {
    set r, p | r in rules && p in r.ports :: (r.peerIp, p)
  }

  /** IntOrString.String. */
  function PortText(p: IntOrString): string {
    match p
    case Number(n) => if n < 0 then "-" + Itoa(-n) else Itoa(n)
    case Name(s) => s
  }

  lemma PlainTexts(p: PortSpec, q: PortSpec)
    requires Plain(p) && Plain(q)
    ensures PortText(p.port.value) == PortText(q.port.value) <==> p.port == q.port
    ensures '-' !in PortText(p.port.value)
  {
    ItoaValue(p.port.value.n);
    ItoaValue(q.port.value.n);
  }

  /** The inner loop: is the port there, compared by its text and protocol? */
  method HasPort(ports: seq<PortSpec>, added: PortSpec) returns (found: bool)
    requires Plain(added) && forall p :: p in ports ==> Plain(p)
    ensures found == (added in ports)
  {
    hide PortText;
    for k := 0 to |ports|
      invariant forall m :: 0 <= m < k ==> ports[m] != added
    {
      var existing := ports[k];
      assert existing in ports;
      PlainTexts(existing, added);
      if existing.port.Some? && PortText(existing.port.value) == PortText(added.port.value) &&
         existing.protocol == added.protocol {
        return true;
      }
    }
    return false;
  }

  /** mergeOrAppendRule: the pair is added to the entry of its peer unless it is there. */
  method MergeOrAppendRule(rules: seq<PeerPorts>, peer: string, port: int, protocolStr: string)
    returns (out: seq<PeerPorts>)
    requires Tidy(rules) && port > 0
    ensures Tidy(out)
    ensures Pairs(out) == Pairs(rules) + {(peer, PortOf(port, NormalProtocol(protocolStr)))}
    ensures (peer, PortOf(port, NormalProtocol(protocolStr))) in Pairs(rules) ==> out == rules
    ensures |rules| <= |out|
    ensures forall i :: 0 <= i < |rules| ==> out[i].peerIp == rules[i].peerIp && rules[i].ports <= out[i].ports
  {
    hide NormalProtocol;
    var added := PortOf(port, NormalProtocol(protocolStr));
    out := rules;
    for i := 0 to |out|
      invariant out == rules
      invariant forall j :: 0 <= j < i ==> rules[j].peerIp != peer
    {
      if out[i].peerIp == peer {
        assert rules[i] in rules;
        var found := HasPort(out[i].ports, added);
        if found { return; }
        out := out[i := PeerPorts(peer, out[i].ports + [added])];
        PairsAfterUpdate(rules, i, added);
        return;
      }
    }
    out := out + [PeerPorts(peer, [added])];
    PairsAfterAppend(rules, peer, added);
  }

  lemma PairsAfterAppend(rules: seq<PeerPorts>, peer: string, added: PortSpec)
    requires Tidy(rules) && Plain(added) && forall j :: 0 <= j < |rules| ==> rules[j].peerIp != peer
    ensures var out := rules + [PeerPorts(peer, [added])];
      Tidy(out) && Pairs(out) == Pairs(rules) + {(peer, added)}
    ensures forall p :: (peer, p) !in Pairs(rules)
  {
    var out := rules + [PeerPorts(peer, [added])];
    assert out[|rules|] in out && added in out[|rules|].ports;
    forall r | r in rules ensures r in out { }
  }

  lemma PairsAfterUpdate(rules: seq<PeerPorts>, i: nat, added: PortSpec)
    requires Tidy(rules) && i < |rules| && added !in rules[i].ports && Plain(added)
    ensures var out := rules[i := PeerPorts(rules[i].peerIp, rules[i].ports + [added])];
      Tidy(out) && Pairs(out) == Pairs(rules) + {(rules[i].peerIp, added)}
    ensures (rules[i].peerIp, added) !in Pairs(rules)
  {
    var peer := rules[i].peerIp;
    var updated := PeerPorts(peer, rules[i].ports + [added]);
    var out := rules[i := updated];
    assert forall r :: r in out ==> r == updated || r in rules;
    assert out[i] in out && added in out[i].ports;
    forall q | q in Pairs(rules) ensures q in Pairs(out) {
      var j :| 0 <= j < |rules| && rules[j].peerIp == q.0 && q.1 in rules[j].ports;
      assert out[j] in out && q.1 in out[j].ports;
    }
    forall q | q in Pairs(out) ensures q in Pairs(rules) + {(peer, added)} {
      var j :| 0 <= j < |out| && out[j].peerIp == q.0 && q.1 in out[j].ports;
      assert rules[j] in rules;
    }
  }

  /** processTrafficRules: the two accumulators hold exactly what the records ask for. */
  method ProcessTrafficRules(traffic: seq<PodTraffic>, detail: PodDetail)
    returns (ingress: seq<PeerPorts>, egress: seq<PeerPorts>)
    ensures Tidy(ingress) && Pairs(ingress) == Wanted(traffic, detail, Ingress)
    ensures Tidy(egress) && Pairs(egress) == Wanted(traffic, detail, Egress)
  {
    ingress, egress := [], [];
    for i := 0 to |traffic|
      invariant Tidy(ingress) && Pairs(ingress) == Wanted(traffic[..i], detail, Ingress)
      invariant Tidy(egress) && Pairs(egress) == Wanted(traffic[..i], detail, Egress)
    {
      var t := traffic[i];
      WantedSnoc(traffic, i, detail, Ingress);
      WantedSnoc(traffic, i, detail, Egress);
      var peer := t.dstIp;
      if EqualFold(t.trafficType, "INGRESS") {
        if peer == "" { continue; }
        if peer == detail.podIp { continue; }
        var port := ParsePort(t.srcPodPort);
        if port.None? { continue; }
        ingress := MergeOrAppendRule(ingress, peer, port.value, t.protocol);
      } else if EqualFold(t.trafficType, "EGRESS") {
        if peer == "" { continue; }
        if peer == detail.podIp { continue; }
        var port := ParsePort(t.dstPort);
        if port.None? { continue; }
        egress := MergeOrAppendRule(egress, peer, port.value, t.protocol);
      }
    }
    assert traffic[..|traffic|] == traffic;
  }

  lemma WantedSnoc(traffic: seq<PodTraffic>, i: nat, detail: PodDetail, dir: Direction)
    requires i < |traffic|
    ensures Wanted(traffic[..i + 1], detail, dir) == Wanted(traffic[..i], detail, dir) +
              WantedBy(WishOf(traffic[i], detail), dir)
  {
    assert traffic[..i + 1] == traffic[..i] + [traffic[i]];
  }

  function WantedBy(wish: Option<Wish>, dir: Direction): set<(string, PortSpec)> {
    if wish.Some? && wish.value.dir == dir then {(wish.value.peer, PortOf(wish.value.port, wish.value.protocol))} else {}
  }

  // ----- ports in one canonical order

  /** The comparator of deduplicatePorts: numbers before names, then the port, then the protocol. */
  predicate PortLess(a: PortSpec, b: PortSpec) {
    match (a.port, b.port)
    case (Some(Number(m)), Some(Number(n))) =>
      if m != n then m < n else StringLess(a.protocol.GetOr(""), b.protocol.GetOr(""))
    case (Some(Name(s)), Some(Name(t))) =>
      if s != t then StringLess(s, t) else StringLess(a.protocol.GetOr(""), b.protocol.GetOr(""))
    case _ => a.port.Some? && a.port.value.Number?
  }

  lemma PortLessTotal(ports: set<PortSpec>)
    requires forall p :: p in ports ==> Plain(p)
    ensures StrictTotalOn(PortLess, ports)
  {
    StringLessTotal(set p | p in ports :: p.protocol.GetOr(""));
  }

  function PortKey(p: PortSpec): string
    requires p.port.Some? && p.protocol.Some?
  {
    PortText(p.port.value) + "-" + p.protocol.value
  }

  predicate Usable(p: PortSpec) { p.port.Some? && p.protocol.Some? }

  predicate SameKey(p: PortSpec, q: PortSpec) { Usable(p) && Usable(q) && PortKey(p) == PortKey(q) }

  /** The usable ports, without those whose key an earlier one has. */
  function FirstByKey(ports: seq<PortSpec>): seq<PortSpec> {
    if ports == [] then []
    else
      var front, last := ports[..|ports| - 1], ports[|ports| - 1];
      FirstByKey(front) +
      if Usable(last) && !(exists q :: q in front && SameKey(q, last)) then [last] else []
  }

  method DeduplicatePorts(ports: seq<PortSpec>) returns (result: seq<PortSpec>)
    ensures result == SortBy(PortLess, FirstByKey(ports))
  {
    var uniquePorts: set<string> := {};
    result := [];
    for i := 0 to |ports|
      invariant result == FirstByKey(ports[..i])
      invariant forall k :: k in uniquePorts <==> exists q :: q in ports[..i] && Usable(q) && PortKey(q) == k
    {
      var port := ports[i];
      assert ports[..i + 1] == ports[..i] + [port] && ports[..i + 1][..i] == ports[..i];
      if port.port.None? || port.protocol.None? { continue; }
      var key := PortKey(port);
      assert key in uniquePorts <==> exists q :: q in ports[..i] && SameKey(q, port);
      if key !in uniquePorts {
        uniquePorts := uniquePorts + {key};
        result := result + [port];
      }
    }
    assert ports[..|ports|] == ports;
    result := SortBy(PortLess, result);
  }

  lemma PlainKeys(p: PortSpec, q: PortSpec)
    requires Plain(p) && Plain(q)
    ensures SameKey(p, q) <==> p == q
  {
    PlainTexts(p, q);
    PlainTexts(q, p);
    var a, b, c, d := PortText(p.port.value), p.protocol.value, PortText(q.port.value), q.protocol.value;
    if SameKey(p, q) {
      SplitFirst(a, '-', b);
      SplitFirst(c, '-', d);
      assert PortKey(p) == a + ['-'] + b && PortKey(q) == c + ['-'] + d;
      assert a == ([a] + Split(b, '-'))[0] && c == ([c] + Split(d, '-'))[0];
      assert b == (a + ['-'] + b)[|a| + 1..] && d == (c + ['-'] + d)[|c| + 1..];
    }
  }

  lemma {:induction false} FirstByKeyPlain(ports: seq<PortSpec>)
    requires forall p :: p in ports ==> Plain(p)
    ensures Distinct(FirstByKey(ports))
    ensures forall p :: p in FirstByKey(ports) <==> p in ports
  {
    if ports != [] {
      var front, last := ports[..|ports| - 1], ports[|ports| - 1];
      assert ports == front + [last];
      FirstByKeyPlain(front);
      forall q | q in front ensures SameKey(q, last) <==> q == last { PlainKeys(q, last); }
      assert (exists q :: q in front && SameKey(q, last)) <==> last in front;
    }
  }

  /** On the compiler's own ports the result depends on the set of ports only. */
  lemma DeduplicateIgnoresOrder(ports: seq<PortSpec>, s: set<PortSpec>)
    requires forall p :: p in ports ==> Plain(p)
    requires forall p :: p in ports <==> p in s
    ensures SortBy(PortLess, FirstByKey(ports)) == SortedSet(PortLess, s)
  {
    FirstByKeyPlain(ports);
    PortLessTotal(s);
    SortIgnoresOrder(PortLess, FirstByKey(ports), s);
  }

  // ----- peers

  function WorkloadPeer(labels: LabelMap, ns: string): Peer {
    Peer(Some(MatchLabels(labels)), Some(MatchLabels(map[NAMESPACE_NAME_LABEL := ns])), None)
  }

  /** createNetworkPolicyPeer: the service's selector, else the pod's labels, else the address. */
  function PeerFor(data: BrokerData, peerIp: string): Peer {
    match data.services(peerIp)
    case Found(svc) =>
      if svc.selector != map[] then WorkloadPeer(svc.selector, svc.ns) else PodPeerFor(data, peerIp)
    case _ => PodPeerFor(data, peerIp)
  }

  function PodPeerFor(data: BrokerData, peerIp: string): Peer {
    match data.pods(peerIp)
    case Found(pod) =>
      if pod.labels != map[] then WorkloadPeer(pod.labels, pod.ns) else AddressPeer(peerIp)
    case _ => AddressPeer(peerIp)
  }

  function AddressPeer(peerIp: string): Peer {
    Peer(None, None, Some(IpBlock(peerIp + "/32", [])))
  }

  // ----- rules

  function PeersOf(pairs: set<(string, PortSpec)>): set<string> { set q | q in pairs :: q.0 }

  function PortsOf(pairs: set<(string, PortSpec)>, peer: string): set<PortSpec> {
    set q | q in pairs && q.0 == peer :: q.1
  }

  ghost function RuleFor(pairs: set<(string, PortSpec)>, data: BrokerData, peer: string): Rule {
    Rule([PeerFor(data, peer)], SortedSet(PortLess, PortsOf(pairs, peer)))
  }

  /** One rule per peer in address order, each with its ports in canonical order. */
  ghost function RulesFor(pairs: set<(string, PortSpec)>, data: BrokerData): seq<Rule> {
    var peers := SortedSet(StringLess, PeersOf(pairs));
    seq(|peers|, i requires 0 <= i < |peers| => RuleFor(pairs, data, peers[i]))
  }

  function Entry(m: map<string, seq<PortSpec>>, key: string): seq<PortSpec> {
    if key in m then m[key] else []
  }

  /** The grouping loop: the ports of each peer in a map. */
  method GroupByPeer(rules: seq<PeerPorts>) returns (peerRules: map<string, seq<PortSpec>>)
    requires Tidy(rules)
    ensures peerRules.Keys == PeersOf(Pairs(rules))
    ensures forall ip, p :: ip in peerRules ==> (p in peerRules[ip] <==> p in PortsOf(Pairs(rules), ip))
    ensures forall ip, p :: ip in peerRules && p in peerRules[ip] ==> Plain(p)
  {
    peerRules := map[];
    for i := 0 to |rules|
      invariant forall r :: r in rules[..i] ==> r.peerIp in peerRules
      invariant forall ip :: ip in peerRules ==> exists r :: r in rules[..i] && r.peerIp == ip && peerRules[ip] == r.ports
    {
      var rule := rules[i];
      assert rules[..i + 1] == rules[..i] + [rule];
      assert rule.peerIp !in peerRules;
      assert Entry(peerRules, rule.peerIp) + rule.ports == rule.ports;
      peerRules := peerRules[rule.peerIp := Entry(peerRules, rule.peerIp) + rule.ports];
    }
    assert rules[..|rules|] == rules;
    GroupedPorts(rules, peerRules);
  }

  /** sortedKeys: the keys in ascending order, whatever order the map iterates in. */
  method SortedKeys(m: map<string, seq<PortSpec>>) returns (keys: seq<string>)
    ensures keys == SortedSet(StringLess, m.Keys)
    ensures forall k :: k in keys <==> k in m
  {
    hide StringLess, SortBy, SortedSet;
    var listed := Enumerate(m.Keys);
    StringLessTotal(m.Keys);
    SortIgnoresOrder(StringLess, listed, m.Keys);
    SortedSetCorrect(StringLess, m.Keys);
    keys := SortBy(StringLess, listed);
  }

  /** transformToNetworkPolicyIngressRules and its egress sibling. */
  method TransformRules(rules: seq<PeerPorts>, data: BrokerData) returns (out: seq<Rule>)
    requires Tidy(rules)
    ensures out == RulesFor(Pairs(rules), data)
  {
    hide PeerFor, Tidy, PortsOf, PeersOf, Pairs, SortBy, SortedSet, FirstByKey, StringLess, PortLess, Plain;
    var peerRules := GroupByPeer(rules);
    var keys := SortedKeys(peerRules);
    out := [];
    for i := 0 to |keys|
      invariant |out| == i && forall j :: 0 <= j < i ==> out[j] == RuleFor(Pairs(rules), data, keys[j])
    {
      var peerIp := keys[i];
      var ports := DeduplicatePorts(peerRules[peerIp]);
      DeduplicateIgnoresOrder(peerRules[peerIp], PortsOf(Pairs(rules), peerIp));
      out := out + [Rule([PeerFor(data, peerIp)], ports)];
    }
  }

  lemma GroupedPorts(rules: seq<PeerPorts>, peerRules: map<string, seq<PortSpec>>)
    requires Tidy(rules)
    requires forall r :: r in rules ==> r.peerIp in peerRules
    requires forall ip :: ip in peerRules ==> exists r :: r in rules && r.peerIp == ip && peerRules[ip] == r.ports
    ensures peerRules.Keys == PeersOf(Pairs(rules))
    ensures forall ip, p :: ip in peerRules ==> (p in peerRules[ip] <==> p in PortsOf(Pairs(rules), ip))
    ensures forall ip, p :: ip in peerRules && p in peerRules[ip] ==> Plain(p)
  {
    forall ip | ip in peerRules ensures ip in PeersOf(Pairs(rules)) {
      var r :| r in rules && r.peerIp == ip && peerRules[ip] == r.ports;
      assert r.ports[0] in r.ports && (ip, r.ports[0]) in Pairs(rules);
    }
    forall ip, p | ip in peerRules && p in PortsOf(Pairs(rules), ip) ensures p in peerRules[ip] {
      var r :| r in rules && r.peerIp == ip && peerRules[ip] == r.ports;
      assert (ip, p) in Pairs(rules);
      var r' :| r' in rules && r'.peerIp == ip && p in r'.ports;
      assert r == r';
    }
    forall ip, p | ip in peerRules && p in peerRules[ip] ensures p in PortsOf(Pairs(rules), ip) && Plain(p) {
      var r :| r in rules && r.peerIp == ip && peerRules[ip] == r.ports;
      assert (ip, p) in Pairs(rules);
    }
  }

  // ----- the policy

  function StandardLabels(podName: string, resourceType: string): LabelMap {
    map["app.kubernetes.io/name" := podName,
        "app.kubernetes.io/component" := resourceType,
        "app.kubernetes.io/part-of" := "kguardian"]
  }

  function ManifestFor(detail: PodDetail, kind: string, types: seq<Direction>, ingress: seq<Rule>, egress: seq<Rule>): Manifest {
    Manifest(
      Policy(detail.ns, detail.name + "-" + kind, "", 0, Spec(MatchLabels(detail.labels), types, ingress, egress)),
      StandardLabels(detail.name, kind))
  }

  function DenyAll(detail: PodDetail): Manifest {
    ManifestFor(detail, "standard-policy-deny-all", [Ingress, Egress], [], [])
  }

  /** The generated policy, as a function of what the records ask for. */
  ghost function Compiled(traffic: seq<PodTraffic>, detail: PodDetail, data: BrokerData): Manifest {
    var ingress, egress := Wanted(traffic, detail, Ingress), Wanted(traffic, detail, Egress);
    if ingress == {} && egress == {} then DenyAll(detail)
    else ManifestFor(detail, "standard-policy",
      (if ingress != {} then [Ingress] else []) + (if egress != {} then [Egress] else []),
      RulesFor(ingress, data), RulesFor(egress, data))
  }

  method Generate(traffic: seq<PodTraffic>, podDetail: Option<PodDetail>, data: BrokerData) returns (r: Outcome)
    ensures r == if podDetail.None? then NoPodDetail else Generated(Compiled(traffic, podDetail.value, data))
  {
    hide RulesFor, Wanted, Pairs, Tidy, StandardLabels;
    if podDetail.None? { return NoPodDetail; }
    var detail := podDetail.value;
    if |traffic| == 0 {
      WantedNothing(detail);
      return Generated(DenyAll(detail));
    }
    var ingressRules, egressRules := ProcessTrafficRules(traffic, detail);
    PairsEmpty(ingressRules);
    PairsEmpty(egressRules);
    RulesForNothing(data);
    var types: seq<Direction>, ingress, egress := [], [], [];
    if |ingressRules| > 0 {
      types := types + [Ingress];
      ingress := TransformRules(ingressRules, data);
    }
    if |egressRules| > 0 {
      types := types + [Egress];
      egress := TransformRules(egressRules, data);
    }
    if |types| == 0 { return Generated(DenyAll(detail)); }
    return Generated(ManifestFor(detail, "standard-policy", types, ingress, egress));
  }

  lemma WantedNothing(detail: PodDetail)
    ensures forall dir :: Wanted([], detail, dir) == {}
  {
  }

  lemma PairsEmpty(rules: seq<PeerPorts>)
    requires Tidy(rules)
    ensures Pairs(rules) == {} <==> rules == []
  {
    if rules != [] {
      assert rules[0] in rules && rules[0].ports[0] in rules[0].ports;
      assert (rules[0].peerIp, rules[0].ports[0]) in Pairs(rules);
    }
  }

  lemma RulesForNothing(data: BrokerData)
    ensures RulesFor({}, data) == []
  {
    StringLessTotal({});
    SortedSetCorrect(StringLess, {});
    assert PeersOf({}) == {};
  }
}
