/** broker/src/audit.rs: the flow the broker builds for a captured record, and what the
    policy the advisor generates from that same record says about it. */
module AuditFlow {
  import opened Common
  import opened Text
  import opened Ipv4
  import opened Policies
  import opened Semantics
  import opened Compiler
  import opened Exactness
  import opened TrafficRows
  import Observation

  function TrimStart(s: string): string {
    if s != "" && UnicodeSpace(s[0]) then TrimStart(s[1..]) else s
  }

  function TrimEnd(s: string): string {
    if s != "" && UnicodeSpace(s[|s| - 1]) then TrimEnd(s[..|s| - 1]) else s
  }

  function Upper(s: string): (r: string)
    ensures |r| == |s|
  {
    seq(|s|, i requires 0 <= i < |s| => if 'a' <= s[i] <= 'z' then s[i] - 'a' + 'A' else s[i])
  }

  /** str::parse::<i32>, with 0 for what does not parse. */
  function ParseI32(s: string): int {
    match Atoi(s)
    case Some(n) => if -0x8000_0000 <= n < 0x8000_0000 then n else 0
    case None => 0
  }

  /** build_flow_for_traffic. An absent text field of the wire format reads as empty. */
  function BuildFlow(row: TrafficRow): Option<Flow> {
    var kind := Upper(TrimEnd(TrimStart(row.trafficType.GetOr(""))));
    var protocol := row.ipProtocol.GetOr("TCP");
    if kind == "INGRESS" then
      Some(Flow("", "", row.podNs.GetOr(""), row.podName.GetOr(""),
                row.ioIp.GetOr(""), row.podIp.GetOr(""), ParseI32(row.podPort.GetOr("0")), protocol))
    else if kind == "EGRESS" then
      Some(Flow(row.podNs.GetOr(""), row.podName.GetOr(""), "", "",
                row.podIp.GetOr(""), row.ioIp.GetOr(""), ParseI32(row.ioPort.GetOr("0")), protocol))
    else None
  }

  /** The advisor's reading of the same row: an absent column reads as empty. */
  function Record(row: TrafficRow): PodTraffic {
    PodTraffic(row.podPort.GetOr(""), row.trafficType.GetOr(""), row.ioIp.GetOr(""), row.ioPort.GetOr(""), row.ipProtocol.GetOr(""))
  }

  // ----- the two readings agree on direction and port

  lemma FoldedIsTrimmed(s: string, upper: string)
    requires EqualFold(s, upper) && upper != "" && forall c :: c in upper ==> 'A' <= c <= 'Z'
    ensures TrimEnd(TrimStart(s)) == s
  {
    assert upper[0] in upper && upper[|upper| - 1] in upper;
    assert Fold(s[0]) == upper[0] && Fold(s[|s| - 1]) == upper[|s| - 1];
  }

  lemma SameReading(row: TrafficRow, detail: PodDetail)
    requires BuildFlow(row).Some? && WishOf(Record(row), detail).Some?
    ensures var w, f := WishOf(Record(row), detail).value, BuildFlow(row).value;
      && f.dstPort == w.port
      && PeerIp(f, w.dir) == w.peer
      && (w.dir == Ingress || w.dir == Egress)
      && f.protocol == row.ipProtocol.GetOr("TCP")
    ensures var w, f := WishOf(Record(row), detail).value, BuildFlow(row).value;
      w.dir == Ingress ==> f.srcNs == "" && f.dstNs == row.podNs.GetOr("") && f.dstName == row.podName.GetOr("")
    ensures var w, f := WishOf(Record(row), detail).value, BuildFlow(row).value;
      w.dir == Egress ==> f.dstNs == "" && f.srcNs == row.podNs.GetOr("") && f.srcName == row.podName.GetOr("")
  {
    var s := row.trafficType.GetOr("");
    if EqualFold(s, "INGRESS") { FoldedIsTrimmed(s, "INGRESS"); }
    if EqualFold(s, "EGRESS") { FoldedIsTrimmed(s, "EGRESS"); }
    assert |Upper(TrimEnd(TrimStart(s)))| == |TrimEnd(TrimStart(s))|;
  }

  lemma NoPeerIdentity(row: TrafficRow, detail: PodDetail, lookup: Lookup)
    requires BuildFlow(row).Some? && WishOf(Record(row), detail).Some?
    ensures PeerPod(BuildFlow(row).value, WishOf(Record(row), detail).value.dir, lookup).None?
  {
    SameReading(row, detail);
  }

  /** The policy generated from a set of records that holds this row, evaluated on the flow the
      broker builds for this same row: the verdict is Allow exactly when the pod is the target,
      the peer address resolved to no service selector and no labelled pod and is readable, and
      the protocol is one the policy can name. Any peer resolved to labels is denied, because the
      broker's flow does not carry the identity of the peer. */
  lemma OwnTrafficAllowedIff(traffic: seq<PodTraffic>, row: TrafficRow, detail: PodDetail, data: BrokerData, lookup: Lookup)
    requires Record(row) in traffic && BuildFlow(row).Some? && WishOf(Record(row), detail).Some?
    ensures var w, f := WishOf(Record(row), detail).value, BuildFlow(row).value;
      PolicyVerdict(Compiled(traffic, detail, data).policy, f, w.dir, lookup) == Allow <==>
        && IsTarget(detail, f, w.dir, lookup)
        && Resolve(data, w.peer) == Address && ParseIp(w.peer).Some?
        && row.ipProtocol.GetOr("TCP") in {"TCP", "UDP", "SCTP"}
  {
    hide Compiled, IsTarget, Resolve, EqualFold, ParseIp, BuildFlow, Atoi;
    var w, f := WishOf(Record(row), detail).value, BuildFlow(row).value;
    SameReading(row, detail);
    NoPeerIdentity(row, detail, lookup);
    GeneratedPolicyIsExact(traffic, detail, data, f, w.dir, lookup);
    if t :| t in traffic && Permits(t, detail, data, f, w.dir, lookup) {
      var w' := WishOf(t, detail).value;
      assert w'.peer == w.peer && f.protocol == w'.protocol;
    }
    if Resolve(data, w.peer) == Address && ParseIp(w.peer).Some? && row.ipProtocol.GetOr("TCP") in {"TCP", "UDP", "SCTP"} {
      assert Permits(Record(row), detail, data, f, w.dir, lookup);
    }
  }

  /** A concrete case: a client with labels was observed, the policy generated from that one record
      admits it by its labels, and the audit of the same record reports a denial. */
  lemma LabelledClientIsDenied()
    ensures var row := TrafficRow("1", Some("web"), Some("shop"), Some("10.0.0.1"), Some("8"), Some("TCP"),
                                  Some("INGRESS"), Some("10.0.0.2"), Some("9"), Some("ALLOW"));
      var detail := PodDetail("web", "shop", "10.0.0.1", map[]);
      var data := BrokerData(_ => Missing, _ => Found(PodDetail("client", "shop", "10.0.0.2", map["app" := "client"])));
      var lookup := Lookup(map["shop/web" := Pod("shop", "web", map[], [])], map[]);
      && WishOf(Record(row), detail) == Some(Wish(Ingress, "10.0.0.2", 8, "TCP"))
      && BuildFlow(row).Some?
      && PolicyVerdict(Compiled([Record(row)], detail, data).policy, BuildFlow(row).value, Ingress, lookup).WouldDeny?
  {
    var row := TrafficRow("1", Some("web"), Some("shop"), Some("10.0.0.1"), Some("8"), Some("TCP"),
                          Some("INGRESS"), Some("10.0.0.2"), Some("9"), Some("ALLOW"));
    var detail := PodDetail("web", "shop", "10.0.0.1", map[]);
    var data := BrokerData(_ => Missing, _ => Found(PodDetail("client", "shop", "10.0.0.2", map["app" := "client"])));
    var lookup := Lookup(map["shop/web" := Pod("shop", "web", map[], [])], map[]);
    ReadsAsIngress(row, detail);
    var f := BuildFlow(row).value;
    assert "shop" + "/" + "web" == "shop/web";
    assert IsTarget(detail, f, Ingress, lookup);
    assert Resolve(data, "10.0.0.2") == Workload(map["app" := "client"], "shop") by { assert "app" in map["app" := "client"]; }
    OwnTrafficAllowedIff([Record(row)], row, detail, data, lookup);
    GeneratedPolicyIsExact([Record(row)], detail, data, f, Ingress, lookup);
  }

  lemma ReadsAsIngress(row: TrafficRow, detail: PodDetail)
    requires row.trafficType == Some("INGRESS") && row.podPort == Some("8") && row.ipProtocol == Some("TCP")
    requires row.ioIp == Some("10.0.0.2") && detail.podIp == "10.0.0.1"
    ensures BuildFlow(row).Some? && WishOf(Record(row), detail) == Some(Wish(Ingress, "10.0.0.2", 8, "TCP"))
    ensures BuildFlow(row).value.dstNs == row.podNs.GetOr("") && BuildFlow(row).value.dstName == row.podName.GetOr("")
  {
    Decimals("8");
    assert "10.0.0.2"[7] != "10.0.0.1"[7];
    assert EqualFold("INGRESS", "INGRESS");
    FoldedIsTrimmed("INGRESS", "INGRESS");
    assert Upper("INGRESS") == "INGRESS";
  }

  // ----- when there is a flow, and what it says

  predicate AllSpace(s: string) { forall c :: c in s ==> UnicodeSpace(c) }

  lemma {:induction false} TrimStartDrops(s: string) returns (lead: string)
    ensures s == lead + TrimStart(s) && AllSpace(lead)
    ensures TrimStart(s) != "" ==> !UnicodeSpace(TrimStart(s)[0])
  {
    if s != "" && UnicodeSpace(s[0]) {
      var rest := TrimStartDrops(s[1..]);
      lead := [s[0]] + rest;
    } else {
      lead := "";
    }
  }

  lemma {:induction false} TrimEndDrops(s: string) returns (trail: string)
    ensures s == TrimEnd(s) + trail && AllSpace(trail)
    ensures TrimEnd(s) != "" ==> !UnicodeSpace(TrimEnd(s)[|TrimEnd(s)| - 1])
  {
    if s != "" && UnicodeSpace(s[|s| - 1]) {
      var rest := TrimEndDrops(s[..|s| - 1]);
      trail := rest + [s[|s| - 1]];
    } else {
      trail := "";
    }
  }

  /** Spaces, then the text, then spaces. */
  predicate Padded(s: string, lead: string, word: string, trail: string) {
    s == lead + word + trail && AllSpace(lead) && AllSpace(trail)
  }

  lemma {:induction false} TrimStartOfPadded(lead: string, t: string)
    requires AllSpace(lead) && t != "" && !UnicodeSpace(t[0])
    ensures TrimStart(lead + t) == t
  {
    if lead == "" {
      assert lead + t == t;
    } else {
      assert lead[0] in lead;
      assert (lead + t)[1..] == lead[1..] + t;
      TrimStartOfPadded(lead[1..], t);
    }
  }

  lemma {:induction false} TrimEndOfPadded(t: string, trail: string)
    requires AllSpace(trail) && t != "" && !UnicodeSpace(t[|t| - 1])
    ensures TrimEnd(t + trail) == t
  {
    if trail == "" {
      assert t + trail == t;
    } else {
      assert trail[|trail| - 1] in trail;
      assert (t + trail)[..|t + trail| - 1] == t + trail[..|trail| - 1];
      TrimEndOfPadded(t, trail[..|trail| - 1]);
    }
  }

  lemma UpperIsSpelling(s: string, word: string)
    ensures Upper(s) == word <==> Observation.Spells(s, word)
  {
    if Observation.Spells(s, word) { assert Upper(s) == word; }
  }

  /** The text is the word in any case, with any white space around it. */
  ghost predicate Says(kind: string, word: string) {
    exists lead, w, trail :: Padded(kind, lead, w, trail) && Observation.Spells(w, word)
  }

  lemma SaysIff(kind: string, word: string)
    requires word == "INGRESS" || word == "EGRESS"
    ensures Upper(TrimEnd(TrimStart(kind))) == word <==> Says(kind, word)
  {
    hide TrimStart, TrimEnd, Upper;
    UpperIsSpelling(TrimEnd(TrimStart(kind)), word);
    if Upper(TrimEnd(TrimStart(kind))) == word {
      var lead := TrimStartDrops(kind);
      var trail := TrimEndDrops(TrimStart(kind));
      var w := TrimEnd(TrimStart(kind));
      assert lead + (w + trail) == lead + w + trail;
      assert Padded(kind, lead, w, trail);
    }
    if lead, w, trail :| Padded(kind, lead, w, trail) && Observation.Spells(w, word) {
      assert Observation.Upper(w[0]) == word[0] && Observation.Upper(w[|w| - 1]) == word[|w| - 1];
      assert lead + w + trail == lead + (w + trail);
      TrimStartOfPadded(lead, w + trail);
      TrimEndOfPadded(w, trail);
    }
  }

  /** There is a flow exactly if the record says INGRESS or EGRESS. The record's pod is the
      destination of an ingress flow and the source of an egress flow, the other end has an address
      only, and the port is the one the destination is addressed on. */
  lemma FlowOfRecord(row: TrafficRow)
    ensures var kind := row.trafficType.GetOr("");
      && (BuildFlow(row).Some? <==> Says(kind, "INGRESS") || Says(kind, "EGRESS"))
      && (Says(kind, "INGRESS") ==>
            var f := BuildFlow(row).value;
            && f.dstNs == row.podNs.GetOr("") && f.dstName == row.podName.GetOr("") && f.dstIp == row.podIp.GetOr("")
            && f.srcNs == "" && f.srcName == "" && f.srcIp == row.ioIp.GetOr("")
            && f.dstPort == ParseI32(row.podPort.GetOr("")) && f.protocol == row.ipProtocol.GetOr("TCP"))
      && (Says(kind, "EGRESS") ==>
            var f := BuildFlow(row).value;
            && f.srcNs == row.podNs.GetOr("") && f.srcName == row.podName.GetOr("") && f.srcIp == row.podIp.GetOr("")
            && f.dstNs == "" && f.dstName == "" && f.dstIp == row.ioIp.GetOr("")
            && f.dstPort == ParseI32(row.ioPort.GetOr("")) && f.protocol == row.ipProtocol.GetOr("TCP"))
  {
    hide TrimStart, TrimEnd, Upper, Says, ParseI32;
    var kind := row.trafficType.GetOr("");
    SaysIff(kind, "INGRESS");
    SaysIff(kind, "EGRESS");
    assert "INGRESS"[0] != "EGRESS"[0];
    ZeroPort();
  }

  lemma ZeroPort()
    ensures ParseI32("0") == 0 && ParseI32("") == 0
  {
    Decimals("0");
  }

  /** The port: the number the text writes, if 32 bits hold it, and otherwise 0. */
  lemma PortOfText(s: string, n: int)
    ensures Observation.IsInteger(s, n) && -0x8000_0000 <= n < 0x8000_0000 ==> ParseI32(s) == n
    ensures (forall m :: -0x8000_0000 <= m < 0x8000_0000 ==> !Observation.IsInteger(s, m)) ==> ParseI32(s) == 0
  {
    hide Atoi, Observation.IsInteger;
    Observation.AtoiIff(s, n);
    if Atoi(s).Some? { Observation.AtoiIff(s, Atoi(s).value); }
  }

  /** Of the records the generator accepts, the broker audits exactly those whose direction is
      written in ASCII: the generator takes the long s for an S, the broker does not. */
  lemma AcceptedIsAuditedIff(row: TrafficRow, detail: PodDetail)
    requires WishOf(Record(row), detail).Some?
    ensures BuildFlow(row).Some? <==> Observation.LONG_S !in row.trafficType.GetOr("")
  {
    hide TrimStart, TrimEnd, Upper, ParseI32, ParsePort, EqualFold, Observation.Spells;
    var kind := row.trafficType.GetOr("");
    Observation.FoldingIsSpelling(kind, "INGRESS");
    Observation.FoldingIsSpelling(kind, "EGRESS");
    UpperIsSpelling(kind, "INGRESS");
    UpperIsSpelling(kind, "EGRESS");
    var word := if EqualFold(kind, "INGRESS") then "INGRESS" else "EGRESS";
    assert EqualFold(kind, word);
    FoldedIsTrimmed(kind, word);
    NoKelvin(kind, word);
    if Observation.LONG_S in kind { LongSIsNoWord(kind); }
  }

  lemma NoKelvin(kind: string, word: string)
    requires EqualFold(kind, word) && (word == "INGRESS" || word == "EGRESS")
    ensures Observation.KELVIN !in kind
  {
    assert 'K' !in word;
    forall i | 0 <= i < |kind| ensures kind[i] != Observation.KELVIN { assert Fold(kind[i]) == word[i] && word[i] in word; }
  }

  lemma LongSIsNoWord(kind: string)
    requires Observation.LONG_S in kind
    ensures Upper(kind) != "INGRESS" && Upper(kind) != "EGRESS"
  {
    var i :| 0 <= i < |kind| && kind[i] == Observation.LONG_S;
    assert Upper(kind)[i] == Observation.LONG_S;
    assert Observation.LONG_S !in "INGRESS" && Observation.LONG_S !in "EGRESS";
  }
}
