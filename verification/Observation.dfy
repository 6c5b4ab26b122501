/** Which records the generator accepts, said on the fields of the record, and what the generated
    policy allows, said on the records. */
module Observation {
  import opened Common
  import opened Ordering
  import opened Text
  import opened Labels
  import opened Policies
  import opened Semantics
  import opened Compiler
  import opened Exactness

  // ----- reading the fields

  /** A text of decimal digits, after a plus sign or not, that stands for n. */
  predicate IsNumeral(s: string, n: int) {
    var digits := if s != "" && s[0] == '+' then s[1..] else s;
    digits != "" && AllDigits(digits) && DecimalValue(digits) == n
  }

  /** A port is read exactly if its text is a numeral of 1 to 65535, and then it is that number. */
  lemma ParsePortIff(s: string, n: int)
    ensures ParsePort(s) == Some(n) <==> 1 <= n <= 65535 && IsNumeral(s, n)
  {
    hide DecimalValue;
    if s != "" { assert s[0] in s; }
  }

  lemma PrintedPort(n: nat)
    ensures ParsePort(Itoa(n)) == if 1 <= n <= 65535 then Some(n) else None
  {
    hide DecimalValue;
    ItoaValue(n);
    var s := Itoa(n);
    assert s[0] in s;
    if ParsePort(s).Some? { ParsePortIff(s, ParsePort(s).value); }
    ParsePortIff(s, n);
  }

  /** A numeral, or a minus sign and digits. */
  predicate IsInteger(s: string, n: int) {
    if s != "" && s[0] == '-' then s[1..] != "" && AllDigits(s[1..]) && DecimalValue(s[1..]) == -n
    else IsNumeral(s, n)
  }

  lemma AtoiIff(s: string, n: int)
    ensures Atoi(s) == Some(n) <==> IsInteger(s, n) && -0x8000_0000_0000_0000 <= n < 0x8000_0000_0000_0000
  {
    hide DecimalValue;
    if s != "" { assert s[0] in s; }
  }

  /** Texts without digits, or with anything after the sign that is no digit, are no ports. */
  lemma UnreadablePort(s: string)
    requires s == "" || s == "+" || exists i :: 0 < i < |s| && !IsDigit(s[i])
    ensures ParsePort(s) == None
  {
    hide DecimalValue;
    if i :| 0 < i < |s| && !IsDigit(s[i]) {
      assert s[1..][i - 1] == s[i];
      assert !AllDigits(s) && !AllDigits(s[1..]);
    }
  }

  /** An ASCII letter, upper case. */
  function Upper(c: char): char { if 'a' <= c <= 'z' then c - 'a' + 'A' else c }

  predicate Spells(s: string, word: string) {
    |s| == |word| && forall i :: 0 <= i < |s| ==> Upper(s[i]) == word[i]
  }

  const LONG_S: char := '\U{017F}'
  const KELVIN: char := '\U{212A}'

  /** Folding an upper-case word: any mix of cases of it, and for ASCII texts nothing else. The
      long s and the Kelvin sign pass for S and K. */
  lemma FoldingIsSpelling(s: string, word: string)
    requires forall c :: c in word ==> 'A' <= c <= 'Z'
    ensures Spells(s, word) ==> EqualFold(s, word)
    ensures LONG_S !in s && KELVIN !in s ==> (EqualFold(s, word) <==> Spells(s, word))
    ensures EqualFold(s, word) <==>
      |s| == |word| && forall i :: 0 <= i < |s| ==>
        Upper(s[i]) == word[i] || (s[i] == LONG_S && word[i] == 'S') || (s[i] == KELVIN && word[i] == 'K')
  {
    if |s| == |word| {
      forall i | 0 <= i < |s| ensures s[i] in s && word[i] in word { }
    }
  }

  lemma WordsDiffer(s: string)
    ensures !(EqualFold(s, "INGRESS") && EqualFold(s, "EGRESS"))
  {
    assert |"INGRESS"| == 7 && |"EGRESS"| == 6;
  }

  /** The protocol a policy names for a recorded one. */
  predicate StandsFor(named: string, recorded: string) {
    if recorded == "UDP" || recorded == "SCTP" then named == recorded else named == "TCP"
  }

  // ----- which records are accepted

  /** The record says INGRESS or EGRESS, with a port that is a numeral of n, for a peer that is
      there and is not the pod itself. */
  predicate Accepted(t: PodTraffic, detail: PodDetail, dir: Direction, n: int) {
    && t.dstIp != "" && t.dstIp != detail.podIp
    && 1 <= n <= 65535
    && match dir
       case Ingress => EqualFold(t.trafficType, "INGRESS") && IsNumeral(t.srcPodPort, n)
       case Egress => EqualFold(t.trafficType, "EGRESS") && IsNumeral(t.dstPort, n)
       case Other(_) => false
  }

  /** What a record asks for, from its fields. */
  lemma WishMeaning(t: PodTraffic, detail: PodDetail, w: Wish)
    ensures WishOf(t, detail) == Some(w) <==>
      Accepted(t, detail, w.dir, w.port) && w.peer == t.dstIp && StandsFor(w.protocol, t.protocol)
  {
    hide ParsePort, IsNumeral, EqualFold;
    WordsDiffer(t.trafficType);
    ParsePortIff(t.srcPodPort, w.port);
    ParsePortIff(t.dstPort, w.port);
  }

  lemma AcceptedIff(t: PodTraffic, detail: PodDetail, dir: Direction)
    ensures (WishOf(t, detail).Some? && WishOf(t, detail).value.dir == dir) <==> exists n :: Accepted(t, detail, dir, n)
  {
    hide WishOf, Accepted, NormalProtocol;
    if WishOf(t, detail).Some? { WishMeaning(t, detail, WishOf(t, detail).value); }
    if n :| Accepted(t, detail, dir, n) {
      var protocol := NormalProtocol(t.protocol);
      NormalStands(t.protocol);
      WishMeaning(t, detail, Wish(dir, t.dstIp, n, protocol));
    }
  }

  lemma NormalStands(p: string)
    ensures StandsFor(NormalProtocol(p), p)
  {
  }

  /** The records that are skipped: no peer, the pod itself, neither word for a direction, or in the
      direction's port column no numeral of 1 to 65535. */
  lemma SkippedIff(t: PodTraffic, detail: PodDetail)
    ensures WishOf(t, detail).None? <==>
      || t.dstIp == "" || t.dstIp == detail.podIp
      || (!EqualFold(t.trafficType, "INGRESS") && !EqualFold(t.trafficType, "EGRESS"))
      || (EqualFold(t.trafficType, "INGRESS") && forall n :: 1 <= n <= 65535 ==> !IsNumeral(t.srcPodPort, n))
      || (EqualFold(t.trafficType, "EGRESS") && forall n :: 1 <= n <= 65535 ==> !IsNumeral(t.dstPort, n))
  {
    hide WishOf, IsNumeral, EqualFold;
    AcceptedIff(t, detail, Ingress);
    AcceptedIff(t, detail, Egress);
    if WishOf(t, detail).Some? {
      var w := WishOf(t, detail).value;
      WishMeaning(t, detail, w);
    }
    WordsDiffer(t.trafficType);
    if n :| 1 <= n <= 65535 && IsNumeral(t.srcPodPort, n) && EqualFold(t.trafficType, "INGRESS") && t.dstIp != "" && t.dstIp != detail.podIp {
      assert Accepted(t, detail, Ingress, n);
    }
    if n :| 1 <= n <= 65535 && IsNumeral(t.dstPort, n) && EqualFold(t.trafficType, "EGRESS") && t.dstIp != "" && t.dstIp != detail.podIp {
      assert Accepted(t, detail, Egress, n);
    }
  }

  // ----- what the policy allows

  /** A flow that an accepted record stands for: on its port, under the protocol it stands for, with
      the peer its address resolves to. */
  predicate Covers(t: PodTraffic, detail: PodDetail, data: BrokerData, flow: Flow, dir: Direction, lookup: Lookup) {
    && Accepted(t, detail, dir, flow.dstPort)
    && StandsFor(flow.protocol, t.protocol)
    && PeerIs(Resolve(data, t.dstIp), t.dstIp, flow, dir, lookup)
  }

  lemma PermitsIsCovers(t: PodTraffic, detail: PodDetail, data: BrokerData, flow: Flow, dir: Direction, lookup: Lookup)
    ensures Permits(t, detail, data, flow, dir, lookup) <==> Covers(t, detail, data, flow, dir, lookup)
  {
    hide WishOf, Accepted, Resolve, PeerIs;
    if WishOf(t, detail).Some? { WishMeaning(t, detail, WishOf(t, detail).value); }
    WishMeaning(t, detail, Wish(dir, t.dstIp, flow.dstPort, flow.protocol));
  }

  /** Observed traffic is allowed: whatever else was recorded, if a record says INGRESS or EGRESS for
      a peer other than the pod, with port n in print and a protocol that policies can name, the
      evaluator's result list for the generated policy has an Allow in that direction for every flow
      of the target on that port, with that protocol and that peer. */
  lemma ObservedTrafficIsAllowed(
    traffic: seq<PodTraffic>, t: PodTraffic, n: nat, detail: PodDetail, data: BrokerData, flow: Flow, dir: Direction, lookup: Lookup)
    requires t in traffic
    requires t.dstIp != "" && t.dstIp != detail.podIp && 1 <= n <= 65535
    requires (dir == Ingress && EqualFold(t.trafficType, "INGRESS") && t.srcPodPort == Itoa(n))
          || (dir == Egress && EqualFold(t.trafficType, "EGRESS") && t.dstPort == Itoa(n))
    requires t.protocol == "TCP" || t.protocol == "UDP" || t.protocol == "SCTP"
    requires flow.dstPort == n && flow.protocol == t.protocol
    requires IsTarget(detail, flow, dir, lookup) && PeerIs(Resolve(data, t.dstIp), t.dstIp, flow, dir, lookup)
    ensures exists r :: r in Verdicts(flow, Compiled(traffic, detail, data).policy, lookup)
              && r.direction == dir && r.verdict == Allow
  {
    hide Compiled, IsTarget, PeerIs, Resolve, EqualFold, Verdicts, IsNumeral, Permits;
    PrintedPort(n);
    ParsePortIff(Itoa(n), n);
    PermitsIsCovers(t, detail, data, flow, dir, lookup);
    ObservedIsAllowed(traffic, t, detail, data, flow, dir, lookup);
  }

  /** Nothing else is allowed: an Allow in that list concerns the target and comes from a record of
      its direction for a peer other than the pod, whose port is a numeral of the flow's port, whose
      protocol the flow's stands for, and whose address resolves to the flow's peer. */
  lemma AllowedTrafficWasObserved(traffic: seq<PodTraffic>, detail: PodDetail, data: BrokerData, flow: Flow, lookup: Lookup, r: Result)
    requires r in Verdicts(flow, Compiled(traffic, detail, data).policy, lookup) && r.verdict == Allow
    ensures IsTarget(detail, flow, r.direction, lookup)
    ensures exists t :: t in traffic && Covers(t, detail, data, flow, r.direction, lookup)
  {
    hide Compiled, IsTarget, Verdicts, Permits, Covers;
    AllowedWasObserved(traffic, detail, data, flow, lookup, r);
    var t :| t in traffic && Permits(t, detail, data, flow, r.direction, lookup);
    PermitsIsCovers(t, detail, data, flow, r.direction, lookup);
  }

  /** The directions of the result list: those some record was accepted in, and both if none was
      accepted at all; then everything is denied. */
  lemma DirectionsObserved(traffic: seq<PodTraffic>, detail: PodDetail, data: BrokerData, dir: Direction)
    ensures AppliesIn(Compiled(traffic, detail, data).policy.spec, dir) <==>
      && !dir.Other?
      && ((exists t, n :: t in traffic && Accepted(t, detail, dir, n))
          || !exists t, n, d :: t in traffic && Accepted(t, detail, d, n))
  {
    hide Compiled, Accepted, WishOf, AppliesIn;
    ListedDirections(traffic, detail, data, dir);
    forall d ensures AcceptsIn(traffic, detail, d) <==> exists t, n :: t in traffic && Accepted(t, detail, d, n) {
      SomeAccepted(traffic, detail, d);
    }
    if t, n, d :| t in traffic && Accepted(t, detail, d, n) {
      if d.Other? { OtherNotAccepted(t, detail, d.name, n); }
      assert AcceptsIn(traffic, detail, d);
    }
  }

  lemma SomeAccepted(traffic: seq<PodTraffic>, detail: PodDetail, d: Direction)
    ensures AcceptsIn(traffic, detail, d) <==> exists t, n :: t in traffic && Accepted(t, detail, d, n)
  {
    hide Accepted, WishOf;
    forall t { AcceptedIff(t, detail, d); }
  }

  lemma OtherNotAccepted(t: PodTraffic, detail: PodDetail, s: string, n: int)
    ensures !Accepted(t, detail, Other(s), n)
  {
  }

  /** What the manifest is called and how it is labelled. */
  lemma ManifestIdentity(traffic: seq<PodTraffic>, detail: PodDetail, data: BrokerData)
    ensures var m := Compiled(traffic, detail, data);
      var kind := if AcceptsIn(traffic, detail, Ingress) || AcceptsIn(traffic, detail, Egress) then "standard-policy" else "standard-policy-deny-all";
      && m.policy.ns == detail.ns && m.policy.name == detail.name + "-" + kind
      && m.policy.spec.podSelector == MatchLabels(detail.labels)
      && m.labels.Keys == {"app.kubernetes.io/name", "app.kubernetes.io/component", "app.kubernetes.io/part-of"}
      && m.labels["app.kubernetes.io/name"] == detail.name
      && m.labels["app.kubernetes.io/component"] == kind
      && m.labels["app.kubernetes.io/part-of"] == "kguardian"
  {
    hide RulesFor, WishOf;
    forall d ensures Wanted(traffic, detail, d) != {} <==> AcceptsIn(traffic, detail, d) { WantedIff(traffic, detail, d); }
    KeysDiffer();
  }

  lemma KeysDiffer()
    ensures "app.kubernetes.io/name" != "app.kubernetes.io/component" && "app.kubernetes.io/name" != "app.kubernetes.io/part-of"
    ensures "app.kubernetes.io/component" != "app.kubernetes.io/part-of"
  {
    assert "app.kubernetes.io/name"[18] != "app.kubernetes.io/component"[18];
    assert "app.kubernetes.io/part-of"[18] != "app.kubernetes.io/component"[18];
    assert "app.kubernetes.io/part-of"[18] != "app.kubernetes.io/name"[18];
  }

  lemma WantedIff(traffic: seq<PodTraffic>, detail: PodDetail, d: Direction)
    ensures Wanted(traffic, detail, d) != {} <==> AcceptsIn(traffic, detail, d)
  {
    hide WishOf;
    if t :| t in traffic && WishOf(t, detail).Some? && WishOf(t, detail).value.dir == d {
      var w := WishOf(t, detail).value;
      assert (w.peer, PortOf(w.port, w.protocol)) in Wanted(traffic, detail, d);
    }
  }

  // ----- the order of rules and ports

  /** b is greater at the first character that differs. */
  predicate GreaterAt(a: string, b: string, i: nat) {
    i < |a| && i < |b| && a[..i] == b[..i] && a[i] < b[i]
  }

  lemma GreaterAfterHead(a: string, b: string, i: nat)
    requires a != [] && b != []
    ensures GreaterAt(a, b, i + 1) <==> a[0] == b[0] && GreaterAt(a[1..], b[1..], i)
    ensures GreaterAt(a, b, 0) <==> a[0] < b[0]
  {
    if i + 1 < |a| && i + 1 < |b| {
      assert a[..i + 1] == [a[0]] + a[1..][..i] && b[..i + 1] == [b[0]] + b[1..][..i];
      assert a[1..][..i] == a[..i + 1][1..] && b[1..][..i] == b[..i + 1][1..];
      assert a[..i + 1][0] == a[0] && b[..i + 1][0] == b[0];
    }
    assert a[..0] == b[..0];
  }

  lemma PrefixAfterHead(a: string, b: string)
    requires a != [] && b != []
    ensures a < b <==> a[0] == b[0] && a[1..] < b[1..]
  {
    assert a == [a[0]] + a[1..] && b == [b[0]] + b[1..];
  }

  /** Lexicographic order: a proper prefix, or smaller at the first character that differs. */
  lemma {:induction false} StringLessMeaning(a: string, b: string)
    ensures StringLess(a, b) <==> a < b || exists i :: GreaterAt(a, b, i)
  {
    hide GreaterAt;
    if a == [] || b == [] {
      forall i ensures !GreaterAt(a, b, i) { NotGreaterAtEnd(a, b, i); }
    } else {
      PrefixAfterHead(a, b);
      StringLessMeaning(a[1..], b[1..]);
      GreaterAfterHead(a, b, 0);
      if i: nat :| GreaterAt(a[1..], b[1..], i) { GreaterAfterHead(a, b, i); }
      if i: nat :| GreaterAt(a, b, i) && i > 0 { GreaterAfterHead(a, b, i - 1); }
    }
  }

  lemma NotGreaterAtEnd(a: string, b: string, i: nat)
    requires a == [] || b == []
    ensures !GreaterAt(a, b, i)
  {
  }

  /** Numbers ascending, then protocols; numbers before names. */
  lemma PortOrder(a: PortSpec, b: PortSpec)
    requires Plain(a) && Plain(b)
    ensures PortLess(a, b) <==> a.port.value.n < b.port.value.n || (a.port == b.port && StringLess(a.protocol.value, b.protocol.value))
    ensures forall name, e, p :: PortLess(a, PortSpec(Some(Name(name)), e, p)) && !PortLess(PortSpec(Some(Name(name)), e, p), a)
  {
  }
}
