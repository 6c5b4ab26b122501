/** controller/src/bpf/netpolicy_drop.bpf.c: deciding from SYN retransmissions that a
    connection attempt is being dropped. */
module SynTracker {
  import opened Common

  const TCP: nat := 6
  const UDP: nat := 17
  const U32: nat := 0x1_0000_0000

  datatype Attempt = Attempt(inum: nat, saddr: nat, daddr: nat, sport: nat, dport: nat, protocol: nat)

  /** The fields the decision reads; synCount is 32 bits wide. established also means: already reported. */
  datatype ConnState = ConnState(synCount: nat, established: bool)

  datatype DropEvent = DropEvent(key: Attempt, synRetries: nat)

  /** A probe firing on a connection that passes the filters, or the kernel evicting an entry of the LRU map. */
  datatype Step =
    | Connect(key: Attempt)
    | Retransmit(key: Attempt, ringFull: bool)
    | Established(key: Attempt)
    | UdpSend(key: Attempt)
    | Evict(key: Attempt)

  type Tracking = map<Attempt, ConnState>

  // ----- what a step does

  function Increment(n: nat): nat { (n + 1) % U32 }

  function AfterRetransmit(m: Tracking, key: Attempt, ringFull: bool): (Tracking, Option<DropEvent>) {
    if key !in m then (m[key := ConnState(2, false)], None)
    else
      var count := Increment(m[key].synCount);
      if count >= 4 && !m[key].established && !ringFull
      then (m[key := ConnState(count, true)], Some(DropEvent(key, count)))
      else (m[key := ConnState(count, m[key].established)], None)
  }

  function Next(m: Tracking, s: Step): (Tracking, Option<DropEvent>) {
    match s
    case Connect(k) => (m[k.(protocol := TCP) := ConnState(1, false)], None)
    case Retransmit(k, ringFull) => AfterRetransmit(m, k.(protocol := TCP), ringFull)
    case Established(k) =>
      var key := k.(protocol := TCP);
      (if key in m then m[key := m[key].(established := true)] else m, None)
    case UdpSend(k) =>
      var key := k.(protocol := UDP);
      (m[key := if key in m then m[key].(synCount := Increment(m[key].synCount)) else ConnState(1, false)], None)
    case Evict(k) => (m - {k}, None)
  }

  // ----- the probes

  class Probes {
    var tracking: Tracking
    var dropEvents: seq<DropEvent>

    constructor ()
      ensures tracking == map[] && dropEvents == []
    {
      tracking, dropEvents := map[], [];
    }

    method TraceTcpConnect(conn: Attempt)
      modifies this
      ensures tracking == Next(old(tracking), Connect(conn)).0 && dropEvents == old(dropEvents)
    {
      tracking := tracking[conn.(protocol := TCP) := ConnState(1, false)];
    }

    method TraceTcpRetransmit(conn: Attempt, ringFull: bool)
      modifies this
      ensures var (m, e) := Next(old(tracking), Retransmit(conn, ringFull));
        tracking == m && dropEvents == old(dropEvents) + if e.Some? then [e.value] else []
    {
      var key := conn.(protocol := TCP);
      if key !in tracking {
        tracking := tracking[key := ConnState(2, false)];
      } else {
        tracking := tracking[key := tracking[key].(synCount := Increment(tracking[key].synCount))];
        if tracking[key].synCount >= 4 && !tracking[key].established {
          if ringFull { return; }
          dropEvents := dropEvents + [DropEvent(key, tracking[key].synCount)];
          tracking := tracking[key := tracking[key].(established := true)];
        }
      }
    }

    method TraceTcpStateChange(conn: Attempt)
      modifies this
      ensures tracking == Next(old(tracking), Established(conn)).0 && dropEvents == old(dropEvents)
    {
      var key := conn.(protocol := TCP);
      if key in tracking {
        tracking := tracking[key := tracking[key].(established := true)];
      }
    }

    method TraceUdpSend(conn: Attempt)
      modifies this
      ensures tracking == Next(old(tracking), UdpSend(conn)).0 && dropEvents == old(dropEvents)
    {
      var key := conn.(protocol := UDP);
      if key !in tracking {
        tracking := tracking[key := ConnState(1, false)];
      } else {
        tracking := tracking[key := tracking[key].(synCount := Increment(tracking[key].synCount))];
      }
    }
  }

  // ----- traces

  function Run(steps: seq<Step>): Tracking {
    if steps == [] then map[] else Next(Run(steps[..|steps| - 1]), steps[|steps| - 1]).0
  }

  predicate ReportsFrom(m: Tracking, s: Step, k: Attempt) {
    var e := Next(m, s).1;
    e.Some? && e.value.key == k
  }

  /** Step i reports a drop of the connection k. */
  predicate Reports(steps: seq<Step>, i: nat, k: Attempt)
    requires i < |steps|
  {
    ReportsFrom(Run(steps[..i]), steps[i], k)
  }

  predicate Resets(s: Step, k: Attempt) {
    (s.Connect? && s.key.(protocol := TCP) == k) || (s.Evict? && s.key == k)
  }

  predicate IsRetransmit(s: Step, k: Attempt) { s.Retransmit? && s.key.(protocol := TCP) == k }

  /** Retransmissions of k among steps a to b - 1. */
  function Retransmissions(steps: seq<Step>, a: nat, b: nat, k: Attempt): nat
    requires a <= b <= |steps|
  {
    if a == b then 0
    else Retransmissions(steps, a, b - 1, k) + if IsRetransmit(steps[b - 1], k) then 1 else 0
  }

  predicate Establishes(s: Step, k: Attempt) { s.Established? && s.key.(protocol := TCP) == k }

  predicate MarksFrom(m: Tracking, s: Step, k: Attempt) {
    ReportsFrom(m, s, k) || (Establishes(s, k) && k in m)
  }

  /** k was reported, or was tracked and became established, at step i. */
  predicate MarkedAt(steps: seq<Step>, i: nat, k: Attempt)
    requires i < |steps|
  {
    MarksFrom(Run(steps[..i]), steps[i], k)
  }

  lemma EntryAfterReset(m: Tracking, s: Step, k: Attempt)
    requires k.protocol == TCP && Resets(s, k)
    ensures k in Next(m, s).0 ==> Next(m, s).0[k] == ConnState(1, false)
  {
  }

  lemma RunOfNothing()
    ensures Run([]) == map[]
  {
  }

  /** What a step that is no reset does to the entry of a connection. */
  lemma EntryStep(m: Tracking, s: Step, k: Attempt)
    requires k.protocol == TCP && !Resets(s, k)
    ensures var m' := Next(m, s).0;
      && (k in m' <==> k in m || IsRetransmit(s, k))
      && (k in m ==> m'[k].synCount == if IsRetransmit(s, k) then Increment(m[k].synCount) else m[k].synCount)
      && (k in m ==> (m'[k].established <==> m[k].established || MarksFrom(m, s, k)))
      && (k !in m ==> !MarksFrom(m, s, k))
      && (k !in m && IsRetransmit(s, k) ==> m'[k] == ConnState(2, false))
  {
  }

  /** Steps a to b - 1 do not reset k, and step a - 1 does, or a is the beginning. */
  predicate SinceReset(steps: seq<Step>, a: nat, b: nat, k: Attempt) {
    && a <= b <= |steps|
    && (a == 0 || Resets(steps[a - 1], k))
    && forall i :: a <= i < b ==> !Resets(steps[i], k)
  }

  lemma RunStep(steps: seq<Step>, b: nat)
    requires b < |steps|
    ensures Run(steps[..b + 1]) == Next(Run(steps[..b]), steps[b]).0
  {
    assert steps[..b + 1][..b] == steps[..b];
  }

  /** The entry of a connection, from its history since the last reset. */
  lemma {:induction false} EntryFromHistory(steps: seq<Step>, a: nat, b: nat, k: Attempt)
    requires k.protocol == TCP && SinceReset(steps, a, b, k)
    ensures var m, r := Run(steps[..b]), Retransmissions(steps, a, b, k);
      && (k !in m ==> r == 0)
      && (k in m ==> m[k].synCount == (r + 1) % U32)
      && (k in m ==> (m[k].established <==> exists i :: a <= i < b && MarkedAt(steps, i, k)))
      && (k !in m ==> !exists i :: a <= i < b && MarkedAt(steps, i, k))
  {
    hide Run, MarksFrom, Next, Resets, IsRetransmit;
    if a == b {
      if a > 0 {
        RunStep(steps, a - 1);
        EntryAfterReset(Run(steps[..a - 1]), steps[a - 1], k);
      } else {
        RunOfNothing();
        assert steps[..0] == [];
      }
    } else {
      EntryFromHistory(steps, a, b - 1, k);
      RunStep(steps, b - 1);
      EntryStep(Run(steps[..b - 1]), steps[b - 1], k);
      assert (exists i :: a <= i < b && MarkedAt(steps, i, k)) <==>
             (exists i :: a <= i < b - 1 && MarkedAt(steps, i, k)) || MarkedAt(steps, b - 1, k);
    }
  }

  /** A drop is reported exactly when: the step is a retransmission with room in the ring buffer,
      the count since the last reset, in 32 bits, has reached four attempts, and since that reset
      the connection has neither been reported nor become established while tracked. */
  lemma ReportedExactlyWhen(steps: seq<Step>, a: nat, j: nat, k: Attempt)
    requires k.protocol == TCP && j < |steps| && SinceReset(steps, a, j, k)
    ensures Reports(steps, j, k) <==>
      && IsRetransmit(steps[j], k) && !steps[j].ringFull
      && (Retransmissions(steps, a, j + 1, k) + 1) % U32 >= 4
      && Retransmissions(steps, a, j, k) > 0
      && !exists i :: a <= i < j && MarkedAt(steps, i, k)
  {
    hide Run, MarkedAt, Resets;
    EntryFromHistory(steps, a, j, k);
    var m, r := Run(steps[..j]), Retransmissions(steps, a, j, k);
    ReportFromEntry(m, steps[j], k);
    IncrementIsNext(r);
  }

  lemma ReportFromEntry(m: Tracking, s: Step, k: Attempt)
    requires k.protocol == TCP
    ensures ReportsFrom(m, s, k) <==>
      IsRetransmit(s, k) && !s.ringFull && k in m && !m[k].established && Increment(m[k].synCount) >= 4
  {
  }

  lemma IncrementIsNext(r: nat)
    ensures Increment((r + 1) % U32) == (r + 2) % U32
    ensures r == 0 ==> Increment((r + 1) % U32) == 2
  {
  }

  /** Safety: between two resets at most one report, never after an established mark, and only
      after at least three retransmissions; the count reported is at least four. */
  lemma ReportIsSafe(steps: seq<Step>, a: nat, j: nat, k: Attempt)
    requires k.protocol == TCP && j < |steps| && SinceReset(steps, a, j, k) && Reports(steps, j, k)
    ensures Retransmissions(steps, a, j + 1, k) >= 3
    ensures Next(Run(steps[..j]), steps[j]).1.value.synRetries >= 4
    ensures forall i :: a <= i < j ==> !Reports(steps, i, k)
    ensures forall i :: a <= i < j && Establishes(steps[i], k) ==> k !in Run(steps[..i])
  {
    hide Run, Next, Resets, IsRetransmit, Establishes;
    ReportedExactlyWhen(steps, a, j, k);
    forall i | a <= i < j ensures !Reports(steps, i, k) && (Establishes(steps[i], k) ==> k !in Run(steps[..i])) {
      assert !MarkedAt(steps, i, k);
    }
    ReportCount(Run(steps[..j]), steps[j], k);
  }

  lemma ReportCount(m: Tracking, s: Step, k: Attempt)
    requires ReportsFrom(m, s, k)
    ensures Next(m, s).1.value.synRetries >= 4
  {
  }

  lemma {:induction false} LastReset(steps: seq<Step>, b: nat, k: Attempt) returns (a: nat)
    requires b <= |steps|
    ensures SinceReset(steps, a, b, k)
  {
    if b == 0 || Resets(steps[b - 1], k) {
      a := b;
    } else {
      a := LastReset(steps, b - 1, k);
    }
  }

  /** Any two reports of a connection have a reset between them. */
  lemma ReportsAreSeparated(steps: seq<Step>, i: nat, j: nat, k: Attempt)
    requires k.protocol == TCP && i < j < |steps| && Reports(steps, i, k) && Reports(steps, j, k)
    ensures exists n :: i < n < j && Resets(steps[n], k)
  {
    var a := LastReset(steps, j, k);
    ReportIsSafe(steps, a, j, k);
    assert i < a;
    assert !Resets(steps[i], k) by { assert steps[i].Retransmit?; }
    assert Resets(steps[a - 1], k);
  }

  // ----- UDP

  /** Sends of k among steps a to b - 1. */
  function UdpSends(steps: seq<Step>, a: nat, b: nat, k: Attempt): nat
    requires a <= b <= |steps|
  {
    if a == b then 0
    else UdpSends(steps, a, b - 1, k) + if steps[b - 1].UdpSend? && steps[b - 1].key.(protocol := UDP) == k then 1 else 0
  }

  lemma UdpStep(m: Tracking, s: Step, k: Attempt)
    requires k.protocol == UDP && s != Evict(k)
    ensures var m', sent := Next(m, s).0, s.UdpSend? && s.key.(protocol := UDP) == k;
      && (k in m' <==> k in m || sent)
      && (k in m ==> m'[k].synCount == if sent then Increment(m[k].synCount) else m[k].synCount)
      && (k !in m && sent ==> m'[k].synCount == 1)
    ensures !ReportsFrom(m, s, k)
  {
  }

  /** A UDP peer is counted, in 32 bits, from its last eviction, and never reported. */
  lemma {:induction false} UdpIsCountedOnly(steps: seq<Step>, a: nat, b: nat, k: Attempt)
    requires k.protocol == UDP && a <= b <= |steps|
    requires (a == 0 || steps[a - 1] == Evict(k)) && forall i :: a <= i < b ==> steps[i] != Evict(k)
    ensures var m, n := Run(steps[..b]), UdpSends(steps, a, b, k);
      && (k in m <==> n > 0)
      && (k in m ==> m[k].synCount == n % U32)
    ensures b < |steps| && steps[b] != Evict(k) ==> !Reports(steps, b, k)
  {
    hide Run, ReportsFrom, Next;
    if a == b {
      if a > 0 {
        RunStep(steps, a - 1);
        EvictForgets(Run(steps[..a - 1]), k);
      } else {
        RunOfNothing();
        assert steps[..0] == [];
      }
    } else {
      UdpIsCountedOnly(steps, a, b - 1, k);
      RunStep(steps, b - 1);
      UdpStep(Run(steps[..b - 1]), steps[b - 1], k);
      NextCount(UdpSends(steps, a, b - 1, k));
    }
    if b < |steps| && steps[b] != Evict(k) { UdpStep(Run(steps[..b]), steps[b], k); }
  }

  lemma EvictForgets(m: Tracking, k: Attempt)
    ensures k !in Next(m, Evict(k)).0
  {
  }

  lemma NextCount(n: nat)
    ensures Increment(n % U32) == (n + 1) % U32 && (n == 0 ==> (n + 1) % U32 == 1)
  {
  }
}
