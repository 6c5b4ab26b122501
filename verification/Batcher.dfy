/** controller/src/network.rs: batching captured records and delivering them to the broker,
    composed with the broker's table (TrafficTable). */
module Batcher {
  import opened Common
  import opened TrafficRows
  import opened TrafficTable

  const BATCH_SIZE: nat := 100
  const BATCH_TIMEOUT: nat := 1000  // milliseconds
  const MAX_PENDING_EVENTS: nat := 1000

  predicate ShouldFlush(batchLen: nat, elapsed: nat, batchSize: nat, batchTimeout: nat) {
    batchLen != 0 && (batchLen >= batchSize || elapsed >= batchTimeout)
  }

  /** What becomes of a POST: the network may lose it, or lose only its answer. */
  datatype PostOutcome = Answered | Lost | CommittedButUnanswered

  /** One turn of the loop. A record that the capture filters out is None. */
  datatype Input =
    | Received(traffic: Option<TrafficRow>, elapsed: nat, outcome: PostOutcome)
    | TimedOut(outcome: PostOutcome)
    | Closed(outcome: PostOutcome)

  // ----- the pipeline as a state

  datatype Fate = Delivered | Dropped

  /** accepted: all records taken so far. fates: what became of the first of them; the rest are
      pending. rows: the broker's table. */
  datatype Pipeline = Pipeline(accepted: seq<TrafficRow>, fates: seq<Fate>, pending: seq<TrafficRow>, rows: seq<TrafficRow>, closed: bool)

  function Repeat(f: Fate, n: nat): seq<Fate> { seq(n, _ => f) }

  function Excess(n: nat): nat { if n > MAX_PENDING_EVENTS then n - MAX_PENDING_EVENTS else 0 }

  predicate Insertable(rows: seq<TrafficRow>, batch: seq<TrafficRow>) {
    UuidsUnique(rows + NewEvents(rows, batch))
  }

  function Flushed(s: Pipeline, outcome: PostOutcome): Pipeline {
    if s.pending == [] then s
    else
      var rows := if outcome == Lost then s.rows else Commit(s.rows, s.pending);
      if outcome == Answered && Insertable(s.rows, s.pending) then
        s.(fates := s.fates + Repeat(Delivered, |s.pending|), pending := [], rows := rows)
      else
        var drop := Excess(|s.pending|);
        s.(fates := s.fates + Repeat(Dropped, drop), pending := s.pending[drop..], rows := rows)
  }

  function Accept(s: Pipeline, traffic: Option<TrafficRow>): Pipeline {
    if traffic.None? then s
    else s.(accepted := s.accepted + [traffic.value], pending := s.pending + [traffic.value])
  }

  function Next(s: Pipeline, input: Input): Pipeline {
    if s.closed then s
    else match input
      case Received(traffic, elapsed, outcome) =>
        var t := Accept(s, traffic);
        if ShouldFlush(|t.pending|, elapsed, BATCH_SIZE, BATCH_TIMEOUT) then Flushed(t, outcome) else t
      case TimedOut(outcome) => Flushed(s, outcome)
      case Closed(outcome) => Flushed(s, outcome).(closed := true)
  }

  function Start(rows: seq<TrafficRow>): Pipeline { Pipeline([], [], [], rows, false) }

  function Run(rows: seq<TrafficRow>, inputs: seq<Input>): Pipeline {
    if inputs == [] then Start(rows) else Next(Run(rows, inputs[..|inputs| - 1]), inputs[|inputs| - 1])
  }

  // ----- the running code

  class NetworkBatcher {
    const table: Table
    var batch: seq<TrafficRow>
    ghost var accepted: seq<TrafficRow>
    ghost var fates: seq<Fate>
    ghost var closed: bool

    ghost function State(): Pipeline
      reads this, table
    {
      Pipeline(accepted, fates, batch, table.rows, closed)
    }

    constructor (table: Table)
      ensures this.table == table && State() == Start(table.rows)
    {
      this.table := table;
      batch := [];
      accepted, fates, closed := [], [], false;
    }

    /** api_post_call: true for a 2xx answer. */
    method ApiPostCall(outcome: PostOutcome) returns (ok: bool)
      requires UuidsUnique(table.rows)
      modifies table
      ensures UuidsUnique(table.rows)
      ensures table.rows == if outcome == Lost then old(table.rows) else Commit(old(table.rows), batch)
      ensures ok == (outcome == Answered && Insertable(old(table.rows), batch))
    {
      if outcome == Lost { return false; }
      var r := table.CreatePodTrafficBatch(batch);
      return outcome == Answered && r.Inserted?;
    }

    /** Drops the oldest entries beyond the cap, and says how many. */
    method CapBatch(max: nat) returns (dropped: nat)
      modifies this`batch
      ensures dropped == (if |old(batch)| > max then |old(batch)| - max else 0)
      ensures batch == old(batch)[dropped..]
    {
      if |batch| <= max { return 0; }
      var drop := |batch| - max;
      batch := batch[drop..];
      return drop;
    }

    method FlushNetworkBatch(outcome: PostOutcome)
      requires UuidsUnique(table.rows)
      modifies this, table
      ensures UuidsUnique(table.rows)
      ensures State() == Flushed(old(State()), outcome)
    {
      hide UuidsUnique, NewEvents, Commit;
      if |batch| == 0 { return; }
      var ok := ApiPostCall(outcome);
      if ok {
        fates := fates + Repeat(Delivered, |batch|);
        batch := [];
      } else {
        var dropped := CapBatch(MAX_PENDING_EVENTS);
        fates := fates + Repeat(Dropped, dropped);
      }
    }

    /** handle_network_events: one turn of the loop per input, until the channel is closed. */
    method HandleNetworkEvents(inputs: seq<Input>)
      requires UuidsUnique(table.rows) && State() == Start(table.rows)
      modifies this, table
      ensures UuidsUnique(table.rows)
      ensures State() == Run(old(table.rows), inputs)
    {
      hide Flushed, UuidsUnique;
      for i := 0 to |inputs|
        invariant UuidsUnique(table.rows)
        invariant State() == Run(old(table.rows), inputs[..i])
        invariant !closed
      {
        ghost var before := State();
        assert inputs[..i + 1][..i] == inputs[..i];
        match inputs[i] {
          case Received(traffic, elapsed, outcome) =>
            AcceptOne(traffic);
            if ShouldFlush(|batch|, elapsed, BATCH_SIZE, BATCH_TIMEOUT) {
              FlushNetworkBatch(outcome);
              FlushKeepsOpen(Accept(before, traffic), outcome);
            }
          case Closed(outcome) =>
            FlushEmpty(before, outcome);
            if |batch| != 0 { FlushNetworkBatch(outcome); }
            closed := true;
            RunAfterClose(old(table.rows), inputs, i + 1);
            return;
          case TimedOut(outcome) =>
            FlushEmpty(before, outcome);
            FlushKeepsOpen(before, outcome);
            if |batch| != 0 { FlushNetworkBatch(outcome); }
        }
      }
      assert inputs[..|inputs|] == inputs;
    }

    method AcceptOne(traffic: Option<TrafficRow>)
      modifies this
      ensures State() == Accept(old(State()), traffic)
    {
      if traffic.Some? {
        batch := batch + [traffic.value];
        accepted := accepted + [traffic.value];
      }
    }
  }

  lemma FlushKeepsOpen(s: Pipeline, outcome: PostOutcome)
    ensures Flushed(s, outcome).closed == s.closed
  {
  }

  lemma FlushEmpty(s: Pipeline, outcome: PostOutcome)
    ensures s.pending == [] ==> Flushed(s, outcome) == s
  {
  }

  lemma {:induction false} RunAfterClose(rows: seq<TrafficRow>, inputs: seq<Input>, i: nat)
    requires i <= |inputs| && Run(rows, inputs[..i]).closed
    ensures Run(rows, inputs) == Run(rows, inputs[..i])
    decreases |inputs| - i
  {
    if i < |inputs| {
      assert inputs[..i + 1][..i] == inputs[..i];
      RunAfterClose(rows, inputs, i + 1);
    } else {
      assert inputs[..i] == inputs;
    }
  }

  // ----- conservation and order

  /** The pending records are the last accepted ones, in order; every earlier one has a fate;
      and no more than the cap are pending. */
  predicate Conserved(s: Pipeline) {
    && |s.fates| + |s.pending| == |s.accepted|
    && s.pending == s.accepted[|s.fates|..]
    && |s.pending| <= MAX_PENDING_EVENTS
  }

  lemma FlushConserves(s: Pipeline, outcome: PostOutcome)
    requires |s.fates| + |s.pending| == |s.accepted| && s.pending == s.accepted[|s.fates|..]
    ensures Conserved(Flushed(s, outcome)) || (s.pending == [] && Flushed(s, outcome) == s)
    ensures |Flushed(s, outcome).pending| <= MAX_PENDING_EVENTS
  {
    hide Commit, Insertable;
  }

  lemma {:induction false} RunConserves(rows: seq<TrafficRow>, inputs: seq<Input>)
    ensures Conserved(Run(rows, inputs))
  {
    hide Flushed;
    if inputs != [] {
      var s, input := Run(rows, inputs[..|inputs| - 1]), inputs[|inputs| - 1];
      RunConserves(rows, inputs[..|inputs| - 1]);
      match input
      case Received(traffic, _, outcome) => FlushConserves(Accept(s, traffic), outcome);
      case TimedOut(outcome) => FlushConserves(s, outcome);
      case Closed(outcome) => FlushConserves(s, outcome);
    }
  }

  function WithFate<T>(accepted: seq<T>, fates: seq<Fate>, f: Fate): seq<T>
    requires |fates| <= |accepted|
  {
    if fates == [] then []
    else
      var n := |fates| - 1;
      WithFate(accepted, fates[..n], f) + if fates[n] == f then [accepted[n]] else []
  }

  lemma {:induction false} FatesPartition<T>(accepted: seq<T>, fates: seq<Fate>)
    requires |fates| <= |accepted|
    ensures multiset(accepted[..|fates|]) ==
              multiset(WithFate(accepted, fates, Delivered)) + multiset(WithFate(accepted, fates, Dropped))
  {
    hide WithFate;
    WithFateStep(accepted, fates, Delivered);
    WithFateStep(accepted, fates, Dropped);
    if fates == [] {
      assert accepted[..0] == [];
    } else {
      var n := |fates| - 1;
      FatesPartition(accepted, fates[..n]);
      assert accepted[..|fates|] == accepted[..n] + [accepted[n]];
      OneMore(accepted[..n], WithFate(accepted, fates[..n], Delivered), WithFate(accepted, fates[..n], Dropped), accepted[n]);
    }
  }

  lemma WithFateStep<T>(accepted: seq<T>, fates: seq<Fate>, f: Fate)
    requires |fates| <= |accepted|
    ensures fates == [] ==> WithFate(accepted, fates, f) == []
    ensures fates != [] ==> var n := |fates| - 1;
      WithFate(accepted, fates, f) == WithFate(accepted, fates[..n], f) + if fates[n] == f then [accepted[n]] else []
  {
  }

  lemma OneMore<T>(all: seq<T>, a: seq<T>, b: seq<T>, x: T)
    requires multiset(all) == multiset(a) + multiset(b)
    ensures multiset(all + [x]) == multiset(a + [x]) + multiset(b + [])
    ensures multiset(all + [x]) == multiset(a + []) + multiset(b + [x])
  {
    assert a + [] == a && b + [] == b;
  }

  /** Accepted records are delivered, dropped or pending, each exactly once. */
  lemma NothingLostOrInvented(rows: seq<TrafficRow>, inputs: seq<Input>)
    ensures var s := Run(rows, inputs);
      && |s.fates| <= |s.accepted|
      && multiset(s.accepted) == multiset(WithFate(s.accepted, s.fates, Delivered))
                               + multiset(WithFate(s.accepted, s.fates, Dropped)) + multiset(s.pending)
  {
    var s := Run(rows, inputs);
    RunConserves(rows, inputs);
    FatesPartition(s.accepted, s.fates);
    assert s.accepted == s.accepted[..|s.fates|] + s.pending;
  }

  /** A record is dropped only when 1000 records accepted after it are pending. */
  lemma DroppedOnlyOnOverflow(rows: seq<TrafficRow>, inputs: seq<Input>, i: nat)
    requires inputs != []
    requires var s, s' := Run(rows, inputs[..|inputs| - 1]), Run(rows, inputs);
      |s.fates| <= i < |s'.fates| && s'.fates[i] == Dropped
    ensures var s' := Run(rows, inputs);
      && i + MAX_PENDING_EVENTS < |s'.accepted|
      && s'.pending == s'.accepted[|s'.accepted| - MAX_PENDING_EVENTS..]
  {
    hide Flushed;
    var s := Run(rows, inputs[..|inputs| - 1]);
    RunConserves(rows, inputs);
    RunConserves(rows, inputs[..|inputs| - 1]);
    match inputs[|inputs| - 1]
    case Received(traffic, _, outcome) => FlushDrops(Accept(s, traffic), outcome);
    case TimedOut(outcome) => FlushDrops(s, outcome);
    case Closed(outcome) => FlushDrops(s, outcome);
  }

  lemma FlushDrops(s: Pipeline, outcome: PostOutcome)
    ensures var t := Flushed(s, outcome);
      forall i :: |s.fates| <= i < |t.fates| && t.fates[i] == Dropped ==> |t.pending| == MAX_PENDING_EVENTS
  {
    hide Commit, Insertable;
  }

  /** Once a record has a fate it keeps it. */
  lemma FatesAreFinal(rows: seq<TrafficRow>, inputs: seq<Input>)
    requires inputs != []
    ensures Run(rows, inputs[..|inputs| - 1]).fates <= Run(rows, inputs).fates
    ensures Run(rows, inputs[..|inputs| - 1]).accepted <= Run(rows, inputs).accepted
  {
    hide Flushed;
    var s := Run(rows, inputs[..|inputs| - 1]);
    match inputs[|inputs| - 1]
    case Received(traffic, _, outcome) => FlushExtends(Accept(s, traffic), outcome);
    case TimedOut(outcome) => FlushExtends(s, outcome);
    case Closed(outcome) => FlushExtends(s, outcome);
  }

  lemma FlushExtends(s: Pipeline, outcome: PostOutcome)
    ensures s.fates <= Flushed(s, outcome).fates && Flushed(s, outcome).accepted == s.accepted
  {
    hide Commit, Insertable;
  }

  // ----- delivery into the table

  /** What the controller captures: distinct identifiers, all content columns present, and no
      identifier that the table held before. */
  ghost predicate GoodRecords(accepted: seq<TrafficRow>, rows: seq<TrafficRow>) {
    && UuidsUnique(accepted)
    && (forall e :: e in accepted ==> Populated(e))
    && (forall e, r :: e in accepted && r in rows ==> e.uuid != r.uuid)
  }

  /** The table keeps its first rows and adds accepted records only; every delivered record is
      recognised in it; and identifiers stay unique. */
  ghost predicate Delivery(s: Pipeline, rows: seq<TrafficRow>) {
    && rows <= s.rows
    && (forall i :: |rows| <= i < |s.rows| ==> s.rows[i] in s.accepted)
    && |s.fates| <= |s.accepted|
    && (forall i :: 0 <= i < |s.fates| && s.fates[i] == Delivered ==> Known(s.rows, s.accepted[i]))
    && UuidsUnique(s.rows)
  }

  /** A retried record that is already stored is recognised, so it never collides with its own row. */
  lemma NeverCollides(s: Pipeline, rows: seq<TrafficRow>)
    requires Delivery(s, rows) && GoodRecords(s.accepted, rows)
    requires forall e :: e in s.pending ==> e in s.accepted
    requires UuidsUnique(s.pending)
    ensures Insertable(s.rows, s.pending)
  {
    hide MatchesRow, Populated, KeyOf, NewEvents;
    var added := NewEvents(s.rows, s.pending);
    NewEventsMembers(s.rows, s.pending);
    NewEventsUuids(s.rows, s.pending);
    var all := s.rows + added;
    forall i, j | 0 <= i < |s.rows| <= j < |all| ensures all[i].uuid != all[j].uuid {
      var e := all[j];
      assert e == added[j - |s.rows|] && e in added;
      assert e in s.accepted;
      if i < |rows| {
        assert s.rows[i] == rows[i] && rows[i] in rows;
      } else {
        assert s.rows[i] in s.accepted;
        MatchNeedsPopulated(e, e);
        SameUuidSameRecord(s.accepted, s.rows[i], e);
        assert s.rows[i] in s.rows;
      }
    }
  }

  lemma SameUuidSameRecord(es: seq<TrafficRow>, a: TrafficRow, b: TrafficRow)
    requires UuidsUnique(es) && a in es && b in es
    ensures a.uuid == b.uuid ==> a == b
  {
  }

  lemma {:induction false} NewEventsUuids(rows: seq<TrafficRow>, batch: seq<TrafficRow>)
    requires UuidsUnique(batch)
    ensures UuidsUnique(NewEvents(rows, batch))
    ensures forall e :: e in NewEvents(rows, batch) ==> e in batch
  {
    hide Known, KeyOf;
    if batch != [] {
      var front, e := batch[..|batch| - 1], batch[|batch| - 1];
      assert batch == front + [e];
      NewEventsUuids(rows, front);
      assert forall b :: b in front ==> b.uuid != e.uuid;
      assert NewEvents(rows, batch) == NewEvents(rows, front) || NewEvents(rows, batch) == NewEvents(rows, front) + [e];
    }
  }

  lemma KnownGrows(rows: seq<TrafficRow>, more: seq<TrafficRow>, e: TrafficRow)
    requires Known(rows, e)
    ensures Known(rows + more, e)
  {
    hide MatchesRow;
    var row :| row in rows && MatchesRow(e, row);
    assert row in rows + more;
  }

  lemma FlushDelivers(s: Pipeline, outcome: PostOutcome, rows: seq<TrafficRow>)
    requires Delivery(s, rows) && GoodRecords(s.accepted, rows)
    requires |s.fates| + |s.pending| == |s.accepted| && s.pending == s.accepted[|s.fates|..]
    ensures Delivery(Flushed(s, outcome), rows)
  {
    hide MatchesRow, Populated, KeyOf, NewEvents, Known;
    assert UuidsUnique(s.pending);
    NeverCollides(s, rows);
    var t := Flushed(s, outcome);
    var added := NewEvents(s.rows, s.pending);
    NewEventsUuids(s.rows, s.pending);
    if outcome != Lost && s.pending != [] {
      assert t.rows == s.rows + added;
      forall i | |rows| <= i < |t.rows| ensures t.rows[i] in t.accepted {
        if i < |s.rows| { assert s.rows[i] == t.rows[i]; } else { assert t.rows[i] == added[i - |s.rows|]; }
      }
      forall i | 0 <= i < |t.fates| && t.fates[i] == Delivered ensures Known(t.rows, t.accepted[i]) {
        if i < |s.fates| {
          assert s.fates[i] == t.fates[i];
          KnownGrows(s.rows, added, s.accepted[i]);
        } else {
          var e := s.accepted[i];
          assert e == s.pending[i - |s.fates|] && e in s.pending && e in s.accepted;
          CommittedIsKnown(s.rows, s.pending, e);
        }
      }
    }
  }

  lemma AcceptDelivers(s: Pipeline, traffic: Option<TrafficRow>, rows: seq<TrafficRow>)
    requires Delivery(s, rows)
    ensures Delivery(Accept(s, traffic), rows)
  {
    hide Known, UuidsUnique;
    var t := Accept(s, traffic);
    assert s.accepted <= t.accepted;
  }

  /** Over a whole run, whatever the outcomes of the POSTs: every delivered record is recognised in
      the table, and the table gains accepted records only. The broker never refuses a batch. */
  lemma {:induction false} DeliveredIsStored(rows: seq<TrafficRow>, inputs: seq<Input>)
    requires UuidsUnique(rows) && GoodRecords(Run(rows, inputs).accepted, rows)
    ensures Delivery(Run(rows, inputs), rows)
    ensures Insertable(Run(rows, inputs).rows, Run(rows, inputs).pending)
  {
    hide Flushed, Accept, Insertable;
    RunConserves(rows, inputs);
    if inputs == [] {
      hide Run;
      assert Run(rows, inputs) == Start(rows) by { RunOfNothing(rows); }
    } else {
      var front, input := inputs[..|inputs| - 1], inputs[|inputs| - 1];
      var s := Run(rows, front);
      RunConserves(rows, front);
      FatesAreFinal(rows, inputs);
      PrefixGood(s.accepted, Run(rows, inputs).accepted, rows);
      DeliveredIsStored(rows, front);
      StepDelivers(s, input, rows);
    }
    var s := Run(rows, inputs);
    NeverCollides(s, rows);
  }

  lemma RunOfNothing(rows: seq<TrafficRow>)
    ensures Run(rows, []) == Start(rows)
  {
  }

  lemma PrefixGood(a: seq<TrafficRow>, b: seq<TrafficRow>, rows: seq<TrafficRow>)
    requires a <= b && GoodRecords(b, rows)
    ensures GoodRecords(a, rows)
  {
    hide Populated;
    assert forall e :: e in a ==> e in b;
  }

  lemma StepDelivers(s: Pipeline, input: Input, rows: seq<TrafficRow>)
    requires Delivery(s, rows) && Conserved(s) && GoodRecords(Next(s, input).accepted, rows)
    ensures Delivery(Next(s, input), rows)
  {
    hide Delivery, GoodRecords, Commit, Insertable;
    match input
    case Received(traffic, _, outcome) =>
      AcceptDelivers(s, traffic, rows);
      if !s.closed { FlushDelivers(Accept(s, traffic), outcome, rows); }
    case TimedOut(outcome) => FlushDelivers(s, outcome, rows);
    case Closed(outcome) =>
      FlushDelivers(s, outcome, rows);
      CloseDelivers(Flushed(s, outcome), rows);
  }

  lemma CloseDelivers(s: Pipeline, rows: seq<TrafficRow>)
    requires Delivery(s, rows)
    ensures Delivery(s.(closed := true), rows)
  {
    hide Known, UuidsUnique;
  }

  /** And no record is ever stored twice, however often it is sent. */
  lemma {:induction false} RunNeverStoresTwice(rows: seq<TrafficRow>, inputs: seq<Input>)
    requires NoDuplicates(rows)
    ensures NoDuplicates(Run(rows, inputs).rows)
  {
    hide NoDuplicates, Commit, Insertable;
    if inputs != [] {
      var s := Run(rows, inputs[..|inputs| - 1]);
      RunNeverStoresTwice(rows, inputs[..|inputs| - 1]);
      CommitKeepsNoDuplicates(s.rows, s.pending);
      match inputs[|inputs| - 1]
      case Received(traffic, _, _) => CommitKeepsNoDuplicates(s.rows, Accept(s, traffic).pending);
      case TimedOut(_) =>
      case Closed(_) =>
    }
  }

  // ----- progress

  /** The record a turn of the loop takes. */
  function Taken(input: Input): seq<TrafficRow> {
    if input.Received? && input.traffic.Some? then [input.traffic.value] else []
  }

  /** The turn sends the batch: there is something to send, and the time is up, the channel is
      closed, or after a record 100 are pending or 1000 milliseconds have passed. */
  predicate Sends(pending: nat, input: Input) {
    && pending > 0
    && match input
       case Received(_, elapsed, _) => pending >= 100 || elapsed >= 1000
       case TimedOut(_) => true
       case Closed(_) => true
  }

  /** One turn of an open run. It takes its record. If it sends and the POST is answered, everything
      pending is delivered and nothing is pending any more. If it sends and the POST fails, the last
      1000 stay pending and the older ones are dropped. Otherwise all stay pending. */
  lemma Turn(rows: seq<TrafficRow>, inputs: seq<Input>)
    requires inputs != [] && !Run(rows, inputs[..|inputs| - 1]).closed
    requires UuidsUnique(rows) && GoodRecords(Run(rows, inputs).accepted, rows)
    ensures var s, t, input := Run(rows, inputs[..|inputs| - 1]), Run(rows, inputs), inputs[|inputs| - 1];
      var all := s.pending + Taken(input);
      && t.accepted == s.accepted + Taken(input)
      && (Sends(|all|, input) && input.outcome == Answered ==>
            && t.pending == [] && |t.fates| == |t.accepted|
            && forall i :: |s.fates| <= i < |t.fates| ==> t.fates[i] == Delivered)
      && (Sends(|all|, input) && input.outcome != Answered ==>
            && t.pending == (if |all| > 1000 then all[|all| - 1000..] else all)
            && forall i :: |s.fates| <= i < |t.fates| ==> t.fates[i] == Dropped)
      && (!Sends(|all|, input) ==> t.pending == all && t.fates == s.fates && t.rows == s.rows)
      && (t.closed <==> input.Closed?)
  {
    hide GoodRecords, UuidsUnique, Insertable, Commit;
    var front, input := inputs[..|inputs| - 1], inputs[|inputs| - 1];
    var s := Run(rows, front);
    RunConserves(rows, front);
    FatesAreFinal(rows, inputs);
    PrefixGood(s.accepted, Run(rows, inputs).accepted, rows);
    DeliveredIsStored(rows, front);
    assert s.pending + [] == s.pending && s.accepted + [] == s.accepted;
    match input
    case Received(traffic, elapsed, outcome) =>
      var t := Accept(s, traffic);
      AcceptStaysInsertable(s, traffic, rows);
      FlushTurn(t, outcome);
    case TimedOut(outcome) => FlushTurn(s, outcome);
    case Closed(outcome) => FlushTurn(s, outcome);
  }

  lemma AcceptStaysInsertable(s: Pipeline, traffic: Option<TrafficRow>, rows: seq<TrafficRow>)
    requires Delivery(s, rows) && Conserved(s) && GoodRecords(Accept(s, traffic).accepted, rows)
    ensures Insertable(s.rows, Accept(s, traffic).pending)
  {
    hide Known, KeyOf, Populated, NewEvents;
    var t := Accept(s, traffic);
    AcceptDelivers(s, traffic, rows);
    assert t.pending == t.accepted[|t.fates|..];
    assert UuidsUnique(t.pending);
    NeverCollides(t, rows);
  }

  lemma FlushTurn(s: Pipeline, outcome: PostOutcome)
    requires Insertable(s.rows, s.pending) && |s.fates| + |s.pending| == |s.accepted|
    ensures var t := Flushed(s, outcome);
      && t.accepted == s.accepted && t.closed == s.closed
      && (s.pending == [] ==> t == s)
      && (s.pending != [] && outcome == Answered ==>
            && t.pending == [] && |t.fates| == |t.accepted|
            && forall i :: |s.fates| <= i < |t.fates| ==> t.fates[i] == Delivered)
      && (s.pending != [] && outcome != Answered ==>
            && t.pending == (if |s.pending| > 1000 then s.pending[|s.pending| - 1000..] else s.pending)
            && forall i :: |s.fates| <= i < |t.fates| ==> t.fates[i] == Dropped)
  {
    hide Insertable, Commit;
  }

  /** What a turn does to the broker's table: nothing if its POST is lost; otherwise, if it sends,
      every record that was pending is recognised there from then on, answered or not. */
  lemma TurnStores(rows: seq<TrafficRow>, inputs: seq<Input>)
    requires inputs != [] && !Run(rows, inputs[..|inputs| - 1]).closed
    requires UuidsUnique(rows) && GoodRecords(Run(rows, inputs).accepted, rows)
    ensures var s, t, input := Run(rows, inputs[..|inputs| - 1]), Run(rows, inputs), inputs[|inputs| - 1];
      var all := s.pending + Taken(input);
      && (input.outcome == Lost ==> t.rows == s.rows)
      && (Sends(|all|, input) && input.outcome != Lost ==> forall e :: e in all ==> Known(t.rows, e))
  {
    hide GoodRecords, UuidsUnique, Insertable, NewEvents, Known, Populated;
    var front, input := inputs[..|inputs| - 1], inputs[|inputs| - 1];
    var s := Run(rows, front);
    RunConserves(rows, front);
    FatesAreFinal(rows, inputs);
    PrefixGood(s.accepted, Run(rows, inputs).accepted, rows);
    DeliveredIsStored(rows, front);
    assert s.pending + [] == s.pending;
    match input
    case Received(traffic, elapsed, outcome) =>
      var t := Accept(s, traffic);
      AcceptStaysInsertable(s, traffic, rows);
      PendingGood(t, rows);
      FlushStores(t, outcome);
    case TimedOut(outcome) => PendingGood(s, rows); FlushStores(s, outcome);
    case Closed(outcome) => PendingGood(s, rows); FlushStores(s, outcome);
  }

  lemma PendingGood(s: Pipeline, rows: seq<TrafficRow>)
    requires GoodRecords(s.accepted, rows) && |s.fates| <= |s.accepted| && s.pending == s.accepted[|s.fates|..]
    ensures forall e :: e in s.pending ==> Populated(e)
  {
    hide Populated;
    forall e | e in s.pending ensures e in s.accepted { }
  }

  lemma FlushStores(s: Pipeline, outcome: PostOutcome)
    requires Insertable(s.rows, s.pending) && forall e :: e in s.pending ==> Populated(e)
    ensures outcome == Lost ==> Flushed(s, outcome).rows == s.rows
    ensures outcome != Lost ==> forall e :: e in s.pending ==> Known(Flushed(s, outcome).rows, e)
  {
    hide NewEvents, UuidsUnique, Known, Populated;
    if outcome != Lost && s.pending != [] {
      forall e | e in s.pending ensures Known(Flushed(s, outcome).rows, e) { CommittedIsKnown(s.rows, s.pending, e); }
    }
  }
}
