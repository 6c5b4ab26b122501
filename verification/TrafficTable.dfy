/** broker/src/add.rs: filtering duplicate traffic records before inserting a batch. */
module TrafficTable {
  import opened Common
  import opened TrafficRows

  /** The columns that identify a record within a batch. */
  datatype ContentKey = ContentKey(
    podIp: Option<string>, podPort: Option<string>, ipProtocol: Option<string>, trafficType: Option<string>,
    ioIp: Option<string>, ioPort: Option<string>, decision: Option<string>)

  function KeyOf(e: TrafficRow): ContentKey {
    ContentKey(e.podIp, e.podPort, e.ipProtocol, e.trafficType, e.ioIp, e.ioPort, e.decision)
  }

  /** SQL equality: an absent value equals nothing, itself included. */
  predicate SqlEq(a: Option<string>, b: Option<string>) { a.Some? && a == b }

  /** The filters of get_row. For UDP two coarser queries, otherwise one that ignores the protocol. */
  predicate MatchesRow(e: TrafficRow, row: TrafficRow) {
    var common := SqlEq(row.podIp, e.podIp) && SqlEq(row.trafficType, e.trafficType)
                  && SqlEq(row.ioIp, e.ioIp) && SqlEq(row.decision, e.decision);
    if e.ipProtocol == Some("UDP") then common && (SqlEq(row.ioPort, e.ioPort) || SqlEq(row.podPort, e.podPort))
    else common && SqlEq(row.podPort, e.podPort) && SqlEq(row.ioPort, e.ioPort)
  }

  /** get_row finds a row. */
  predicate Known(rows: seq<TrafficRow>, e: TrafficRow) {
    exists row :: row in rows && MatchesRow(e, row)
  }

  /** Enough columns are present for a record to match its own row. */
  predicate Populated(e: TrafficRow) {
    && e.podIp.Some? && e.trafficType.Some? && e.ioIp.Some? && e.decision.Some?
    && (if e.ipProtocol == Some("UDP") then e.podPort.Some? || e.ioPort.Some? else e.podPort.Some? && e.ioPort.Some?)
  }

  predicate SeenIn(batch: seq<TrafficRow>, e: TrafficRow) {
    exists b :: b in batch && KeyOf(b) == KeyOf(e)
  }

  /** The records of a batch that are inserted. */
  function NewEvents(rows: seq<TrafficRow>, batch: seq<TrafficRow>): seq<TrafficRow> {
    if batch == [] then []
    else
      var front, e := batch[..|batch| - 1], batch[|batch| - 1];
      NewEvents(rows, front) + if SeenIn(front, e) || Known(rows, e) then [] else [e]
  }

  /** uuid is the primary key: inserting one twice fails the whole statement. */
  predicate UuidsUnique(rows: seq<TrafficRow>) {
    forall i, j :: 0 <= i < j < |rows| ==> rows[i].uuid != rows[j].uuid
  }

  datatype Insertion = Inserted(events: seq<TrafficRow>) | Failed

  /** What a call does to the table. */
  function Commit(rows: seq<TrafficRow>, batch: seq<TrafficRow>): seq<TrafficRow> {
    if UuidsUnique(rows + NewEvents(rows, batch)) then rows + NewEvents(rows, batch) else rows
  }

  class Table {
    var rows: seq<TrafficRow>

    constructor (rows: seq<TrafficRow>)
      ensures this.rows == rows
    {
      this.rows := rows;
    }

    predicate GetRowIsSome(e: TrafficRow)
      reads this
    {
      Known(rows, e)
    }

    method CreatePodTrafficBatch(batch: seq<TrafficRow>) returns (r: Insertion)
      requires UuidsUnique(rows)
      modifies this
      ensures UuidsUnique(rows) && rows == Commit(old(rows), batch)
      ensures r == if UuidsUnique(old(rows) + NewEvents(old(rows), batch)) then Inserted(NewEvents(old(rows), batch)) else Failed
    {
      hide KeyOf, Known;
      assert rows + [] == rows;
      if |batch| == 0 { return Inserted([]); }
      var eventsToInsert := [];
      var seenInBatch: set<ContentKey> := {};
      for i := 0 to |batch|
        invariant eventsToInsert == NewEvents(rows, batch[..i])
        invariant forall k :: k in seenInBatch <==> exists b :: b in batch[..i] && KeyOf(b) == k
        invariant rows == old(rows)
      {
        var event := batch[i];
        assert batch[..i + 1] == batch[..i] + [event] && batch[..i + 1][..i] == batch[..i];
        assert KeyOf(event) in seenInBatch <==> SeenIn(batch[..i], event);
        if KeyOf(event) in seenInBatch { continue; }
        seenInBatch := seenInBatch + {KeyOf(event)};
        if !GetRowIsSome(event) {
          eventsToInsert := eventsToInsert + [event];
        }
      }
      assert batch[..|batch|] == batch;
      if |eventsToInsert| == 0 { return Inserted([]); }
      if !UuidsUnique(rows + eventsToInsert) { return Failed; }
      rows := rows + eventsToInsert;
      return Inserted(eventsToInsert);
    }
  }

  // ----- what one call inserts

  predicate DistinctKeys(es: seq<TrafficRow>) {
    forall i, j :: 0 <= i < j < |es| ==> KeyOf(es[i]) != KeyOf(es[j])
  }

  lemma {:induction false} NewEventsMembers(rows: seq<TrafficRow>, batch: seq<TrafficRow>)
    ensures forall e :: e in NewEvents(rows, batch) ==> e in batch && !Known(rows, e)
    ensures DistinctKeys(NewEvents(rows, batch))
  {
    hide Known, KeyOf;
    if batch != [] {
      var front, e := batch[..|batch| - 1], batch[|batch| - 1];
      assert batch == front + [e];
      NewEventsMembers(rows, front);
      var before := NewEvents(rows, front);
      if !SeenIn(front, e) && !Known(rows, e) {
        assert NewEvents(rows, batch) == before + [e];
        forall i | 0 <= i < |before| ensures KeyOf(before[i]) != KeyOf(e) { assert before[i] in before; }
      } else {
        assert NewEvents(rows, batch) == before;
      }
    }
  }

  /** Every record of the batch that was not known is inserted, itself or by its content. */
  lemma {:induction false} NewEventsComplete(rows: seq<TrafficRow>, batch: seq<TrafficRow>, e: TrafficRow)
    requires e in batch && !Known(rows, e)
    ensures SeenIn(NewEvents(rows, batch), e)
  {
    hide Known, KeyOf;
    var front, last := batch[..|batch| - 1], batch[|batch| - 1];
    assert batch == front + [last];
    var before, after := NewEvents(rows, front), NewEvents(rows, batch);
    assert before <= after;
    if e in front {
      NewEventsComplete(rows, front, e);
      SeenInMore(before, after, e);
    } else if SeenIn(front, e) {
      var b :| b in front && KeyOf(b) == KeyOf(e);
      KnownByKey(rows, b, e);
      NewEventsComplete(rows, front, b);
      SeenInMore(before, after, b);
    } else {
      assert after == before + [e];
      assert e in after;
    }
  }

  lemma SeenInMore(a: seq<TrafficRow>, b: seq<TrafficRow>, e: TrafficRow)
    requires a <= b && SeenIn(a, e)
    ensures SeenIn(b, e)
  {
    hide KeyOf;
    var x :| x in a && KeyOf(x) == KeyOf(e);
    assert x in b;
  }

  lemma SameKeyMatchesSame(a: TrafficRow, b: TrafficRow, row: TrafficRow)
    requires KeyOf(a) == KeyOf(b)
    ensures MatchesRow(a, row) == MatchesRow(b, row)
    ensures MatchesRow(row, a) == MatchesRow(row, b)
    ensures Populated(a) == Populated(b)
  {
  }

  lemma KnownByKey(rows: seq<TrafficRow>, a: TrafficRow, b: TrafficRow)
    requires KeyOf(a) == KeyOf(b)
    ensures Known(rows, a) <==> Known(rows, b)
  {
    hide MatchesRow, KeyOf;
    forall row { SameKeyMatchesSame(a, b, row); }
  }

  lemma MatchNeedsPopulated(e: TrafficRow, row: TrafficRow)
    ensures MatchesRow(e, row) ==> Populated(e)
    ensures Populated(e) ==> MatchesRow(e, e)
  {
  }

  /** After a batch is committed, a record of the batch has a row get_row finds exactly when its
      columns are populated. */
  lemma CommittedIsKnown(rows: seq<TrafficRow>, batch: seq<TrafficRow>, e: TrafficRow)
    requires e in batch
    ensures Known(rows + NewEvents(rows, batch), e) <==> Populated(e)
  {
    hide MatchesRow, Populated, KeyOf;
    var after := rows + NewEvents(rows, batch);
    if row :| row in after && MatchesRow(e, row) { MatchNeedsPopulated(e, row); }
    if Populated(e) {
      if Known(rows, e) {
        var row :| row in rows && MatchesRow(e, row);
        assert row in after;
      } else {
        NewEventsComplete(rows, batch, e);
        var b :| b in NewEvents(rows, batch) && KeyOf(b) == KeyOf(e);
        MatchNeedsPopulated(e, e);
        SameKeyMatchesSame(b, e, e);
        assert b in after;
      }
    }
  }

  /** A record of a committed batch is stored with its content exactly when its content was stored
      before or get_row found no row for it. get_row is the coarser of the two: what it takes for
      another row is not stored, even if the contents differ. */
  lemma StoredByContentIff(rows: seq<TrafficRow>, batch: seq<TrafficRow>, e: TrafficRow)
    requires e in batch
    ensures SeenIn(rows + NewEvents(rows, batch), e) <==> SeenIn(rows, e) || !Known(rows, e)
  {
    hide Known, KeyOf;
    var added := NewEvents(rows, batch);
    var after := rows + added;
    if b :| b in after && KeyOf(b) == KeyOf(e) {
      if b in added {
        NewEventsMembers(rows, batch);
        KnownByKey(rows, b, e);
      }
    }
    if !Known(rows, e) {
      NewEventsComplete(rows, batch, e);
      var b :| b in added && KeyOf(b) == KeyOf(e);
      assert b in after;
    }
    if SeenIn(rows, e) { SeenInMore(rows, after, e); }
  }

  /** DNS, then NTP, from one pod to one address, as the controller reports them, with "0" for the
      pod port: the second query of get_row ignores the peer's port, so the NTP flow is not stored. */
  lemma SecondUdpFlowIsNotStored()
    ensures var dns := TrafficRow("1", Some("web"), Some("shop"), Some("10.0.0.1"), Some("0"), Some("UDP"), Some("EGRESS"),
                                  Some("10.0.0.2"), Some("53"), Some("ALLOW"));
      var ntp := dns.(uuid := "2", ioPort := Some("123"));
      KeyOf(ntp) != KeyOf(dns) && NewEvents([dns], [ntp]) == []
  {
    var dns := TrafficRow("1", Some("web"), Some("shop"), Some("10.0.0.1"), Some("0"), Some("UDP"), Some("EGRESS"),
                          Some("10.0.0.2"), Some("53"), Some("ALLOW"));
    var ntp := dns.(uuid := "2", ioPort := Some("123"));
    assert |ntp.ioPort.value| != |dns.ioPort.value|;
    assert dns in [dns] && MatchesRow(ntp, dns);
    AllKnownInsertsNothing([dns], [ntp]);
  }

  /** A record without a decision is never recognised: sent again, it is stored again. */
  lemma UndecidedRecordIsStoredTwice()
    ensures var first := TrafficRow("1", None, None, Some("10.0.0.1"), Some("4000"), Some("TCP"), Some("EGRESS"),
                                    Some("10.0.0.2"), Some("53"), None);
      var again := first.(uuid := "2");
      KeyOf(again) == KeyOf(first) && NewEvents([first], [again]) == [again]
  {
    var first := TrafficRow("1", None, None, Some("10.0.0.1"), Some("4000"), Some("TCP"), Some("EGRESS"),
                            Some("10.0.0.2"), Some("53"), None);
    var again := first.(uuid := "2");
    assert [again][..0] == [];
    assert !Known([first], again) && !SeenIn([], again);
  }

  // ----- the same, in columns

  /** The two agree on the seven content columns. */
  predicate SameContent(a: TrafficRow, b: TrafficRow) {
    && a.podIp == b.podIp && a.podPort == b.podPort && a.ipProtocol == b.ipProtocol && a.trafficType == b.trafficType
    && a.ioIp == b.ioIp && a.ioPort == b.ioPort && a.decision == b.decision
  }

  lemma KeyIsContent(a: TrafficRow, b: TrafficRow)
    ensures KeyOf(a) == KeyOf(b) <==> SameContent(a, b)
  {
  }

  /** Row and record agree on the pod's address, the direction, the peer's address and the decision,
      and on both ports, or for a UDP record on one of them. */
  predicate SameFlow(e: TrafficRow, row: TrafficRow) {
    && row.podIp == e.podIp && row.trafficType == e.trafficType && row.ioIp == e.ioIp && row.decision == e.decision
    && if e.ipProtocol == Some("UDP") then row.podPort == e.podPort || row.ioPort == e.ioPort
       else row.podPort == e.podPort && row.ioPort == e.ioPort
  }

  /** A record of a committed batch that agrees with no earlier row is stored with all its content
      columns: in particular one to another peer, of another pod, in the other direction, or with
      another decision. */
  lemma UnseenFlowIsStored(rows: seq<TrafficRow>, batch: seq<TrafficRow>, e: TrafficRow)
    requires e in batch && UuidsUnique(rows + NewEvents(rows, batch))
    requires forall row :: row in rows ==> !SameFlow(e, row)
    ensures exists row :: row in Commit(rows, batch) && SameContent(row, e)
  {
    hide KeyOf, NewEvents, UuidsUnique;
    NewEventsComplete(rows, batch, e);
    var row :| row in NewEvents(rows, batch) && KeyOf(row) == KeyOf(e);
    KeyIsContent(row, e);
    assert row in Commit(rows, batch);
  }

  /** A record with all its columns inserts nothing exactly if some row agrees with it. */
  lemma SeenFlowInsertsNothing(rows: seq<TrafficRow>, e: TrafficRow)
    requires e.podIp.Some? && e.podPort.Some? && e.trafficType.Some? && e.ioIp.Some? && e.ioPort.Some? && e.decision.Some?
    ensures NewEvents(rows, [e]) == [] <==> exists row :: row in rows && SameFlow(e, row)
    ensures NewEvents(rows, [e]) == [] || NewEvents(rows, [e]) == [e]
  {
    hide KeyOf, MatchesRow;
    assert [e][..0] == [];
    assert !SeenIn([], e);
    forall row { MatchesIffSame(e, row); }
  }

  lemma MatchesIffSame(e: TrafficRow, row: TrafficRow)
    requires e.podIp.Some? && e.podPort.Some? && e.trafficType.Some? && e.ioIp.Some? && e.ioPort.Some? && e.decision.Some?
    ensures MatchesRow(e, row) <==> SameFlow(e, row)
  {
  }

  /** And an absent column it filters on keeps a record from being recognised at all. */
  lemma AbsentColumnNeverMatches(rows: seq<TrafficRow>, e: TrafficRow)
    requires
      || e.podIp.None? || e.trafficType.None? || e.ioIp.None? || e.decision.None?
      || (e.ipProtocol != Some("UDP") && (e.podPort.None? || e.ioPort.None?))
      || (e.podPort.None? && e.ioPort.None?)
    ensures NewEvents(rows, [e]) == [e]
  {
    hide KeyOf;
    assert [e][..0] == [];
    assert !SeenIn([], e) && !Known(rows, e);
  }

  lemma {:induction false} AllKnownInsertsNothing(rows: seq<TrafficRow>, batch: seq<TrafficRow>)
    requires forall e :: e in batch ==> Known(rows, e)
    ensures NewEvents(rows, batch) == []
  {
    hide Known;
    if batch != [] {
      assert batch[|batch| - 1] in batch;
      AllKnownInsertsNothing(rows, batch[..|batch| - 1]);
    }
  }

  /** Resending any populated records of a committed batch, in any order and number, inserts nothing. */
  lemma ResendInsertsNothing(rows: seq<TrafficRow>, batch: seq<TrafficRow>, again: seq<TrafficRow>)
    requires forall e :: e in again ==> e in batch && Populated(e)
    ensures NewEvents(rows + NewEvents(rows, batch), again) == []
  {
    hide Known, Populated;
    forall e | e in again { CommittedIsKnown(rows, batch, e); }
    AllKnownInsertsNothing(rows + NewEvents(rows, batch), again);
  }

  // ----- the table over any number of calls

  /** No two rows hold the same record, but for records too empty to be recognised. */
  predicate NoDuplicates(rows: seq<TrafficRow>) {
    forall i, j :: 0 <= i < j < |rows| && Populated(rows[i]) ==> KeyOf(rows[i]) != KeyOf(rows[j])
  }

  lemma CommitKeepsNoDuplicates(rows: seq<TrafficRow>, batch: seq<TrafficRow>)
    requires NoDuplicates(rows)
    ensures NoDuplicates(Commit(rows, batch))
  {
    hide MatchesRow, Populated, KeyOf, NewEvents;
    NewEventsMembers(rows, batch);
    var added := NewEvents(rows, batch);
    var after := rows + added;
    forall i, j | 0 <= i < j < |after| && Populated(after[i]) ensures KeyOf(after[i]) != KeyOf(after[j]) {
      if i < |rows| <= j {
        assert after[j] in added && after[i] in rows;
        MatchNeedsPopulated(after[i], after[i]);
        if KeyOf(after[i]) == KeyOf(after[j]) { SameKeyMatchesSame(after[i], after[j], after[i]); }
      } else if |rows| <= i {
        assert after[i] == added[i - |rows|] && after[j] == added[j - |rows|];
      }
    }
  }

  /** In columns: no two rows with all columns agree on all of them. */
  lemma NoDuplicatesInColumns(rows: seq<TrafficRow>, i: nat, j: nat)
    requires NoDuplicates(rows) && i < j < |rows|
    requires rows[i].podIp.Some? && rows[i].podPort.Some? && rows[i].trafficType.Some? && rows[i].ioIp.Some?
             && rows[i].ioPort.Some? && rows[i].decision.Some?
    ensures !SameContent(rows[i], rows[j])
  {
    KeyIsContent(rows[i], rows[j]);
  }

  function AfterAll(rows: seq<TrafficRow>, batches: seq<seq<TrafficRow>>): seq<TrafficRow> {
    if batches == [] then rows else Commit(AfterAll(rows, batches[..|batches| - 1]), batches[|batches| - 1])
  }

  /** Whatever batches arrive, retried ones included, no record is stored twice, and no row is lost. */
  lemma {:induction false} NeverStoredTwice(rows: seq<TrafficRow>, batches: seq<seq<TrafficRow>>)
    requires NoDuplicates(rows)
    ensures NoDuplicates(AfterAll(rows, batches)) && rows <= AfterAll(rows, batches)
  {
    hide NoDuplicates;
    if batches != [] {
      NeverStoredTwice(rows, batches[..|batches| - 1]);
      CommitKeepsNoDuplicates(AfterAll(rows, batches[..|batches| - 1]), batches[|batches| - 1]);
    }
  }
}
