/** controller/src/syscall.rs and the broker's syscall table: sending each pod's set of
    system calls until the broker has acknowledged it, and reading it back. */
module Syscalls {
  import opened Common
  import opened Ordering
  import opened Text

  const ARCH := "x86_64"

  datatype Entry = Entry(podName: string, podNs: string, arch: string, syscalls: seq<string>)

  datatype Row = Row(podNs: string, arch: string, syscalls: string)

  /** The table, by its primary key: the pod name. */
  type Rows = map<string, Row>

  // ----- the broker

  predicate IsBlank(s: string) { forall c :: c in s ==> UnicodeSpace(c) }

  /** One entry: blank names are skipped, a row of the same pod, namespace and architecture is
      replaced, a new pod is inserted; any other row of that pod breaks the primary key. */
  function StoreOne(rows: Rows, e: Entry): Option<Rows> {
    if IsBlank(e.podName) then Some(rows)
    else if e.podName !in rows || (rows[e.podName].podNs == e.podNs && rows[e.podName].arch == e.arch)
    then Some(rows[e.podName := Row(e.podNs, e.arch, Join(e.syscalls, ','))])
    else None
  }

  /** The transaction: all entries or none. */
  function StoreAll(rows: Rows, batch: seq<Entry>): Option<Rows> {
    if batch == [] then Some(rows)
    else match StoreAll(rows, batch[..|batch| - 1])
      case Some(m) => StoreOne(m, batch[|batch| - 1])
      case None => None
  }

  class SyscallTable {
    var rows: Rows

    constructor ()
      ensures rows == map[]
    {
      rows := map[];
    }

    method CreatePodSyscalls(batch: seq<Entry>) returns (ok: bool)
      modifies this
      ensures ok == StoreAll(old(rows), batch).Some?
      ensures rows == StoreAll(old(rows), batch).GetOr(old(rows))
    {
      var work := rows;
      for i := 0 to |batch|
        invariant StoreAll(old(rows), batch[..i]) == Some(work)
        invariant rows == old(rows)
      {
        assert batch[..i + 1][..i] == batch[..i];
        var e := batch[i];
        if IsBlank(e.podName) { continue; }
        var joined := Join(e.syscalls, ',');
        var existing := e.podName in work && work[e.podName].podNs == e.podNs && work[e.podName].arch == e.arch;
        if existing {
          work := work[e.podName := work[e.podName].(syscalls := joined)];
        } else {
          if e.podName in work {
            StoreAllFails(old(rows), batch, i + 1);
            return false;
          }
          work := work[e.podName := Row(e.podNs, e.arch, joined)];
        }
      }
      assert batch[..|batch|] == batch;
      rows := work;
      return true;
    }

    /** GetPodSysCall, the reader: splits the stored column. */
    method GetPodSysCall(podName: string) returns (r: Option<seq<string>>)
      ensures r == if podName in rows then Some(Split(rows[podName].syscalls, ',')) else None
    {
      if podName !in rows { return None; }
      return Some(Split(rows[podName].syscalls, ','));
    }
  }

  lemma {:induction false} StoreAllFails(rows: Rows, batch: seq<Entry>, i: nat)
    requires i <= |batch| && StoreAll(rows, batch[..i]).None?
    ensures StoreAll(rows, batch).None?
    decreases |batch| - i
  {
    if i < |batch| {
      assert batch[..i + 1][..i] == batch[..i];
      StoreAllFails(rows, batch, i + 1);
    } else {
      assert batch[..i] == batch;
    }
  }

  // ----- the protocol as a state machine

  /** pending: the snapshots of the pass under way; posted: the broker has committed them. */
  datatype State = State(
    cache: map<string, set<string>>, lastSent: map<string, set<string>>, pending: seq<Entry>, posted: bool, rows: Rows)

  /** A system call is seen; the pass takes the snapshot of a pod, in some order of its set; the
      broker commits the batch; the controller learns the outcome, or believes it failed. */
  datatype Step =
    | Observe(pod: string, name: string)
    | Collect(pod: string, names: seq<string>)
    | Commit
    | Conclude(ok: bool)

  /** What becomes of a POST: the network may lose it, or lose only its answer. */
  datatype PostOutcome = Answered | Lost | CommittedButUnanswered

  /** The entry of a pod with a set of names, each once, in some order. */
  predicate Carries(e: Entry, pod: string, names: set<string>) {
    e.podName == pod && e.podNs == "" && e.arch == ARCH && Distinct(e.syscalls) && ToSet(e.syscalls) == names
  }

  predicate DistinctPods(batch: seq<Entry>) {
    forall i, j :: 0 <= i < j < |batch| ==> batch[i].podName != batch[j].podName
  }

  /** The set of a pod is not the one last sent. */
  predicate Differs(cache: map<string, set<string>>, lastSent: map<string, set<string>>, pod: string) {
    pod in cache && cache[pod] != SetOf(lastSent, pod)
  }

  predicate Sends(batch: seq<Entry>, pod: string) { exists e :: e in batch && e.podName == pod }

  /** The batch has exactly one entry for each of the pods that differs, with its whole set. */
  ghost predicate Snapshots(
    batch: seq<Entry>, cache: map<string, set<string>>, lastSent: map<string, set<string>>, pods: set<string>)
  {
    && DistinctPods(batch)
    && (forall pod :: Sends(batch, pod) <==> pod in pods && Differs(cache, lastSent, pod))
    && (forall e :: e in batch && e.podName in cache ==> Carries(e, e.podName, cache[e.podName]))
  }

  lemma NoSnapshots(cache: map<string, set<string>>, lastSent: map<string, set<string>>)
    ensures Snapshots([], cache, lastSent, {})
  {
  }

  lemma OneMorePod(
    batch: seq<Entry>, more: seq<Entry>, cache: map<string, set<string>>, lastSent: map<string, set<string>>,
    pods: set<string>, pod: string)
    requires Snapshots(batch, cache, lastSent, pods) && pod !in pods && pod in cache
    requires if Differs(cache, lastSent, pod)
             then |more| == |batch| + 1 && more[..|batch|] == batch && Carries(more[|batch|], pod, cache[pod])
             else more == batch
    ensures Snapshots(more, cache, lastSent, pods + {pod})
  {
    hide Differs;
    if Differs(cache, lastSent, pod) {
      var e := more[|batch|];
      assert more == batch + [e];
      forall p ensures Sends(more, p) <==> Sends(batch, p) || p == pod {
        if Sends(batch, p) { var b :| b in batch && b.podName == p; assert b in more; }
        if p == pod { assert e in more; }
      }
      forall b | b in batch ensures b.podName != pod { assert Sends(batch, b.podName); }
    }
  }

  lemma EmptyIffNoDifference(batch: seq<Entry>, cache: map<string, set<string>>, lastSent: map<string, set<string>>)
    requires Snapshots(batch, cache, lastSent, cache.Keys)
    ensures batch == [] <==> !exists pod :: Differs(cache, lastSent, pod)
  {
    if batch != [] { assert batch[0] in batch && Sends(batch, batch[0].podName); }
  }

  function SetOf(m: map<string, set<string>>, pod: string): set<string> {
    if pod in m then m[pod] else {}
  }

  predicate Enabled(s: State, step: Step) {
    match step
    case Observe(_, _) => true
    case Collect(pod, names) =>
      && !s.posted && (forall e :: e in s.pending ==> e.podName != pod)
      && SetOf(s.cache, pod) != SetOf(s.lastSent, pod)
      && Distinct(names) && ToSet(names) == SetOf(s.cache, pod)
    case Commit => !s.posted && s.pending != [] && StoreAll(s.rows, s.pending).Some?
    case Conclude(ok) => s.pending != [] && (ok ==> s.posted)
  }

  /** What was sent becomes what was last sent. */
  function Acknowledge(lastSent: map<string, set<string>>, batch: seq<Entry>): map<string, set<string>> {
    if batch == [] then lastSent
    else
      var e := batch[|batch| - 1];
      Acknowledge(lastSent, batch[..|batch| - 1])[e.podName := ToSet(e.syscalls)]
  }

  function Next(s: State, step: Step): State {
    if !Enabled(s, step) then s
    else match step
      case Observe(pod, name) => s.(cache := s.cache[pod := SetOf(s.cache, pod) + {name}])
      case Collect(pod, names) => s.(pending := s.pending + [Entry(pod, "", ARCH, names)])
      case Commit => s.(rows := StoreAll(s.rows, s.pending).value, posted := true)
      case Conclude(ok) =>
        s.(pending := [], posted := false, lastSent := if ok then Acknowledge(s.lastSent, s.pending) else s.lastSent)
  }

  function Start(): State { State(map[], map[], [], false, map[]) }

  function Run(steps: seq<Step>): State {
    if steps == [] then Start() else Next(Run(steps[..|steps| - 1]), steps[|steps| - 1])
  }

  // ----- the running code

  class SyscallSync {
    const table: SyscallTable
    var syscallCache: map<string, set<string>>
    var lastSentCache: map<string, set<string>>
    var batch: seq<Entry>
    var posted: bool

    ghost function View(): State
      reads this, table
    {
      State(syscallCache, lastSentCache, batch, posted, table.rows)
    }

    constructor (table: SyscallTable)
      requires table.rows == map[]
      ensures this.table == table && View() == Start()
    {
      this.table := table;
      syscallCache, lastSentCache, batch, posted := map[], map[], [], false;
    }

    method ProcessSyscallEvent(podName: string, syscallName: string)
      modifies this
      ensures View() == Next(old(View()), Observe(podName, syscallName))
    {
      if podName !in syscallCache { syscallCache := syscallCache[podName := {}]; }
      if syscallName in syscallCache[podName] {
        assert syscallCache[podName] + {syscallName} == syscallCache[podName];
      } else {
        syscallCache := syscallCache[podName := syscallCache[podName] + {syscallName}];
      }
    }

    /** The body of the collecting loop, for one pod: a snapshot of its set exactly if it differs. */
    method CollectPod(podName: string) returns (ghost step: Step)
      requires !posted && podName in syscallCache && !Sends(batch, podName)
      modifies this`batch
      ensures View() == Next(old(View()), step) && step.Collect? && step.pod == podName
      ensures if Differs(syscallCache, lastSentCache, podName)
              then |batch| == |old(batch)| + 1 && batch[..|old(batch)|] == old(batch)
                   && Carries(batch[|old(batch)|], podName, syscallCache[podName])
              else batch == old(batch)
    {
      var snapshot := syscallCache[podName];
      var lastSent := SetOf(lastSentCache, podName);
      var names := Enumerate(snapshot);
      step := Collect(podName, names);
      assert ToSet(names) == snapshot;
      if snapshot != lastSent {
        batch := batch + [Entry(podName, "", ARCH, names)];
      }
    }

    /** The collecting loop over the whole cache, when nothing interleaves: the batch has one entry
        for each pod that differs, with its whole set, and none for the others. */
    method CollectAll() returns (ghost steps: seq<Step>)
      requires !posted && batch == []
      modifies this`batch
      ensures View() == Continue(old(View()), steps) && Quiet(steps)
      ensures Snapshots(batch, syscallCache, lastSentCache, syscallCache.Keys)
      ensures batch == [] <==> !exists pod :: Differs(syscallCache, lastSentCache, pod)
    {
      hide Differs, Carries, DistinctPods;
      var pods := Enumerate(syscallCache.Keys);
      steps := [];
      NoSnapshots(syscallCache, lastSentCache);
      for i := 0 to |pods|
        invariant View() == Continue(old(View()), steps) && Quiet(steps)
        invariant Snapshots(batch, syscallCache, lastSentCache, ToSet(pods[..i]))
      {
        assert pods[..i + 1] == pods[..i] + [pods[i]];
        ghost var before := batch;
        assert !Sends(batch, pods[i]);
        ghost var step := CollectPod(pods[i]);
        OneMorePod(before, batch, syscallCache, lastSentCache, ToSet(pods[..i]), pods[i]);
        assert ToSet(pods[..i + 1]) == ToSet(pods[..i]) + {pods[i]};
        assert (steps + [step])[..|steps|] == steps;
        steps := steps + [step];
      }
      assert ToSet(pods[..|pods|]) == syscallCache.Keys;
      EmptyIffNoDifference(batch, syscallCache, lastSentCache);
    }

    /** The POST reaches the broker. */
    method PostCommits() returns (ok: bool)
      requires !posted && batch != []
      modifies this, table
      ensures ok == StoreAll(old(table.rows), batch).Some?
      ensures View() == Next(old(View()), Commit)
    {
      ok := table.CreatePodSyscalls(batch);
      if ok { posted := true; }
    }

    /** The controller's match on the result of the POST. */
    method PostConcludes(ok: bool)
      requires batch != [] && (ok ==> posted)
      modifies this
      ensures View() == Next(old(View()), Conclude(ok))
    {
      if ok {
        var sent := lastSentCache;
        for i := 0 to |batch|
          invariant sent == Acknowledge(old(lastSentCache), batch[..i])
          invariant View() == old(View())
        {
          assert batch[..i + 1][..i] == batch[..i];
          sent := sent[batch[i].podName := ToSet(batch[i].syscalls)];
        }
        assert batch[..|batch|] == batch;
        lastSentCache := sent;
      }
      batch, posted := [], false;
    }
  }

  /** One turn of the endless loop, when nothing interleaves: collect, POST if there is anything
      to send, and take note of the answer. */
  method Pass(sync: SyscallSync, outcome: PostOutcome, ghost past: seq<Step>) returns (sent: bool, ghost steps: seq<Step>)
    requires !sync.posted && sync.batch == [] && sync.View() == Run(past)
    requires forall step :: step in past ==> Readable(step)
    modifies sync, sync.table
    ensures sync.View() == Run(past + steps) && !sync.posted && sync.batch == []
    ensures sync.syscallCache == old(sync.syscallCache)
    ensures sent <==> exists pod :: Differs(sync.syscallCache, old(sync.lastSentCache), pod)
    ensures !sent || outcome == Answered ==> forall pod :: !Differs(sync.syscallCache, sync.lastSentCache, pod)
    ensures !sent || outcome == Answered ==> forall pod ::
              Stored(sync.table.rows, pod) == SetOf(sync.syscallCache, pod) <==> !IsBlank(pod) || SetOf(sync.syscallCache, pod) == {}
  {
    hide Run, Continue, IsBlank, StoreAll, Stored, Acknowledge, DistinctPods;
    steps := sync.CollectAll();
    RunContinues(past, steps);
    ghost var collected := sync.batch;
    sent := |sync.batch| != 0;
    if sent {
      var ok := false;
      if outcome != Lost {
        CommitAlwaysPossible(past + steps);
        ok := sync.PostCommits();
        RunSnoc(past + steps, Commit);
        assert past + steps + [Commit] == past + (steps + [Commit]);
        steps := steps + [Commit];
      }
      ok := ok && outcome == Answered;
      sync.PostConcludes(ok);
      RunSnoc(past + steps, Conclude(ok));
      assert past + steps + [Conclude(ok)] == past + (steps + [Conclude(ok)]);
      steps := steps + [Conclude(ok)];
    }
    if !sent || outcome == Answered {
      if sent { AllAcknowledged(collected, sync.syscallCache, old(sync.lastSentCache)); }
      forall pod ensures Stored(sync.table.rows, pod) == SetOf(sync.syscallCache, pod) <==>
                         !IsBlank(pod) || SetOf(sync.syscallCache, pod) == {} {
        SentWithinCache(past + steps, pod);
        assert !Differs(sync.syscallCache, sync.lastSentCache, pod);
        NoDifferenceMeansStored(past + steps, pod);
      }
    }
  }

  function Continue(s: State, steps: seq<Step>): State {
    if steps == [] then s else Next(Continue(s, steps[..|steps| - 1]), steps[|steps| - 1])
  }

  /** No step but those of the sending loop. */
  predicate Quiet(steps: seq<Step>) { forall step :: step in steps ==> !step.Observe? }

  lemma RunSnoc(steps: seq<Step>, step: Step)
    ensures Run(steps + [step]) == Next(Run(steps), step)
  {
    assert (steps + [step])[..|steps|] == steps;
  }

  lemma {:induction false} RunContinues(past: seq<Step>, steps: seq<Step>)
    ensures Run(past + steps) == Continue(Run(past), steps)
  {
    if steps == [] {
      assert past + steps == past;
    } else {
      var front := steps[..|steps| - 1];
      RunContinues(past, front);
      RunSnoc(past + front, steps[|steps| - 1]);
      assert past + steps == past + front + [steps[|steps| - 1]];
    }
  }

  // ----- what every interleaving keeps

  /** The names a reader of the table gets for a pod. */
  function Stored(rows: Rows, pod: string): set<string> {
    if pod in rows then ToSet(Split(rows[pod].syscalls, ',')) else {}
  }

  predicate NamesReadable(names: set<string>) { forall n :: n in names ==> ',' !in n }

  ghost predicate Ordered(s: State, pod: string) {
    SetOf(s.lastSent, pod) <= Stored(s.rows, pod) <= SetOf(s.cache, pod)
  }

  predicate PendingFits(s: State, e: Entry) {
    && e.podNs == "" && e.arch == ARCH && e.syscalls != []
    && SetOf(s.lastSent, e.podName) <= ToSet(e.syscalls) <= SetOf(s.cache, e.podName)
    && Stored(s.rows, e.podName) <= ToSet(e.syscalls)
    && (s.posted && !IsBlank(e.podName) ==> Stored(s.rows, e.podName) == ToSet(e.syscalls))
  }

  ghost predicate Synced(s: State) {
    && (forall pod :: pod in s.cache ==> NamesReadable(s.cache[pod]))
    && (forall pod :: !IsBlank(pod) ==> Ordered(s, pod))
    && (forall e :: e in s.pending ==> PendingFits(s, e))
    && DistinctPods(s.pending)
    && (forall pod :: pod in s.rows ==> s.rows[pod].podNs == "" && s.rows[pod].arch == ARCH && !IsBlank(pod))
    && (s.posted ==> s.pending != [])
    && (forall pod :: SetOf(s.lastSent, pod) <= SetOf(s.cache, pod))
  }

  /** The broker takes an entry: it is skipped, or its pod is new, or the pod's row is of the same
      namespace and architecture. */
  predicate Acceptable(rows: Rows, e: Entry) {
    IsBlank(e.podName) || e.podName !in rows || (rows[e.podName].podNs == e.podNs && rows[e.podName].arch == e.arch)
  }

  /** The row of a pod after its entry is stored. */
  predicate HoldsEntry(rows: Rows, e: Entry) {
    e.podName in rows && rows[e.podName] == Row(e.podNs, e.arch, Join(e.syscalls, ','))
  }

  predicate SameRow(m: Rows, rows: Rows, pod: string) {
    (pod in m <==> pod in rows) && (pod in rows ==> m[pod] == rows[pod])
  }

  /** A batch of distinct pods is committed exactly if the broker takes each entry; then every pod
      with a name has the row of its entry, and all other rows are as before. */
  lemma {:induction false} StoreAllEffect(rows: Rows, batch: seq<Entry>)
    requires DistinctPods(batch)
    ensures StoreAll(rows, batch).Some? <==> forall e :: e in batch ==> Acceptable(rows, e)
    ensures StoreAll(rows, batch).Some? ==>
      var m := StoreAll(rows, batch).value;
      && (forall e :: e in batch && !IsBlank(e.podName) ==> HoldsEntry(m, e))
      && (forall pod :: (forall e :: e in batch && !IsBlank(e.podName) ==> e.podName != pod) ==> SameRow(m, rows, pod))
  {
    hide IsBlank, Join, StoreOne, HoldsEntry, Acceptable, SameRow;
    SameRows(rows);
    if batch != [] {
      var front, e := batch[..|batch| - 1], batch[|batch| - 1];
      assert batch == front + [e];
      StoreAllEffect(rows, front);
      assert forall b :: b in front ==> b.podName != e.podName && b in batch;
      if StoreAll(rows, front).Some? {
        StoreOneEffect(rows, StoreAll(rows, front).value, e);
      }
    }
  }

  lemma SameRows(rows: Rows)
    ensures forall pod :: SameRow(rows, rows, pod)
  {
  }

  /** Storing one entry changes the row of its pod only. */
  lemma StoreOneEffect(rows: Rows, m: Rows, e: Entry)
    requires SameRow(m, rows, e.podName)
    ensures StoreOne(m, e).Some? <==> Acceptable(rows, e)
    ensures StoreOne(m, e).Some? ==>
      var m' := StoreOne(m, e).value;
      && (!IsBlank(e.podName) ==> HoldsEntry(m', e))
      && (forall pod :: (IsBlank(e.podName) || pod != e.podName) && SameRow(m, rows, pod) ==> SameRow(m', rows, pod))
      && (forall b: Entry :: b.podName != e.podName && HoldsEntry(m, b) ==> HoldsEntry(m', b))
  {
    hide IsBlank, Join;
  }

  /** A reader of a pod's row gets exactly the names of its entry. */
  lemma StoredOfEntry(rows: Rows, e: Entry)
    requires HoldsEntry(rows, e) && e.syscalls != [] && NamesReadable(ToSet(e.syscalls))
    ensures Stored(rows, e.podName) == ToSet(e.syscalls)
  {
    hide Split, Join;
    assert forall f :: f in e.syscalls ==> f in ToSet(e.syscalls);
    SplitJoin(e.syscalls, ',');
  }

  lemma {:induction false} AcknowledgeEffect(lastSent: map<string, set<string>>, batch: seq<Entry>)
    requires DistinctPods(batch)
    ensures forall e :: e in batch ==> SetOf(Acknowledge(lastSent, batch), e.podName) == ToSet(e.syscalls)
    ensures forall pod :: (forall e :: e in batch ==> e.podName != pod) ==>
              SetOf(Acknowledge(lastSent, batch), pod) == SetOf(lastSent, pod)
  {
    if batch != [] {
      var front, e := batch[..|batch| - 1], batch[|batch| - 1];
      assert batch == front + [e];
      AcknowledgeEffect(lastSent, front);
      assert forall b :: b in front ==> b.podName != e.podName;
    }
  }

  /** Once all snapshots of a pass are acknowledged, nothing differs. */
  lemma AllAcknowledged(batch: seq<Entry>, cache: map<string, set<string>>, lastSent: map<string, set<string>>)
    requires Snapshots(batch, cache, lastSent, cache.Keys)
    ensures forall pod :: !Differs(cache, Acknowledge(lastSent, batch), pod)
  {
    hide Acknowledge;
    AcknowledgeEffect(lastSent, batch);
    forall pod ensures !Differs(cache, Acknowledge(lastSent, batch), pod) {
      if Sends(batch, pod) {
        var e :| e in batch && e.podName == pod;
        assert Differs(cache, lastSent, pod);
      }
    }
  }

  predicate Readable(step: Step) { step.Observe? ==> ',' !in step.name }

  lemma ObserveKeepsSynced(s: State, step: Step)
    requires Synced(s) && step.Observe? && Readable(step)
    ensures Synced(Next(s, step))
  {
    hide Stored, IsBlank;
    var t := Next(s, step);
    assert forall pod :: SetOf(s.cache, pod) <= SetOf(t.cache, pod);
    forall e | e in t.pending ensures PendingFits(t, e) { assert PendingFits(s, e); }
    forall pod | !IsBlank(pod) ensures Ordered(t, pod) { assert Ordered(s, pod); }
  }

  lemma CollectKeepsSynced(s: State, step: Step)
    requires Synced(s) && step.Collect?
    ensures Synced(Next(s, step))
  {
    hide Stored, IsBlank;
    if Enabled(s, step) {
      var t := Next(s, step);
      var e := Entry(step.pod, "", ARCH, step.names);
      assert t.pending == s.pending + [e];
      assert SetOf(s.lastSent, step.pod) <= SetOf(s.cache, step.pod);
      var x :| x in SetOf(s.cache, step.pod);
      assert x in ToSet(step.names);
      StoredBelowCache(s, step.pod);
      assert PendingFits(t, e);
      forall f | f in t.pending ensures PendingFits(t, f) { assert f == e || PendingFits(s, f); }
      forall pod | !IsBlank(pod) ensures Ordered(t, pod) { assert Ordered(s, pod); }
    }
  }

  lemma StoredBelowCache(s: State, pod: string)
    requires Synced(s)
    ensures Stored(s.rows, pod) <= SetOf(s.cache, pod)
  {
    hide IsBlank, Split;
    if !IsBlank(pod) { assert Ordered(s, pod); }
  }

  lemma CommitKeepsSynced(s: State)
    requires Synced(s)
    ensures Synced(Next(s, Commit))
    ensures s.pending != [] && !s.posted ==> Enabled(s, Commit)
    ensures forall pod :: Stored(s.rows, pod) <= Stored(Next(s, Commit).rows, pod)
  {
    hide Stored, IsBlank, StoreAll, Join;
    var t := Next(s, Commit);
    forall e | e in s.pending ensures Acceptable(s.rows, e) { assert PendingFits(s, e); }
    StoreAllEffect(s.rows, s.pending);
    if Enabled(s, Commit) {
      forall e | e in s.pending ensures IsBlank(e.podName) || Stored(t.rows, e.podName) == ToSet(e.syscalls) {
        assert PendingFits(s, e);
        if !IsBlank(e.podName) { StoredOfEntry(t.rows, e); }
      }
      forall pod ensures Stored(s.rows, pod) <= Stored(t.rows, pod) && (!IsBlank(pod) ==> Ordered(t, pod)) {
        if !IsBlank(pod) { assert Ordered(s, pod); }
        if e :| e in s.pending && e.podName == pod && !IsBlank(pod) {
          assert PendingFits(s, e);
        } else {
          assert SameRow(t.rows, s.rows, pod);
          StoredOfSameRow(t.rows, s.rows, pod);
        }
      }
      forall pod | pod in t.rows ensures t.rows[pod].podNs == "" && t.rows[pod].arch == ARCH && !IsBlank(pod) {
        if e :| e in s.pending && e.podName == pod && !IsBlank(pod) {
          assert PendingFits(s, e) && HoldsEntry(t.rows, e);
        } else {
          assert SameRow(t.rows, s.rows, pod);
        }
      }
      forall e | e in t.pending ensures PendingFits(t, e) {
        assert PendingFits(s, e);
        BlankIsNotStored(t.rows, e.podName);
      }
    }
  }

  lemma StoredOfSameRow(m: Rows, rows: Rows, pod: string)
    requires SameRow(m, rows, pod)
    ensures Stored(m, pod) == Stored(rows, pod)
  {
  }

  lemma BlankIsNotStored(rows: Rows, pod: string)
    requires forall p :: p in rows ==> !IsBlank(p)
    ensures IsBlank(pod) ==> Stored(rows, pod) == {}
  {
  }

  lemma ConcludeKeepsSynced(s: State, step: Step)
    requires Synced(s) && step.Conclude?
    ensures Synced(Next(s, step))
  {
    hide Stored, IsBlank, Acknowledge;
    if Enabled(s, step) {
      var t := Next(s, step);
      AcknowledgeEffect(s.lastSent, s.pending);
      forall pod ensures SetOf(t.lastSent, pod) <= SetOf(t.cache, pod) && (!IsBlank(pod) ==> Ordered(t, pod)) {
        if !IsBlank(pod) { assert Ordered(s, pod); }
        if e :| e in s.pending && e.podName == pod { assert PendingFits(s, e); }
      }
    }
  }

  /** In every interleaving of observations, snapshots, commits and believed outcomes: for every pod
      with a name, what the controller thinks it sent is in the table, and the table holds only
      what was seen. */
  lemma {:induction false} SyncInvariant(steps: seq<Step>)
    requires forall step :: step in steps ==> Readable(step)
    ensures Synced(Run(steps))
  {
    hide Synced, Next;
    if steps == [] {
      StartSynced();
    } else {
      var front, step := steps[..|steps| - 1], steps[|steps| - 1];
      assert step in steps;
      SyncInvariant(front);
      match step
      case Observe(_, _) => ObserveKeepsSynced(Run(front), step);
      case Collect(_, _) => CollectKeepsSynced(Run(front), step);
      case Commit => CommitKeepsSynced(Run(front));
      case Conclude(_) => ConcludeKeepsSynced(Run(front), step);
    }
  }

  lemma StartSynced()
    ensures Synced(Start()) && Run([]) == Start()
  {
  }

  /** A pod's stored names never shrink, whatever the step. */
  lemma NeverRegresses(steps: seq<Step>, pod: string)
    requires steps != [] && forall step :: step in steps ==> Readable(step)
    ensures Stored(Run(steps[..|steps| - 1]).rows, pod) <= Stored(Run(steps).rows, pod)
  {
    hide Synced, Stored, Next;
    var s, step := Run(steps[..|steps| - 1]), steps[|steps| - 1];
    SyncInvariant(steps[..|steps| - 1]);
    CommitKeepsSynced(s);
    OnlyCommitStores(s, step);
  }

  lemma OnlyCommitStores(s: State, step: Step)
    ensures step != Commit ==> Next(s, step).rows == s.rows
  {
  }

  lemma SyncedBlank(s: State, pod: string)
    requires Synced(s)
    ensures IsBlank(pod) ==> Stored(s.rows, pod) == {}
    ensures SetOf(s.lastSent, pod) <= SetOf(s.cache, pod)
    ensures !IsBlank(pod) ==> Ordered(s, pod)
  {
    hide IsBlank;
    BlankIsNotStored(s.rows, pod);
  }

  lemma SentWithinCache(steps: seq<Step>, pod: string)
    requires forall step :: step in steps ==> Readable(step)
    ensures SetOf(Run(steps).lastSent, pod) <= SetOf(Run(steps).cache, pod)
  {
    hide Synced;
    SyncInvariant(steps);
    SyncedBlank(Run(steps), pod);
  }

  /** Last sent is within the row and the row within the cache exactly if the pod has a name, or
      nothing was ever marked as sent for it. */
  lemma OrderedIff(steps: seq<Step>, pod: string)
    requires forall step :: step in steps ==> Readable(step)
    ensures Ordered(Run(steps), pod) <==> !IsBlank(pod) || SetOf(Run(steps).lastSent, pod) == {}
  {
    hide Synced, IsBlank, Stored;
    SyncInvariant(steps);
    SyncedBlank(Run(steps), pod);
  }

  /** When a pass finds no difference for a pod, a reader of the table gets exactly the system
      calls seen if and only if the pod has a name, or none was seen; and there is a row as soon as
      one was seen for a pod with a name. */
  lemma NoDifferenceMeansStored(steps: seq<Step>, pod: string)
    requires forall step :: step in steps ==> Readable(step)
    requires SetOf(Run(steps).cache, pod) == SetOf(Run(steps).lastSent, pod)
    ensures Stored(Run(steps).rows, pod) == SetOf(Run(steps).cache, pod) <==>
              !IsBlank(pod) || SetOf(Run(steps).cache, pod) == {}
    ensures !IsBlank(pod) && SetOf(Run(steps).cache, pod) != {} ==> pod in Run(steps).rows
  {
    hide Synced, Split, IsBlank;
    SyncInvariant(steps);
    SyncedBlank(Run(steps), pod);
  }

  /** The broker never rejects the controller's batch. */
  lemma CommitAlwaysPossible(steps: seq<Step>)
    requires forall step :: step in steps ==> Readable(step)
    ensures var s := Run(steps); s.pending != [] && !s.posted ==> Enabled(s, Commit)
  {
    hide Synced, Enabled;
    SyncInvariant(steps);
    CommitKeepsSynced(Run(steps));
  }

  /** Why the pod must have a name: the broker skips a blank one, yet the controller marks it sent. */
  lemma BlankNameIsMarkedButNotStored()
    ensures var s := Run([Observe(" ", "read"), Collect(" ", ["read"]), Commit, Conclude(true)]);
      SetOf(s.lastSent, " ") == {"read"} && Stored(s.rows, " ") == {}
  {
    var a, b := Observe(" ", "read"), Collect(" ", ["read"]);
    var e := Entry(" ", "", ARCH, ["read"]);
    assert ToSet(["read"]) == {"read"} && {} + {"read"} == {"read"};
    var s1 := Start().(cache := map[" " := {"read"}]);
    var s2 := s1.(pending := [e]);
    assert [e][..0] == [];
    assert [a][..0] == [] && [a, b][..1] == [a] && [a, b, Commit][..2] == [a, b];
    assert [a, b, Commit, Conclude(true)][..3] == [a, b, Commit];
    assert Next(Start(), a) == s1;
    assert Next(s1, b) == s2;
    assert StoreAll(map[], [e]) == Some(map[]);
    assert Next(s2, Commit) == s2.(posted := true);
    assert Acknowledge(map[], [e]) == map[" " := {"read"}];
    assert Run([a]) == s1;
    assert Run([a, b]) == s2;
    assert Run([a, b, Commit]) == s2.(posted := true);
  }

  // ----- what is cached, and which names are stored

  /** The cache holds exactly what was observed. */
  lemma {:induction false} CacheIsObserved(steps: seq<Step>, pod: string, name: string)
    ensures name in SetOf(Run(steps).cache, pod) <==> Observe(pod, name) in steps
  {
    hide Enabled;
    if steps != [] {
      var front, step := steps[..|steps| - 1], steps[|steps| - 1];
      assert steps == front + [step];
      CacheIsObserved(front, pod, name);
      CacheStep(Run(front), step, pod, name);
    }
  }

  lemma CacheStep(s: State, step: Step, pod: string, name: string)
    ensures name in SetOf(Next(s, step).cache, pod) <==> name in SetOf(s.cache, pod) || step == Observe(pod, name)
  {
  }

  /** A pod whose name has a letter, a digit or a dash is not blank; one of spaces and tabs is. */
  lemma NamedIsNotBlank(pod: string)
    ensures (exists c :: c in pod && ('a' <= c <= 'z' || 'A' <= c <= 'Z' || IsDigit(c) || c == '-' || c == '.')) ==> !IsBlank(pod)
    ensures (forall c :: c in pod ==> c == ' ' || c == '\t') ==> IsBlank(pod)
  {
  }

  /** The entry of a new pod with such a name is stored, and its reader gets the names it carries;
      the entry of a blank name changes nothing. */
  lemma NamedPodIsStored(rows: Rows, e: Entry, c: char)
    requires c in e.podName && ('a' <= c <= 'z' || 'A' <= c <= 'Z' || IsDigit(c) || c == '-' || c == '.')
    requires e.podName !in rows && e.syscalls != [] && NamesReadable(ToSet(e.syscalls))
    ensures StoreAll(rows, [e]).Some?
    ensures var m := StoreAll(rows, [e]).value;
      && e.podName in m && Stored(m, e.podName) == ToSet(e.syscalls)
      && forall pod :: pod != e.podName ==> SameRow(m, rows, pod)
  {
    hide IsBlank, Join, StoreAll, Stored;
    NamedIsNotBlank(e.podName);
    StoreAllEffect(rows, [e]);
    assert e in [e];
    StoredOfEntry(StoreAll(rows, [e]).value, e);
  }

  lemma BlankPodIsSkipped(rows: Rows, e: Entry)
    requires forall c :: c in e.podName ==> c == ' ' || c == '\t'
    ensures StoreAll(rows, [e]) == Some(rows)
  {
    NamedIsNotBlank(e.podName);
    assert [e][..0] == [];
  }
}
