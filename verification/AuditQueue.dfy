/** broker/src/audit.rs: the bounded queue between ingest and audit evaluation, drained
    under a semaphore; and the pool-size rule of broker/src/main.rs. */
module AuditQueue {
  import opened Common
  import opened TrafficRows

  // ----- the protocol as a state machine

  datatype Config = Config(permits: nat, capacity: nat)

  /** attempted, admitted and dispatched are histories. held: the dispatcher has a permit and no flow yet. */
  datatype State = State(
    available: nat, held: bool, queue: seq<TrafficRow>, running: seq<TrafficRow>, finished: seq<TrafficRow>,
    shed: seq<TrafficRow>, attempted: seq<TrafficRow>, admitted: seq<TrafficRow>, dispatched: seq<TrafficRow>)

  /** Ingest offers a flow; the dispatcher gets a permit; it receives a flow and spawns a worker
      that takes the permit along; a worker ends and gives the permit back. */
  datatype Step = Enqueue(flow: TrafficRow) | Acquire | Receive | Finish(worker: nat)

  function Start(c: Config): State { State(c.permits, false, [], [], [], [], [], [], []) }

  /** A step that cannot happen yet waits: the state stays. */
  predicate Enabled(s: State, step: Step) {
    match step
    case Enqueue(_) => true
    case Acquire => !s.held && s.available > 0
    case Receive => s.held && s.queue != []
    case Finish(i) => i < |s.running|
  }

  function Next(c: Config, s: State, step: Step): State {
    if !Enabled(s, step) then s
    else match step
      case Enqueue(flow) =>
        var t := s.(attempted := s.attempted + [flow]);
        if |s.queue| < c.capacity then t.(queue := s.queue + [flow], admitted := s.admitted + [flow])
        else t.(shed := s.shed + [flow])
      case Acquire => s.(available := s.available - 1, held := true)
      case Receive =>
        s.(held := false, queue := s.queue[1..], running := s.running + [s.queue[0]], dispatched := s.dispatched + [s.queue[0]])
      case Finish(i) =>
        s.(available := s.available + 1, running := s.running[..i] + s.running[i + 1..], finished := s.finished + [s.running[i]])
  }

  function Run(c: Config, steps: seq<Step>): State {
    if steps == [] then Start(c) else Next(c, Run(c, steps[..|steps| - 1]), steps[|steps| - 1])
  }

  // ----- the running code

  class AuditClient {
    const config: Config
    var inFlight: nat
    var queue: seq<TrafficRow>
    var dropped: nat
    var dispatcherHolds: bool
    var workers: seq<TrafficRow>
    ghost var finished: seq<TrafficRow>
    ghost var shed: seq<TrafficRow>
    ghost var attempted: seq<TrafficRow>
    ghost var admitted: seq<TrafficRow>
    ghost var dispatched: seq<TrafficRow>

    ghost function View(): State
      reads this
    {
      State(inFlight, dispatcherHolds, queue, workers, finished, shed, attempted, admitted, dispatched)
    }

    constructor (config: Config)
      ensures this.config == config && View() == Start(config) && dropped == 0
    {
      this.config := config;
      inFlight, queue, dropped, dispatcherHolds, workers := config.permits, [], 0, false, [];
      finished, shed, attempted, admitted, dispatched := [], [], [], [], [];
    }

    /** Never blocks: a full queue sheds the flow and counts it. */
    method TryEnqueue(traffic: TrafficRow)
      requires dropped == |shed|
      modifies this
      ensures View() == Next(config, old(View()), Enqueue(traffic)) && dropped == |shed|
    {
      attempted := attempted + [traffic];
      if |queue| < config.capacity {
        queue := queue + [traffic];
        admitted := admitted + [traffic];
      } else {
        dropped := dropped + 1;
        shed := shed + [traffic];
      }
    }

    /** The dispatcher's two awaits, then the end of a worker. */
    method AcquirePermit()
      requires Enabled(View(), Acquire)
      modifies this
      ensures View() == Next(config, old(View()), Acquire) && dropped == old(dropped)
    {
      inFlight, dispatcherHolds := inFlight - 1, true;
    }

    method ReceiveAndSpawn()
      requires Enabled(View(), Receive)
      modifies this
      ensures View() == Next(config, old(View()), Receive) && dropped == old(dropped)
    {
      var traffic := queue[0];
      queue := queue[1..];
      workers, dispatcherHolds := workers + [traffic], false;
      dispatched := dispatched + [traffic];
    }

    method WorkerDone(i: nat)
      requires Enabled(View(), Finish(i))
      modifies this
      ensures View() == Next(config, old(View()), Finish(i)) && dropped == old(dropped)
    {
      finished := finished + [workers[i]];
      workers := workers[..i] + workers[i + 1..];
      inFlight := inFlight + 1;
    }
  }

  // ----- conservation in every interleaving

  ghost predicate PermitsAndOrder(c: Config, s: State) {
    && s.available + (if s.held then 1 else 0) + |s.running| == c.permits
    && |s.queue| <= c.capacity
    && s.admitted == s.dispatched + s.queue
  }

  ghost predicate ShedOrAdmitted(s: State) {
    multiset(s.attempted) == multiset(s.shed) + multiset(s.admitted)
  }

  ghost predicate RunningOrFinished(s: State) {
    multiset(s.dispatched) == multiset(s.running) + multiset(s.finished)
  }

  ghost predicate Conserved(c: Config, s: State) {
    PermitsAndOrder(c, s) && ShedOrAdmitted(s) && RunningOrFinished(s)
  }

  lemma StepKeepsPermitsAndOrder(c: Config, s: State, step: Step)
    requires PermitsAndOrder(c, s)
    ensures PermitsAndOrder(c, Next(c, s, step))
  {
    if step == Receive && Enabled(s, step) { assert s.queue == [s.queue[0]] + s.queue[1..]; }
  }

  lemma StepKeepsShedOrAdmitted(c: Config, s: State, step: Step)
    requires ShedOrAdmitted(s)
    ensures ShedOrAdmitted(Next(c, s, step))
  {
    if step.Enqueue? {
      Snoc(s.attempted, step.flow);
      Snoc(s.shed, step.flow);
      Snoc(s.admitted, step.flow);
    }
  }

  lemma StepKeepsRunningOrFinished(c: Config, s: State, step: Step)
    requires RunningOrFinished(s)
    ensures RunningOrFinished(Next(c, s, step))
  {
    if Enabled(s, step) && step.Receive? {
      Snoc(s.running, s.queue[0]);
      Snoc(s.dispatched, s.queue[0]);
    } else if Enabled(s, step) && step.Finish? {
      FinishKeepsFlows(s.dispatched, s.running, s.finished, step.worker);
    }
  }

  lemma FinishKeepsFlows<T>(dispatched: seq<T>, running: seq<T>, finished: seq<T>, i: nat)
    requires i < |running| && multiset(dispatched) == multiset(running) + multiset(finished)
    ensures multiset(dispatched) == multiset(running[..i] + running[i + 1..]) + multiset(finished + [running[i]])
  {
    Removed(running, i);
    Snoc(finished, running[i]);
  }

  lemma StepConserves(c: Config, s: State, step: Step)
    requires Conserved(c, s)
    ensures Conserved(c, Next(c, s, step))
  {
    hide Next, PermitsAndOrder, ShedOrAdmitted, RunningOrFinished;
    StepKeepsPermitsAndOrder(c, s, step);
    StepKeepsShedOrAdmitted(c, s, step);
    StepKeepsRunningOrFinished(c, s, step);
  }

  lemma Snoc<T>(s: seq<T>, x: T)
    ensures multiset(s + [x]) == multiset(s) + multiset{x}
  {
  }

  lemma Removed<T>(s: seq<T>, i: nat)
    requires i < |s|
    ensures multiset(s) == multiset(s[..i] + s[i + 1..]) + multiset{s[i]}
  {
    assert s == s[..i] + [s[i]] + s[i + 1..];
  }

  /** Permits: available, held by the dispatcher, or with a running worker. Flows: every one
      offered was shed, is queued, is running or has finished; they leave the queue in the order
      they entered it; the queue never exceeds its capacity. */
  lemma {:induction false} EveryRunConserves(c: Config, steps: seq<Step>)
    ensures Conserved(c, Run(c, steps))
    ensures var s := Run(c, steps);
      multiset(s.attempted) == multiset(s.shed) + multiset(s.queue) + multiset(s.running) + multiset(s.finished)
  {
    if steps != [] {
      EveryRunConserves(c, steps[..|steps| - 1]);
      StepConserves(c, Run(c, steps[..|steps| - 1]), steps[|steps| - 1]);
    }
  }

  /** A flow is shed exactly when it is offered to a full queue. */
  lemma ShedExactlyWhenFull(c: Config, steps: seq<Step>)
    requires steps != []
    ensures var s, step, s' := Run(c, steps[..|steps| - 1]), steps[|steps| - 1], Run(c, steps);
      s'.shed != s.shed <==> step.Enqueue? && |s.queue| == c.capacity
  {
    hide Next, ShedOrAdmitted, RunningOrFinished;
    EveryRunConserves(c, steps[..|steps| - 1]);
    ShedByStep(c, Run(c, steps[..|steps| - 1]), steps[|steps| - 1]);
  }

  lemma ShedByStep(c: Config, s: State, step: Step)
    requires |s.queue| <= c.capacity
    ensures Next(c, s, step).shed != s.shed <==> step.Enqueue? && |s.queue| == c.capacity
  {
    if step.Enqueue? { assert |s.shed + [step.flow]| == |s.shed| + 1; }
  }

  /** With at least one permit, a waiting flow never gets stuck: the dispatcher can move, or a
      worker is running. */
  lemma NeverStuck(c: Config, steps: seq<Step>)
    requires c.permits > 0 && Run(c, steps).queue != []
    ensures var s := Run(c, steps); Enabled(s, Receive) || Enabled(s, Acquire) || Enabled(s, Finish(0))
  {
    EveryRunConserves(c, steps);
  }

  /** No new flow is offered. */
  predicate Draining(steps: seq<Step>) { forall step :: step in steps ==> !step.Enqueue? }

  lemma RunSnoc(c: Config, steps: seq<Step>, step: Step)
    ensures Run(c, steps + [step]) == Next(c, Run(c, steps), step)
  {
    assert (steps + [step])[..|steps|] == steps;
  }

  /** The workers finish, last one first. */
  lemma {:induction false} WorkersFinish(c: Config, steps: seq<Step>) returns (more: seq<Step>)
    ensures Draining(more)
    ensures var s, t := Run(c, steps), Run(c, steps + more);
      && t.running == [] && t.queue == s.queue && t.held == s.held && t.shed == s.shed && t.attempted == s.attempted
      && t.available == s.available + |s.running|
    decreases |Run(c, steps).running|
  {
    hide Run;
    var s := Run(c, steps);
    if s.running == [] {
      more := [];
      assert steps + more == steps;
    } else {
      var step := Finish(|s.running| - 1);
      RunSnoc(c, steps, step);
      assert s.running[|s.running|..] == [] && s.running[..|s.running| - 1] + [] == s.running[..|s.running| - 1];
      var rest := WorkersFinish(c, steps + [step]);
      more := [step] + rest;
      assert steps + more == steps + [step] + rest;
    }
  }

  /** With all workers done, the dispatcher can hand the front flow to a worker. */
  lemma FrontIsDispatched(c: Config, steps: seq<Step>) returns (more: seq<Step>)
    requires c.permits > 0 && Run(c, steps).running == [] && Run(c, steps).queue != []
    ensures Draining(more)
    ensures var s, t := Run(c, steps), Run(c, steps + more);
      t.queue == s.queue[1..] && t.running == [s.queue[0]] && t.shed == s.shed && t.attempted == s.attempted
  {
    hide Run, ShedOrAdmitted, RunningOrFinished;
    var s := Run(c, steps);
    EveryRunConserves(c, steps);
    if s.held {
      more := [Receive];
      RunSnoc(c, steps, Receive);
    } else {
      more := [Acquire, Receive];
      RunSnoc(c, steps, Acquire);
      RunSnoc(c, steps + [Acquire], Receive);
      assert steps + more == steps + [Acquire] + [Receive];
    }
  }

  /** With a permit configured, from every reachable state the queue can be worked off: once no more
      flows come, the dispatcher and the workers bring every flow that was admitted to its end, and
      all permits are back but one the dispatcher may hold. */
  lemma {:induction false} EverythingCanFinish(c: Config, steps: seq<Step>) returns (more: seq<Step>)
    requires c.permits > 0
    ensures Draining(more)
    ensures var s, t := Run(c, steps), Run(c, steps + more);
      && t.queue == [] && t.running == [] && t.shed == s.shed && t.attempted == s.attempted
      && t.available + (if t.held then 1 else 0) == c.permits
      && multiset(t.finished) + multiset(t.shed) == multiset(t.attempted)
    decreases |Run(c, steps).queue|
  {
    hide Run;
    var first := WorkersFinish(c, steps);
    if Run(c, steps + first).queue == [] {
      more := first;
    } else {
      var next := FrontIsDispatched(c, steps + first);
      var rest := EverythingCanFinish(c, steps + first + next);
      more := first + next + rest;
      assert steps + more == steps + first + next + rest;
    }
    EveryRunConserves(c, steps + more);
  }

  // ----- the pool outlives the audit path

  const MAX_U32: nat := 0xFFFF_FFFF
  const MAX_USIZE: nat := 0xFFFF_FFFF_FFFF_FFFF
  const DEFAULT_AUDIT_INFLIGHT_PERMITS: nat := 16
  const AUDIT_QUEUE_CAPACITY: nat := 2048
  const MIN_POOL_HEADROOM_OVER_PERMITS: nat := 8

  function AtLeastOne(n: nat): nat { if n < 1 then 1 else n }

  /** AUDIT_INFLIGHT_PERMITS, a number or unreadable, as audit.rs reads it: into a usize. */
  function SemaphorePermits(setting: Option<nat>): nat {
    match setting
    case Some(n) => if n <= MAX_USIZE then AtLeastOne(n) else DEFAULT_AUDIT_INFLIGHT_PERMITS
    case None => DEFAULT_AUDIT_INFLIGHT_PERMITS
  }

  /** The same setting as main.rs reads it: into a u32. */
  function PoolPermits(setting: Option<nat>): nat {
    match setting
    case Some(n) => if n <= MAX_U32 then AtLeastOne(n) else DEFAULT_AUDIT_INFLIGHT_PERMITS
    case None => DEFAULT_AUDIT_INFLIGHT_PERMITS
  }

  function SaturatingAdd(a: nat, b: nat): nat { if a + b > MAX_U32 then MAX_U32 else a + b }

  function PoolSizeWithHeadroom(configured: nat, permits: nat): nat {
    var floor := SaturatingAdd(permits, MIN_POOL_HEADROOM_OVER_PERMITS);
    if configured > floor then configured else floor
  }

  /** n workers can run at once, if there are n permits. */
  lemma {:induction false} WorkersCanFillPermits(c: Config, flow: TrafficRow, n: nat) returns (steps: seq<Step>)
    requires n <= c.permits && c.capacity > 0
    ensures var s := Run(c, steps); |s.running| == n && s.available == c.permits - n && !s.held && s.queue == []
  {
    if n == 0 {
      steps := [];
    } else {
      var before := WorkersCanFillPermits(c, flow, n - 1);
      var one, two := before + [Enqueue(flow)], before + [Enqueue(flow), Acquire];
      steps := before + [Enqueue(flow), Acquire, Receive];
      assert one[..|one| - 1] == before && two[..|two| - 1] == one && steps[..|steps| - 1] == two;
      var s1 := Next(c, Run(c, before), Enqueue(flow));
      assert Run(c, one) == s1;
      var s2 := Next(c, s1, Acquire);
      assert Run(c, two) == s2;
      assert Run(c, steps) == Next(c, s2, Receive);
    }
  }

  /** tokio's limit on the permits of a semaphore and on the capacity of a channel; it panics above. */
  const MAX_PERMITS: nat := MAX_USIZE / 8

  /** The broker gets past startup with these settings. */
  predicate Starts(c: Config) {
    c.permits <= MAX_PERMITS && 0 < c.capacity <= MAX_PERMITS
  }

  ghost predicate Reachable(c: Config, s: State) {
    Starts(c) && exists steps :: s == Run(c, steps)
  }

  lemma CanBeFull(c: Config, flow: TrafficRow) returns (s: State)
    requires Starts(c)
    ensures Reachable(c, s) && |s.running| == c.permits
  {
    hide Run;
    var steps := WorkersCanFillPermits(c, flow, c.permits);
    s := Run(c, steps);
  }

  /** Each worker holds at most one connection of the pool. At least 8 connections stay outside
      the audit path in every reachable state exactly when the permits leave room for the headroom
      in 32 bits, or the broker does not start; above that, the sum saturates or the two readings
      of the setting disagree. */
  lemma HeadroomIff(setting: Option<nat>, configured: nat, capacity: nat, flow: TrafficRow)
    requires configured <= MAX_U32
    ensures var c := Config(SemaphorePermits(setting), capacity);
      var pool := PoolSizeWithHeadroom(configured, PoolPermits(setting));
      (forall s :: Reachable(c, s) ==> pool - |s.running| >= MIN_POOL_HEADROOM_OVER_PERMITS)
      <==> !Starts(c) || c.permits + MIN_POOL_HEADROOM_OVER_PERMITS <= MAX_U32
  {
    hide Run;
    var c := Config(SemaphorePermits(setting), capacity);
    forall s | Reachable(c, s) ensures |s.running| <= c.permits {
      var steps :| s == Run(c, steps);
      EveryRunConserves(c, steps);
    }
    if Starts(c) { var full := CanBeFull(c, flow); }
  }

  /** With the largest 32-bit setting the sum saturates: the audit path can hold every connection. */
  lemma LargestSettingLeavesNoRoom(configured: nat, flow: TrafficRow)
    requires configured <= MAX_U32
    ensures exists s :: Reachable(Config(SemaphorePermits(Some(MAX_U32)), AUDIT_QUEUE_CAPACITY), s)
                        && |s.running| == PoolSizeWithHeadroom(configured, PoolPermits(Some(MAX_U32)))
  {
    hide Run;
    var full := CanBeFull(Config(SemaphorePermits(Some(MAX_U32)), AUDIT_QUEUE_CAPACITY), flow);
  }

  /** The pool is the least size that is at least the one configured and, while 32 bits hold it, 8
      more than the permits. */
  lemma PoolIsLeast(configured: nat, permits: nat, size: nat)
    requires configured <= MAX_U32
    ensures var pool := PoolSizeWithHeadroom(configured, permits);
      && pool >= configured && pool <= MAX_U32
      && (permits + 8 <= MAX_U32 ==> pool >= permits + 8)
      && (permits + 8 > MAX_U32 ==> pool == MAX_U32)
      && (size >= configured && size >= permits + 8 ==> pool <= size)
  {
  }

  /** Both readers: the number set, but at least 1; 16 if nothing readable is set, or more than fits
      their width. */
  lemma SettingsRead(n: nat)
    ensures SemaphorePermits(None) == PoolPermits(None) == 16
    ensures 1 <= n < 0x1_0000_0000 ==> SemaphorePermits(Some(n)) == PoolPermits(Some(n)) == n
    ensures SemaphorePermits(Some(0)) == PoolPermits(Some(0)) == 1
    ensures 0x1_0000_0000 <= n < 0x1_0000_0000_0000_0000 ==> SemaphorePermits(Some(n)) == n && PoolPermits(Some(n)) == 16
    ensures n >= 0x1_0000_0000_0000_0000 ==> SemaphorePermits(Some(n)) == PoolPermits(Some(n)) == 16
  {
  }
}
