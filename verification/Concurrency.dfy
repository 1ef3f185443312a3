/**
 Concurrency control: a global and per-workflow semaphores, a priority queue of waiting calls,
 cancellation, and release functions that act once. Every section the service runs under its
 mutex is one step; the configuration is fixed.
 */
module Concurrency {
  import opened Wrappers

  // ---------------------------------------------------------------- data

  datatype Config = Config(maxGlobal: int, maxPerWorkflow: int, overrides: map<string, int>, queueSize: int) {
    function Limit(workflow: string): int {
      if workflow in overrides then overrides[workflow] else maxPerWorkflow
    }

    predicate Limited(workflow: string) {
      workflow != "" && Limit(workflow) > 0
    }
  }

  /** A buffered channel of `size` slots, `held` of them taken. */
  datatype Semaphore = Semaphore(size: int, held: nat) {
    predicate CanAcquire() {
      size <= 0 || held < size
    }

    function Acquired(): Semaphore {
      if size <= 0 then this else this.(held := held + 1)
    }

    function Released(): Semaphore {
      if size <= 0 || held == 0 then this else this.(held := held - 1)
    }
  }

  datatype Queued = Queued(call: nat, workflow: string, priority: int, sequence: nat)

  datatype End = Rejected | TimedOut | Released

  datatype Metrics = Metrics(
    acquired: nat, released: nat, rejected: nat, queued: nat, timedOut: nat, maxConcurrent: nat)

  /** `grants` are the release functions that have not fired yet, with the workflow they captured;
      `queueGrants` and `ended` record history. Calls are numbered as they arrive. */
  datatype State = State(
    global: Option<Semaphore>, workflows: map<string, Semaphore>,
    queue: seq<Queued>, sequence: nat, metrics: Metrics,
    grants: map<nat, string>, calls: nat, queueGrants: nat, ended: map<nat, End>)

  function Start(c: Config): State {
    State(if c.maxGlobal > 0 then Some(Semaphore(c.maxGlobal, 0)) else None, map[],
          [], 0, Metrics(0, 0, 0, 0, 0, 0), map[], 0, 0, map[])
  }

  // ---------------------------------------------------------------- semaphores

  /** The semaphore that bounds a workflow, made on first use. */
  function WorkflowSemaphore(c: Config, s: State, workflow: string): Option<Semaphore> {
    if workflow == "" then None
    else if workflow in s.workflows then Some(s.workflows[workflow])
    else if c.Limit(workflow) > 0 then Some(Semaphore(c.Limit(workflow), 0))
    else None
  }

  predicate GlobalFree(s: State) {
    s.global.Some? ==> s.global.value.CanAcquire()
  }

  predicate WorkflowFree(c: Config, s: State, workflow: string) {
    var sem := WorkflowSemaphore(c, s, workflow);
    sem.Some? ==> sem.value.CanAcquire()
  }

  predicate Grantable(c: Config, s: State, workflow: string) {
    GlobalFree(s) && WorkflowFree(c, s, workflow)
  }

  function TakeSlots(c: Config, s: State, workflow: string): State {
    var sem := WorkflowSemaphore(c, s, workflow);
    s.(global := if s.global.Some? then Some(s.global.value.Acquired()) else None,
       workflows := if sem.Some? then s.workflows[workflow := sem.value.Acquired()] else s.workflows)
  }

  function GiveSlots(s: State, workflow: string): State {
    s.(global := if s.global.Some? then Some(s.global.value.Released()) else None,
       workflows := if workflow != "" && workflow in s.workflows
                    then s.workflows[workflow := s.workflows[workflow].Released()] else s.workflows)
  }

  /** A grant: slots are taken, counted, and a release function is handed out. */
  function Grant(c: Config, s: State, call: nat, workflow: string): State {
    var t := TakeSlots(c, s, workflow);
    var current := if t.global.Some? then t.global.value.held else 0;
    var m := t.metrics;
    t.(grants := t.grants[call := workflow],
       metrics := m.(acquired := m.acquired + 1,
                     maxConcurrent := if current > m.maxConcurrent then current else m.maxConcurrent))
  }

  // ---------------------------------------------------------------- the queue

  predicate Before(a: Queued, b: Queued) {
    a.priority > b.priority || (a.priority == b.priority && a.sequence < b.sequence)
  }

  /** Where a new entry goes: in front of the first entry it precedes. */
  function Position(queue: seq<Queued>, entry: Queued): (p: nat)
    ensures p <= |queue|
    ensures forall i | 0 <= i < p :: !Before(entry, queue[i])
    ensures p < |queue| ==> Before(entry, queue[p])
  {
    if queue == [] || Before(entry, queue[0]) then 0 else 1 + Position(queue[1..], entry)
  }

  function InsertAt(queue: seq<Queued>, p: nat, entry: Queued): seq<Queued>
    requires p <= |queue|
  {
    queue[..p] + [entry] + queue[p..]
  }

  function RemoveAt(queue: seq<Queued>, i: nat): seq<Queued>
    requires i < |queue|
  {
    queue[..i] + queue[i + 1..]
  }

  /** The first entry of the call, or |queue|. */
  function IndexOf(queue: seq<Queued>, call: nat): (i: nat)
    ensures i <= |queue|
    ensures i < |queue| ==> queue[i].call == call
    ensures forall j | 0 <= j < i :: queue[j].call != call
  {
    if queue == [] || queue[0].call == call then 0 else 1 + IndexOf(queue[1..], call)
  }

  /** The first entry at or after `from` that can be granted now, or |queue|. */
  function FirstGrantable(c: Config, s: State, from: nat): (i: nat)
    requires from <= |s.queue|
    ensures from <= i <= |s.queue|
    ensures i < |s.queue| ==> Grantable(c, s, s.queue[i].workflow)
    ensures forall j | from <= j < i :: !Grantable(c, s, s.queue[j].workflow)
    decreases |s.queue| - from
  {
    if from == |s.queue| || Grantable(c, s, s.queue[from].workflow) then from
    else FirstGrantable(c, s, from + 1)
  }

  function GrantEntry(c: Config, s: State, i: nat): State
    requires i < |s.queue|
  {
    var t := Grant(c, s, s.queue[i].call, s.queue[i].workflow);
    t.(queue := RemoveAt(s.queue, i), queueGrants := s.queueGrants + 1)
  }

  /** Grants the first entry that can be granted, until none can. */
  function Dispatch(c: Config, s: State): State
    decreases |s.queue|
  {
    var i := FirstGrantable(c, s, 0);
    if i == |s.queue| then s else Dispatch(c, GrantEntry(c, s, i))
  }

  // ---------------------------------------------------------------- steps

  datatype Outcome = GrantedNow | Waits | Refused

  function ArriveOutcome(c: Config, s: State, workflow: string): Outcome {
    if s.queue == [] && Grantable(c, s, workflow) then GrantedNow
    else if c.queueSize <= 0 || |s.queue| >= c.queueSize then Refused
    else Waits
  }

  function Enqueue(s: State, workflow: string, priority: int): State {
    var entry := Queued(s.calls, workflow, priority, s.sequence + 1);
    s.(queue := InsertAt(s.queue, Position(s.queue, entry), entry), sequence := s.sequence + 1,
       metrics := s.metrics.(queued := s.metrics.queued + 1))
  }

  /** The first locked section of a wait. */
  function Arrive(c: Config, s: State, workflow: string, priority: int): State {
    var t := match ArriveOutcome(c, s, workflow)
      case GrantedNow => Grant(c, s, s.calls, workflow)
      case Waits => Enqueue(s, workflow, priority)
      case Refused =>
        s.(metrics := s.metrics.(rejected := s.metrics.rejected + 1), ended := s.ended[s.calls := Rejected]);
    t.(calls := s.calls + 1)
  }

  /** The locked section of a wait whose context ended: the entry is removed, unless it was granted. */
  function Cancel(s: State, call: nat): State {
    var i := IndexOf(s.queue, call);
    if i == |s.queue| then s
    else s.(queue := RemoveAt(s.queue, i), metrics := s.metrics.(timedOut := s.metrics.timedOut + 1),
            ended := s.ended[call := TimedOut])
  }

  function GiveBack(s: State, call: nat): State
    requires call in s.grants
  {
    var t := GiveSlots(s, s.grants[call]);
    t.(metrics := s.metrics.(released := s.metrics.released + 1),
       grants := s.grants - {call}, ended := s.ended[call := Released])
  }

  /** A release function runs: only the first run has an effect. */
  function Release(c: Config, s: State, call: nat): State {
    if call in s.grants then Dispatch(c, GiveBack(s, call)) else s
  }

  datatype Step = ArriveStep(workflow: string, priority: int) | CancelStep(call: nat) | ReleaseStep(call: nat)

  function Apply(c: Config, s: State, step: Step): State {
    match step
    case ArriveStep(workflow, priority) => Arrive(c, s, workflow, priority)
    case CancelStep(call) => Cancel(s, call)
    case ReleaseStep(call) => Release(c, s, call)
  }

  function Run(c: Config, s: State, steps: seq<Step>): State
    decreases |steps|
  {
    if steps == [] then s else Run(c, Apply(c, s, steps[0]), steps[1..])
  }

  // ---------------------------------------------------------------- invariants

  function Holders(grants: map<nat, string>, workflow: string): set<nat> {
    set call | call in grants && grants[call] == workflow
  }

  /** The semaphore of a limited workflow counts its outstanding grants. */
  ghost predicate WorkflowSlots(c: Config, s: State, w: string) {
    var held := |Holders(s.grants, w)|;
    && held <= c.Limit(w)
    && WorkflowSemaphore(c, s, w) == Some(Semaphore(c.Limit(w), held))
  }

  /** Slots are conserved: each semaphore counts the outstanding grants it bounds. */
  ghost predicate SlotInv(c: Config, s: State) {
    && (s.global.Some? <==> c.maxGlobal > 0)
    && (s.global.Some? ==> s.global.value == Semaphore(c.maxGlobal, |s.grants|) && |s.grants| <= c.maxGlobal)
    && (forall w | w in s.workflows :: c.Limited(w))
    && (forall w | c.Limited(w) :: WorkflowSlots(c, s, w))
  }

  predicate Sorted(queue: seq<Queued>) {
    forall i, j | 0 <= i < j < |queue| :: Before(queue[i], queue[j])
  }

  predicate DistinctCalls(queue: seq<Queued>) {
    forall i, j | 0 <= i < j < |queue| :: queue[i].call != queue[j].call
  }

  predicate InQueue(s: State, call: nat) {
    exists i | 0 <= i < |s.queue| :: s.queue[i].call == call
  }

  /** Every call that arrived is waiting, granted or ended: exactly one of the three. */
  ghost predicate OnePlace(s: State, call: nat) {
    && (call < s.calls <==> InQueue(s, call) || call in s.grants || call in s.ended)
    && !(InQueue(s, call) && call in s.grants)
    && !(InQueue(s, call) && call in s.ended)
    && !(call in s.grants && call in s.ended)
  }

  ghost predicate QueueInv(s: State) {
    && Sorted(s.queue) && DistinctCalls(s.queue)
    && (forall i | 0 <= i < |s.queue| :: s.queue[i].sequence <= s.sequence)
    && forall call: nat :: OnePlace(s, call)
  }

  ghost predicate MetricsInv(c: Config, s: State) {
    && s.metrics.acquired - s.metrics.released == |s.grants|
    && s.metrics.queued == s.queueGrants + s.metrics.timedOut + |s.queue|
    && (c.maxGlobal > 0 ==> |s.grants| <= s.metrics.maxConcurrent <= c.maxGlobal)
  }

  predicate QueueBounded(c: Config, s: State) {
    |s.queue| <= (if c.queueSize > 0 then c.queueSize else 0)
  }

  /** The global limit is reached before any workflow's limit; so it is without workflow limits. */
  ghost predicate GlobalLimitBinds(c: Config) {
    forall w | c.Limited(w) :: 0 < c.maxGlobal <= c.Limit(w)
  }

  /** With such limits, calls wait only while the global semaphore is full. */
  ghost predicate WaitsOnlyWhenFull(c: Config, s: State) {
    GlobalLimitBinds(c) && s.queue != [] ==> !GlobalFree(s)
  }

  ghost predicate CoreInv(c: Config, s: State) {
    SlotInv(c, s) && QueueInv(s) && MetricsInv(c, s) && QueueBounded(c, s)
  }

  ghost predicate Inv(c: Config, s: State) {
    CoreInv(c, s) && WaitsOnlyWhenFull(c, s)
  }

  /** No waiting call could be granted. */
  predicate Quiet(c: Config, s: State) {
    forall i | 0 <= i < |s.queue| :: !Grantable(c, s, s.queue[i].workflow)
  }

  // ---------------------------------------------------------------- grants and releases conserve slots

  lemma HoldersAfterGrant(grants: map<nat, string>, call: nat, workflow: string, w: string)
    requires call !in grants
    ensures |grants[call := workflow]| == |grants| + 1
    ensures |Holders(grants[call := workflow], w)| == |Holders(grants, w)| + (if w == workflow then 1 else 0)
  {
    var after := grants[call := workflow];
    assert Holders(after, w) == if w == workflow then Holders(grants, w) + {call} else Holders(grants, w);
    assert call !in Holders(grants, w);
  }

  lemma HoldersAfterRelease(grants: map<nat, string>, call: nat, w: string)
    requires call in grants
    ensures |grants - {call}| == |grants| - 1
    ensures |Holders(grants - {call}, w)| == |Holders(grants, w)| - (if w == grants[call] then 1 else 0)
  {
    assert (grants - {call}).Keys == grants.Keys - {call};
    assert Holders(grants - {call}, w) == Holders(grants, w) - {call};
  }

  lemma GrantKeepsSlots(c: Config, s: State, call: nat, workflow: string)
    requires SlotInv(c, s) && call !in s.grants && Grantable(c, s, workflow)
    ensures SlotInv(c, Grant(c, s, call, workflow))
  {
    var t := Grant(c, s, call, workflow);
    HoldersAfterGrant(s.grants, call, workflow, workflow);
    forall w | c.Limited(w)
      ensures WorkflowSlots(c, t, w)
    {
      HoldersAfterGrant(s.grants, call, workflow, w);
      assert WorkflowSlots(c, s, w);
    }
  }

  lemma GiveBackKeepsSlots(c: Config, s: State, call: nat)
    requires SlotInv(c, s) && call in s.grants
    ensures SlotInv(c, GiveBack(s, call))
  {
    var t := GiveBack(s, call);
    HoldersAfterRelease(s.grants, call, s.grants[call]);
    forall w | c.Limited(w)
      ensures WorkflowSlots(c, t, w)
    {
      HoldersAfterRelease(s.grants, call, w);
      assert WorkflowSlots(c, s, w);
    }
  }

  // ---------------------------------------------------------------- the queue keeps its order

  lemma RemoveLeavesOthers(s: State, t: State, i: nat, call: nat)
    requires i < |s.queue| && DistinctCalls(s.queue) && t.queue == RemoveAt(s.queue, i)
    ensures InQueue(t, call) <==> InQueue(s, call) && call != s.queue[i].call
  {
    if InQueue(s, call) && call != s.queue[i].call {
      var j :| 0 <= j < |s.queue| && s.queue[j].call == call;
      assert t.queue[if j < i then j else j - 1].call == call;
    }
    if InQueue(t, call) {
      var j :| 0 <= j < |t.queue| && t.queue[j].call == call;
      assert s.queue[if j < i then j else j + 1].call == call;
    }
  }

  lemma InsertKeepsOrder(queue: seq<Queued>, entry: Queued)
    requires Sorted(queue) && DistinctCalls(queue)
    requires forall i | 0 <= i < |queue| :: queue[i].sequence < entry.sequence && queue[i].call != entry.call
    ensures var q := InsertAt(queue, Position(queue, entry), entry); Sorted(q) && DistinctCalls(q)
  {
    var p := Position(queue, entry);
    var q := InsertAt(queue, p, entry);
    forall i, j | 0 <= i < j < |q|
      ensures Before(q[i], q[j]) && q[i].call != q[j].call
    {
      if i != p && j != p {
        var a, b := if i < p then i else i - 1, if j < p then j else j - 1;
        assert q[i] == queue[a] && q[j] == queue[b];
      }
    }
  }

  lemma InsertAddsOne(s: State, t: State, p: nat, entry: Queued, call: nat)
    requires p <= |s.queue| && t.queue == InsertAt(s.queue, p, entry)
    ensures InQueue(t, call) <==> InQueue(s, call) || call == entry.call
  {
    if InQueue(s, call) {
      var j :| 0 <= j < |s.queue| && s.queue[j].call == call;
      assert t.queue[if j < p then j else j + 1].call == call;
    }
    assert t.queue[p].call == entry.call;
    if InQueue(t, call) && call != entry.call {
      var j :| 0 <= j < |t.queue| && t.queue[j].call == call;
      assert s.queue[if j < p then j else j - 1].call == call;
    }
  }

  // ---------------------------------------------------------------- every step keeps the invariant

  lemma SameSlots(c: Config, s: State, t: State)
    requires SlotInv(c, s)
    requires t.global == s.global && t.workflows == s.workflows && t.grants == s.grants
    ensures SlotInv(c, t)
    ensures forall w :: Grantable(c, t, w) <==> Grantable(c, s, w)
  {
    forall w | c.Limited(w)
      ensures WorkflowSlots(c, t, w)
    {
      assert WorkflowSlots(c, s, w);
    }
  }

  lemma GrantNowKeepsCore(c: Config, s: State, workflow: string)
    requires CoreInv(c, s) && Grantable(c, s, workflow)
    ensures CoreInv(c, Grant(c, s, s.calls, workflow).(calls := s.calls + 1))
  {
    var t := Grant(c, s, s.calls, workflow).(calls := s.calls + 1);
    assert OnePlace(s, s.calls);
    GrantKeepsSlots(c, s, s.calls, workflow);
    SameSlots(c, Grant(c, s, s.calls, workflow), t);
    HoldersAfterGrant(s.grants, s.calls, workflow, workflow);
    forall call: nat
      ensures OnePlace(t, call)
    {
      assert OnePlace(s, call);
      assert InQueue(t, call) <==> InQueue(s, call);
    }
  }

  lemma GrantEntryKeepsCore(c: Config, s: State, i: nat)
    requires CoreInv(c, s) && i < |s.queue| && Grantable(c, s, s.queue[i].workflow)
    ensures CoreInv(c, GrantEntry(c, s, i))
  {
    var t, entry := GrantEntry(c, s, i), s.queue[i];
    assert InQueue(s, entry.call) && OnePlace(s, entry.call);
    GrantKeepsSlots(c, s, entry.call, entry.workflow);
    SameSlots(c, Grant(c, s, entry.call, entry.workflow), t);
    HoldersAfterGrant(s.grants, entry.call, entry.workflow, entry.workflow);
    forall call: nat
      ensures OnePlace(t, call)
    {
      assert OnePlace(s, call);
      RemoveLeavesOthers(s, t, i, call);
    }
  }

  lemma GiveBackKeepsCore(c: Config, s: State, call: nat)
    requires CoreInv(c, s) && call in s.grants
    ensures CoreInv(c, GiveBack(s, call))
  {
    var t := GiveBack(s, call);
    GiveBackKeepsSlots(c, s, call);
    HoldersAfterRelease(s.grants, call, s.grants[call]);
    forall other: nat
      ensures OnePlace(t, other)
    {
      assert OnePlace(s, other);
      assert InQueue(t, other) <==> InQueue(s, other);
    }
  }

  lemma {:induction false} DispatchKeepsCore(c: Config, s: State)
    requires CoreInv(c, s)
    ensures CoreInv(c, Dispatch(c, s)) && Quiet(c, Dispatch(c, s))
    decreases |s.queue|
  {
    var i := FirstGrantable(c, s, 0);
    if i < |s.queue| {
      GrantEntryKeepsCore(c, s, i);
      DispatchKeepsCore(c, GrantEntry(c, s, i));
    }
  }

  lemma NotGrantableMeansFull(c: Config, s: State, workflow: string)
    requires SlotInv(c, s) && GlobalLimitBinds(c) && !Grantable(c, s, workflow)
    ensures !GlobalFree(s)
  {
    if !WorkflowFree(c, s, workflow) {
      assert c.Limited(workflow);
      assert WorkflowSlots(c, s, workflow);
      assert Holders(s.grants, workflow) <= s.grants.Keys;
      SubsetIsSmaller(Holders(s.grants, workflow), s.grants.Keys);
    }
  }

  lemma {:induction false} SubsetIsSmaller(a: set<nat>, b: set<nat>)
    requires a <= b
    ensures |a| <= |b|
    decreases |a|
  {
    if x :| x in a {
      SubsetIsSmaller(a - {x}, b - {x});
    }
  }

  lemma QuietWaitsOnlyWhenFull(c: Config, s: State)
    requires SlotInv(c, s) && Quiet(c, s)
    ensures WaitsOnlyWhenFull(c, s)
  {
    if GlobalLimitBinds(c) && s.queue != [] {
      NotGrantableMeansFull(c, s, s.queue[0].workflow);
    }
  }

  lemma EnqueueKeepsCore(c: Config, s: State, workflow: string, priority: int)
    requires CoreInv(c, s) && |s.queue| < c.queueSize
    ensures CoreInv(c, Enqueue(s, workflow, priority).(calls := s.calls + 1))
  {
    var t := Enqueue(s, workflow, priority).(calls := s.calls + 1);
    var entry := Queued(s.calls, workflow, priority, s.sequence + 1);
    assert OnePlace(s, s.calls);
    InsertKeepsOrder(s.queue, entry);
    SameSlots(c, s, t);
    forall call: nat
      ensures OnePlace(t, call)
    {
      assert OnePlace(s, call);
      InsertAddsOne(s, t, Position(s.queue, entry), entry, call);
    }
  }

  lemma RefuseKeepsCore(c: Config, s: State, workflow: string, priority: int)
    requires CoreInv(c, s) && ArriveOutcome(c, s, workflow) == Refused
    ensures CoreInv(c, Arrive(c, s, workflow, priority))
  {
    var t := Arrive(c, s, workflow, priority);
    SameSlots(c, s, t);
    forall call: nat
      ensures OnePlace(t, call)
    {
      assert OnePlace(s, call);
      assert InQueue(t, call) <==> InQueue(s, call);
    }
  }

  lemma ArriveKeepsInv(c: Config, s: State, workflow: string, priority: int)
    requires Inv(c, s)
    ensures Inv(c, Arrive(c, s, workflow, priority))
  {
    match ArriveOutcome(c, s, workflow)
    case GrantedNow => GrantNowKeepsCore(c, s, workflow);
    case Waits =>
      EnqueueKeepsCore(c, s, workflow, priority);
      if GlobalLimitBinds(c) && s.queue == [] {
        NotGrantableMeansFull(c, s, workflow);
      }
    case Refused => RefuseKeepsCore(c, s, workflow, priority);
  }

  lemma CancelKeepsInv(c: Config, s: State, call: nat)
    requires Inv(c, s)
    ensures Inv(c, Cancel(s, call))
  {
    var t, i := Cancel(s, call), IndexOf(s.queue, call);
    if i < |s.queue| {
      assert InQueue(s, call);
      SameSlots(c, s, t);
      forall other: nat
        ensures OnePlace(t, other)
      {
        assert OnePlace(s, other);
        RemoveLeavesOthers(s, t, i, other);
      }
    }
  }

  lemma StepKeepsInv(c: Config, s: State, step: Step)
    requires Inv(c, s)
    ensures Inv(c, Apply(c, s, step))
  {
    match step
    case ArriveStep(workflow, priority) => ArriveKeepsInv(c, s, workflow, priority);
    case CancelStep(call) => CancelKeepsInv(c, s, call);
    case ReleaseStep(call) =>
      if call in s.grants {
        GiveBackKeepsCore(c, s, call);
        DispatchKeepsCore(c, GiveBack(s, call));
        QuietWaitsOnlyWhenFull(c, Release(c, s, call));
      }
  }

  lemma {:induction false} RunKeepsInv(c: Config, s: State, steps: seq<Step>)
    requires Inv(c, s)
    ensures Inv(c, Run(c, s, steps))
    decreases |steps|
  {
    if steps != [] {
      StepKeepsInv(c, s, steps[0]);
      RunKeepsInv(c, Apply(c, s, steps[0]), steps[1..]);
    }
  }

  // ---------------------------------------------------------------- main results, over every run

  ghost predicate Reachable(c: Config, s: State) {
    exists steps :: s == Run(c, Start(c), steps)
  }

  lemma ReachableInv(c: Config, s: State)
    requires Reachable(c, s)
    ensures Inv(c, s)
  {
    var steps :| s == Run(c, Start(c), steps);
    RunKeepsInv(c, Start(c), steps);
  }

  /** Slot conservation and caps: whatever mix of direct and queued grants, cancellations and
      repeated releases led here. */
  lemma SlotsConserved(c: Config, s: State, workflow: string)
    requires Reachable(c, s)
    ensures c.maxGlobal > 0 ==>
      s.global == Some(Semaphore(c.maxGlobal, |s.grants|)) && |s.grants| <= c.maxGlobal
    ensures c.Limited(workflow) ==>
      && |Holders(s.grants, workflow)| <= c.Limit(workflow)
      && WorkflowSemaphore(c, s, workflow) == Some(Semaphore(c.Limit(workflow), |Holders(s.grants, workflow)|))
    ensures s.metrics.acquired - s.metrics.released == |s.grants|
    ensures s.metrics.queued == s.queueGrants + s.metrics.timedOut + |s.queue|
  {
    ReachableInv(c, s);
    if c.Limited(workflow) {
      assert WorkflowSlots(c, s, workflow);
    }
  }

  /** What the configuration means for one workflow: its own override counts, or else the common limit; a
      limit that is not positive, or a call without a workflow, is not bounded. */
  lemma LimitsAreKept(c: Config, s: State, workflow: string)
    requires Reachable(c, s) && workflow != ""
    ensures var held := |Holders(s.grants, workflow)|;
      if workflow in c.overrides then c.overrides[workflow] > 0 ==> held <= c.overrides[workflow]
      else c.maxPerWorkflow > 0 ==> held <= c.maxPerWorkflow
    ensures (if workflow in c.overrides then c.overrides[workflow] <= 0 else c.maxPerWorkflow <= 0) ==>
      WorkflowSemaphore(c, s, workflow).None?
    ensures WorkflowSemaphore(c, s, "").None?
  {
    ReachableInv(c, s);
    if c.Limited(workflow) {
      SlotsConserved(c, s, workflow);
    }
  }

  /** A call whose wait has not ended is waiting or granted, never both and never neither; if its
      context ends, it times out in the first case and keeps its grant in the second. */
  lemma CancelledWaiter(c: Config, s: State, call: nat)
    requires Reachable(c, s) && call < s.calls && call !in s.ended
    ensures InQueue(s, call) <==> call !in s.grants
    ensures InQueue(s, call) ==>
      var t := Cancel(s, call);
      && !InQueue(t, call) && call !in t.grants && call in t.ended && t.ended[call] == TimedOut
      && t.grants == s.grants
    ensures call in s.grants ==> Cancel(s, call) == s
  {
    ReachableInv(c, s);
    assert OnePlace(s, call);
    CancelKeepsInv(c, s, call);
    assert OnePlace(Cancel(s, call), call);
  }

  /** Running a release function twice is running it once. */
  lemma ReleaseActsOnce(c: Config, s: State, call: nat)
    requires Reachable(c, s)
    ensures Release(c, Release(c, s, call), call) == Release(c, s, call)
  {
    ReachableInv(c, s);
    if call in s.grants {
      GiveBackKeepsCore(c, s, call);
      DispatchKeepsEnded(c, GiveBack(s, call), call);
      DispatchKeepsCore(c, GiveBack(s, call));
      assert OnePlace(Release(c, s, call), call);
    }
  }

  lemma {:induction false} DispatchKeepsEnded(c: Config, s: State, call: nat)
    requires call in s.ended
    ensures call in Dispatch(c, s).ended
    decreases |s.queue|
  {
    var i := FirstGrantable(c, s, 0);
    if i < |s.queue| {
      DispatchKeepsEnded(c, GrantEntry(c, s, i), call);
    }
  }

  // ---------------------------------------------------------------- queue discipline

  /** No newcomer overtakes the queue. */
  lemma NewcomersWait(c: Config, s: State, workflow: string, priority: int)
    requires s.queue != []
    ensures Arrive(c, s, workflow, priority).grants == s.grants
    ensures Arrive(c, s, workflow, priority).global == s.global
  {
  }

  /** A grant passes over an earlier entry only if that entry's workflow limit is full; so within
      one workflow the grants follow the queue. */
  lemma GrantPassesOnlyFullWorkflows(c: Config, s: State, j: nat)
    requires SlotInv(c, s)
    requires j < FirstGrantable(c, s, 0) < |s.queue|
    ensures var w := s.queue[j].workflow;
      && c.Limited(w) && |Holders(s.grants, w)| == c.Limit(w)
      && w != s.queue[FirstGrantable(c, s, 0)].workflow
  {
    var w := s.queue[j].workflow;
    assert !WorkflowFree(c, s, w);
    assert c.Limited(w);
    assert WorkflowSlots(c, s, w);
  }

  predicate Waiting(s: State, entry: Queued) {
    entry in s.queue
  }

  /** The call's entry in `s` stands before the given one. */
  ghost predicate Precedes(s: State, call: nat, entry: Queued) {
    exists earlier :: Waiting(s, earlier) && earlier.call == call && Before(earlier, entry)
  }

  lemma {:induction false} DispatchKeeps(c: Config, s: State, call: nat)
    requires CoreInv(c, s)
    ensures forall entry | Waiting(Dispatch(c, s), entry) :: Waiting(s, entry)
    ensures !InQueue(s, call) && call in s.grants ==>
      call in Dispatch(c, s).grants && Dispatch(c, s).grants[call] == s.grants[call]
    ensures !InQueue(s, call) && call !in s.grants ==> call !in Dispatch(c, s).grants
    decreases |s.queue|
  {
    var i := FirstGrantable(c, s, 0);
    if i < |s.queue| {
      var t := GrantEntry(c, s, i);
      GrantEntryKeepsCore(c, s, i);
      RemoveLeavesOthers(s, t, i, call);
      DispatchKeeps(c, t, call);
      hide CoreInv, Grantable;
      assert InQueue(s, s.queue[i].call);
      forall entry | Waiting(t, entry)
        ensures Waiting(s, entry)
      {}
    }
  }

  lemma FirstGrantedPrecedes(c: Config, s: State, entry: Queued)
    requires Sorted(s.queue) && FirstGrantable(c, s, 0) < |s.queue|
    requires var i := FirstGrantable(c, s, 0);
      Waiting(GrantEntry(c, s, i), entry) && s.queue[i].workflow == entry.workflow
    ensures Waiting(s, entry) && Precedes(s, s.queue[FirstGrantable(c, s, 0)].call, entry)
  {
    var i := FirstGrantable(c, s, 0);
    var rest := RemoveAt(s.queue, i);
    hide Grantable, Grant;
    var j :| 0 <= j < |rest| && rest[j] == entry;
    assert s.queue[if j < i then j else j + 1] == entry;
    assert Waiting(s, s.queue[i]);
  }

  lemma GrantEntryMovesOne(c: Config, s: State, i: nat, call: nat, entry: Queued)
    requires CoreInv(c, s) && i < |s.queue| && Grantable(c, s, s.queue[i].workflow)
    ensures var t := GrantEntry(c, s, i);
      && CoreInv(c, t) && t.grants == s.grants[s.queue[i].call := s.queue[i].workflow]
      && !InQueue(t, s.queue[i].call) && |t.queue| == |s.queue| - 1
      && (Precedes(t, call, entry) ==> Precedes(s, call, entry))
  {
    var t := GrantEntry(c, s, i);
    GrantEntryKeepsCore(c, s, i);
    RemoveLeavesOthers(s, t, i, s.queue[i].call);
    hide CoreInv, Grantable, Grant, Before;
    forall earlier | Waiting(t, earlier)
      ensures Waiting(s, earlier)
    {}
  }

  lemma {:induction false} DispatchInOrder(c: Config, s: State, call: nat, entry: Queued)
    requires CoreInv(c, s) && Waiting(Dispatch(c, s), entry)
    requires call !in s.grants && call in Dispatch(c, s).grants && Dispatch(c, s).grants[call] == entry.workflow
    ensures Precedes(s, call, entry)
    decreases |s.queue|
  {
    var i := FirstGrantable(c, s, 0);
    if i < |s.queue| {
      assert Sorted(s.queue);
      hide CoreInv, Grantable, InQueue, Sorted, Precedes, GrantEntry, Waiting;
      GrantEntryMovesOne(c, s, i, call, entry);
      DispatchKeeps(c, GrantEntry(c, s, i), call);
      if call == s.queue[i].call {
        FirstGrantedPrecedes(c, s, entry);
      } else {
        DispatchInOrder(c, GrantEntry(c, s, i), call, entry);
      }
    }
  }

  /** Places in the order of the sequence numbers are places in the order of arrival. */
  ghost predicate ArrivalOrder(s: State) {
    && (forall a | Waiting(s, a) :: a.call < s.calls && a.sequence <= s.sequence)
    && forall a, b | Waiting(s, a) && Waiting(s, b) && a.sequence < b.sequence :: a.call < b.call
  }

  lemma FewerWaitInOrder(s: State, t: State)
    requires ArrivalOrder(s) && s.calls <= t.calls && s.sequence <= t.sequence
    requires forall entry | Waiting(t, entry) :: Waiting(s, entry)
    ensures ArrivalOrder(t)
  {}

  lemma DispatchKeepsCounts(c: Config, s: State)
    ensures Dispatch(c, s).calls == s.calls && Dispatch(c, s).sequence == s.sequence
    decreases |s.queue|
  {}

  lemma EnqueueKeepsArrivalOrder(s: State, workflow: string, priority: int)
    requires ArrivalOrder(s)
    ensures ArrivalOrder(Enqueue(s, workflow, priority).(calls := s.calls + 1))
  {
    var entry := Queued(s.calls, workflow, priority, s.sequence + 1);
    var t := Enqueue(s, workflow, priority).(calls := s.calls + 1);
    var p := Position(s.queue, entry);
    assert t.queue == s.queue[..p] + [entry] + s.queue[p..];
    assert forall a | Waiting(t, a) :: Waiting(s, a) || a == entry;
  }

  /** The first half of a release. */
  lemma ReleaseBegins(c: Config, s: State, call: nat)
    requires Inv(c, s) && call in s.grants
    ensures var t := GiveBack(s, call);
      && CoreInv(c, t) && t.queue == s.queue && t.calls == s.calls && t.sequence == s.sequence
      && t.grants == s.grants - {call}
  {
    GiveBackKeepsCore(c, s, call);
  }

  lemma ArriveKeepsArrivalOrder(c: Config, s: State, workflow: string, priority: int)
    requires ArrivalOrder(s)
    ensures ArrivalOrder(Arrive(c, s, workflow, priority))
  {
    if ArriveOutcome(c, s, workflow) == Waits {
      EnqueueKeepsArrivalOrder(s, workflow, priority);
    } else {
      hide ArrivalOrder, Grantable;
      FewerWaitInOrder(s, Arrive(c, s, workflow, priority));
    }
  }

  lemma CancelKeepsArrivalOrder(s: State, call: nat)
    requires ArrivalOrder(s)
    ensures ArrivalOrder(Cancel(s, call))
  {
    hide ArrivalOrder;
    FewerWaitInOrder(s, Cancel(s, call));
  }

  lemma ReleaseKeepsArrivalOrder(c: Config, s: State, call: nat)
    requires Inv(c, s) && ArrivalOrder(s)
    ensures ArrivalOrder(Release(c, s, call))
  {
    hide Inv, CoreInv, Dispatch, ArrivalOrder, GiveBack;
    if call in s.grants {
      ReleaseBegins(c, s, call);
      DispatchKeeps(c, GiveBack(s, call), call);
      DispatchKeepsCounts(c, GiveBack(s, call));
      FewerWaitInOrder(s, Release(c, s, call));
    }
  }

  lemma {:induction false} RunKeepsArrivalOrder(c: Config, s: State, steps: seq<Step>)
    requires Inv(c, s) && ArrivalOrder(s)
    ensures ArrivalOrder(Run(c, s, steps))
    decreases |steps|
  {
    if steps != [] {
      StepKeepsInv(c, s, steps[0]);
      match steps[0] {
        case ArriveStep(workflow, priority) => ArriveKeepsArrivalOrder(c, s, workflow, priority);
        case CancelStep(call) => CancelKeepsArrivalOrder(s, call);
        case ReleaseStep(call) => ReleaseKeepsArrivalOrder(c, s, call);
      }
      hide Inv, ArrivalOrder;
      RunKeepsArrivalOrder(c, Apply(c, s, steps[0]), steps[1..]);
    }
  }

  lemma ReachableArrivalOrder(c: Config, s: State)
    requires Reachable(c, s)
    ensures ArrivalOrder(s)
  {
    var steps :| s == Run(c, Start(c), steps);
    RunKeepsArrivalOrder(c, Start(c), steps);
  }

  /** In every reachable state the queue is ordered by priority, the highest first, and calls of the same
      priority by their arrival. */
  lemma QueueIsOrdered(c: Config, s: State, i: nat, j: nat)
    requires Reachable(c, s) && i < j < |s.queue|
    ensures s.queue[i].priority >= s.queue[j].priority
    ensures s.queue[i].priority == s.queue[j].priority ==> s.queue[i].call < s.queue[j].call
  {
    ReachableInv(c, s);
    assert Sorted(s.queue);
    hide Inv, Reachable;
    ReachableArrivalOrder(c, s);
    assert Waiting(s, s.queue[i]) && Waiting(s, s.queue[j]) && Before(s.queue[i], s.queue[j]);
  }

  /** Within a workflow nothing overtakes: when a step of any reachable state grants a call while another of
      its workflow keeps waiting, then the granted one stood before it in the queue. So the granted call has
      the higher priority or, with the same, arrived earlier; and it is not the newcomer of the step. */
  lemma NothingOvertakes(c: Config, s: State, step: Step, call: nat, entry: Queued)
    requires Reachable(c, s) && Waiting(Apply(c, s, step), entry)
    requires call !in s.grants && call in Apply(c, s, step).grants
    requires Apply(c, s, step).grants[call] == entry.workflow
    ensures step.ReleaseStep? && Waiting(s, entry)
    ensures exists granted :: Waiting(s, granted) && granted.call == call
              && (granted.priority > entry.priority || (granted.priority == entry.priority && call < entry.call))
  {
    ReachableInv(c, s);
    match step
    case ArriveStep(workflow, priority) =>
      hide Inv, Grantable, Before;
      if s.queue != [] {
        NewcomersWait(c, s, workflow, priority);
      }
    case CancelStep(other) =>
      hide Inv, Before;
    case ReleaseStep(other) =>
      ReleaseInOrder(c, s, other, call, entry);
  }

  lemma ReleaseInOrder(c: Config, s: State, released: nat, call: nat, entry: Queued)
    requires Reachable(c, s) && Waiting(Release(c, s, released), entry)
    requires var t := Release(c, s, released);
      call !in s.grants && call in t.grants && t.grants[call] == entry.workflow
    ensures Waiting(s, entry)
    ensures exists granted :: Waiting(s, granted) && granted.call == call
              && (granted.priority > entry.priority || (granted.priority == entry.priority && call < entry.call))
  {
    hide CoreInv, Inv, Dispatch, GiveBack, Before, Reachable;
    ReachableInv(c, s);
    ReleaseBegins(c, s, released);
    var t := GiveBack(s, released);
    DispatchKeeps(c, t, call);
    DispatchInOrder(c, t, call, entry);
    var earlier :| Waiting(t, earlier) && earlier.call == call && Before(earlier, entry);
    var i :| 0 <= i < |s.queue| && s.queue[i] == earlier;
    var j :| 0 <= j < |s.queue| && s.queue[j] == entry;
    EarlierInQueue(c, s, i, j);
  }

  lemma EarlierInQueue(c: Config, s: State, i: nat, j: nat)
    requires Reachable(c, s) && i < |s.queue| && j < |s.queue| && Before(s.queue[i], s.queue[j])
    ensures var a, b := s.queue[i], s.queue[j];
      a.priority > b.priority || (a.priority == b.priority && a.call < b.call)
  {
    ReachableInv(c, s);
    assert Sorted(s.queue);
    hide Inv, Reachable;
    if i < j {
      QueueIsOrdered(c, s, i, j);
    } else if j < i {
      assert Before(s.queue[j], s.queue[i]);
    }
  }

  /** After a release nothing that waits could be granted. */
  lemma ReleaseLeavesNothingGrantable(c: Config, s: State, call: nat)
    requires Reachable(c, s) && call in s.grants
    ensures Quiet(c, Release(c, s, call))
  {
    ReachableInv(c, s);
    GiveBackKeepsCore(c, s, call);
    DispatchKeepsCore(c, GiveBack(s, call));
  }

  /** When the global limit binds, above all without workflow limits, the queue is non-empty only while
      the global semaphore is full. */
  lemma WaitingMeansFull(c: Config, s: State)
    requires Reachable(c, s) && GlobalLimitBinds(c) && s.queue != []
    ensures s.global.Some? && s.global.value.held == s.global.value.size == c.maxGlobal
  {
    ReachableInv(c, s);
  }

  lemma InsertKeepsQuiet(c: Config, s: State, t: State, p: nat, entry: Queued)
    requires p <= |s.queue| && t.queue == InsertAt(s.queue, p, entry) && Quiet(c, s)
    requires forall w :: Grantable(c, t, w) <==> Grantable(c, s, w)
    ensures Quiet(c, t) <==> !Grantable(c, s, entry.workflow)
  {
    hide Grantable;
    assert t.queue[p] == entry;
    forall i | 0 <= i < |t.queue| && i != p
      ensures !Grantable(c, t, t.queue[i].workflow)
    {
      assert t.queue[i] == s.queue[if i < p then i else i - 1];
    }
  }

  /** From a state where nothing waits in vain, an arrival leaves a grantable call waiting exactly if it
      is queued behind others and could itself be granted. */
  lemma QuietAfterArrivalExact(c: Config, s: State, workflow: string, priority: int)
    requires Inv(c, s) && Quiet(c, s)
    ensures Quiet(c, Arrive(c, s, workflow, priority)) <==>
      !(s.queue != [] && |s.queue| < c.queueSize && Grantable(c, s, workflow))
  {
    hide Grantable;
    var t := Arrive(c, s, workflow, priority);
    if ArriveOutcome(c, s, workflow) == Waits {
      var entry := Queued(s.calls, workflow, priority, s.sequence + 1);
      SameSlots(c, s, t);
      InsertKeepsQuiet(c, s, t, Position(s.queue, entry), entry);
    } else if ArriveOutcome(c, s, workflow) == Refused {
      SameSlots(c, s, t);
    }
  }

  lemma QuietAfterCancel(c: Config, s: State, call: nat)
    requires Inv(c, s) && Quiet(c, s)
    ensures Quiet(c, Cancel(s, call))
  {
    SameSlots(c, s, Cancel(s, call));
  }

  /** Such a call exists: with one slot for workflow "a", a waiting "a" keeps a "b" waiting although
      every slot that "b" needs is free. */
  lemma NotWorkConserving()
    ensures var c := Config(2, 0, map["a" := 1], 10);
      var s := Run(c, Start(c), [ArriveStep("a", 1), ArriveStep("a", 1), ArriveStep("b", 1)]);
      |s.queue| == 2 && s.queue[1].workflow == "b" && Grantable(c, s, "b")
  {
    var c := Config(2, 0, map["a" := 1], 10);
    var s0 := Start(c);
    var s1 := Arrive(c, s0, "a", 1);
    var s2 := Arrive(c, s1, "a", 1);
    assert s2.queue == [Queued(1, "a", 1, 1)];
    var s3 := Arrive(c, s2, "b", 1);
    assert s3.queue == [Queued(1, "a", 1, 1), Queued(2, "b", 1, 2)];
    var b := [ArriveStep("b", 1)];
    var ab := [ArriveStep("a", 1), ArriveStep("b", 1)];
    var aab := [ArriveStep("a", 1), ArriveStep("a", 1), ArriveStep("b", 1)];
    assert aab[1..] == ab && ab[1..] == b && b[1..] == [];
    assert Run(c, s3, []) == s3;
    assert Run(c, s2, b) == s3;
    assert Run(c, s1, ab) == s3;
    assert Run(c, s0, aab) == s3;
  }

  // ---------------------------------------------------------------- when the service is work-conserving

  lemma {:induction false} RunAppends(c: Config, s: State, steps: seq<Step>, step: Step)
    ensures Run(c, s, steps + [step]) == Apply(c, Run(c, s, steps), step)
    decreases |steps|
  {
    if steps == [] {
      assert Run(c, Apply(c, s, step), []) == Apply(c, s, step);
      assert steps + [step] == [step] && [step][1..] == [];
    } else {
      RunAppends(c, Apply(c, s, steps[0]), steps[1..], step);
      assert (steps + [step])[1..] == steps[1..] + [step];
    }
  }

  lemma ReachableNext(c: Config, s: State, step: Step)
    requires Reachable(c, s)
    ensures Reachable(c, Apply(c, s, step))
  {
    var steps :| s == Run(c, Start(c), steps);
    RunAppends(c, Start(c), steps, step);
  }

  /** Decidable from the configuration: at most one call waits, or the global limit binds. */
  ghost predicate ConservingConfig(c: Config) {
    c.queueSize <= 1 || GlobalLimitBinds(c)
  }

  lemma StepKeepsQuiet(c: Config, s: State, step: Step)
    requires ConservingConfig(c) && Inv(c, s) && Quiet(c, s)
    ensures Quiet(c, Apply(c, s, step))
  {
    match step
    case ArriveStep(workflow, priority) => QuietAfterArrivalExact(c, s, workflow, priority);
    case CancelStep(call) => QuietAfterCancel(c, s, call);
    case ReleaseStep(call) =>
      if call in s.grants {
        GiveBackKeepsCore(c, s, call);
        DispatchKeepsCore(c, GiveBack(s, call));
      }
  }

  lemma {:induction false} RunKeepsQuiet(c: Config, s: State, steps: seq<Step>)
    requires ConservingConfig(c) && Inv(c, s) && Quiet(c, s)
    ensures Quiet(c, Run(c, s, steps))
    decreases |steps|
  {
    if steps != [] {
      StepKeepsInv(c, s, steps[0]);
      StepKeepsQuiet(c, s, steps[0]);
      RunKeepsQuiet(c, Apply(c, s, steps[0]), steps[1..]);
    }
  }

  /** `n` calls of the workflow are granted, one after the other. */
  lemma {:induction false} FillWorkflow(c: Config, w: string, n: nat) returns (s: State)
    requires c.Limited(w) && n <= c.Limit(w) && (c.maxGlobal > 0 ==> n <= c.maxGlobal)
    ensures Reachable(c, s) && s.queue == [] && |s.grants| == n && |Holders(s.grants, w)| == n
    decreases n
  {
    if n == 0 {
      s := Start(c);
      assert s == Run(c, s, []);
    } else {
      var before := FillWorkflow(c, w, n - 1);
      ReachableInv(c, before);
      assert WorkflowSlots(c, before, w) && OnePlace(before, before.calls);
      assert Grantable(c, before, w);
      s := Apply(c, before, ArriveStep(w, 1));
      ReachableNext(c, before, ArriveStep(w, 1));
      HoldersAfterGrant(before.grants, before.calls, w, w);
    }
  }

  /** A workflow at its limit, one more of its calls, then a call that is free to run: it waits. */
  lemma WaitsInVain(c: Config, w: string) returns (s: State)
    requires c.queueSize > 1 && c.Limited(w) && !(0 < c.maxGlobal <= c.Limit(w))
    ensures Reachable(c, s) && !Quiet(c, s)
  {
    var full := FillWorkflow(c, w, c.Limit(w));
    ReachableInv(c, full);
    assert WorkflowSlots(c, full, w);
    var waiting := Apply(c, full, ArriveStep(w, 1));
    ReachableNext(c, full, ArriveStep(w, 1));
    assert waiting.queue == [Queued(full.calls, w, 1, full.sequence + 1)];
    s := Apply(c, waiting, ArriveStep("", 1));
    ReachableNext(c, waiting, ArriveStep("", 1));
    assert s.queue[1].workflow == "" && Grantable(c, s, "");
  }

  /** In no reachable state does a call wait that could be granted, if and only if at most one call can
      wait or the global limit is reached before any workflow's. */
  lemma WorkConservingExactly(c: Config)
    ensures (forall s | Reachable(c, s) :: Quiet(c, s)) <==> ConservingConfig(c)
  {
    if ConservingConfig(c) {
      forall s | Reachable(c, s)
        ensures Quiet(c, s)
      {
        var steps :| s == Run(c, Start(c), steps);
        RunKeepsQuiet(c, Start(c), steps);
      }
    } else {
      var w :| c.Limited(w) && !(0 < c.maxGlobal <= c.Limit(w));
      var s := WaitsInVain(c, w);
    }
  }
}
