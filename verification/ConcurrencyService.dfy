/** The concurrency service as it updates its fields under the mutex. */
module ConcurrencyService {
  import opened Wrappers
  import opened Concurrency

  lemma SlotsIgnoreCalls(c: Config, s: State, calls: nat, workflow: string)
    ensures Grantable(c, s.(calls := calls), workflow) == Grantable(c, s, workflow)
    ensures TakeSlots(c, s.(calls := calls), workflow) == TakeSlots(c, s, workflow).(calls := calls)
  {}

  class ConcurrencyControlService {
    const config: Config
    var global: Option<Semaphore>
    var workflows: map<string, Semaphore>
    var queue: seq<Queued>
    var sequence: nat
    var metrics: Metrics
    var grants: map<nat, string>  // release functions whose sync.Once has not fired
    var calls: nat
    ghost var queueGrants: nat
    ghost var ended: map<nat, End>

    ghost function Model(): State
      reads this
    {
      State(global, workflows, queue, sequence, metrics, grants, calls, queueGrants, ended)
    }

    constructor (config: Config)
      ensures this.config == config && Model() == Start(config)
    {
      this.config := config;
      global := if config.maxGlobal > 0 then Some(Semaphore(config.maxGlobal, 0)) else None;
      workflows, queue, sequence := map[], [], 0;
      metrics := Metrics(0, 0, 0, 0, 0, 0);
      grants, calls, queueGrants, ended := map[], 0, 0, map[];
    }

    method TryAcquire(workflow: string) returns (ok: bool)
      modifies this`global, this`workflows
      ensures ok == Grantable(config, old(Model()), workflow)
      ensures Model() == if ok then TakeSlots(config, old(Model()), workflow) else old(Model())
    {
      if global.Some? {
        if !global.value.CanAcquire() {
          return false;
        }
        global := Some(global.value.Acquired());
      }
      var sem := None;
      if workflow != "" {
        if workflow in workflows {
          sem := Some(workflows[workflow]);
        } else if config.Limit(workflow) > 0 {
          sem := Some(Semaphore(config.Limit(workflow), 0));
        }
      }
      if sem.Some? {
        if !sem.value.CanAcquire() {
          if global.Some? {
            global := Some(global.value.Released());
          }
          return false;
        }
        workflows := workflows[workflow := sem.value.Acquired()];
      }
      return true;
    }

    method RecordAcquire()
      modifies this`metrics
      ensures metrics == old(metrics).(
        acquired := old(metrics.acquired) + 1,
        maxConcurrent := if global.Some? && global.value.held > old(metrics.maxConcurrent)
                         then global.value.held else old(metrics.maxConcurrent))
    {
      var current := if global.Some? then global.value.held else 0;
      metrics := metrics.(acquired := metrics.acquired + 1);
      if current > metrics.maxConcurrent {
        metrics := metrics.(maxConcurrent := current);
      }
    }

    method EnqueueEntry(call: nat, workflow: string, priority: int)
      modifies this`queue, this`sequence
      ensures sequence == old(sequence) + 1
      ensures var entry := Queued(call, workflow, priority, sequence);
        queue == InsertAt(old(queue), Position(old(queue), entry), entry)
    {
      sequence := sequence + 1;
      var entry := Queued(call, workflow, priority, sequence);
      var pos := 0;
      while pos < |queue| && !Before(entry, queue[pos])
        invariant pos <= |queue|
        invariant Position(queue, entry) == pos + Position(queue[pos..], entry)
      {
        pos := pos + 1;
      }
      queue := queue[..pos] + [entry] + queue[pos..];
    }

    method RemoveQueued(call: nat) returns (removed: bool)
      modifies this`queue
      ensures var i := IndexOf(old(queue), call);
        && removed == (i < |old(queue)|)
        && queue == if removed then RemoveAt(old(queue), i) else old(queue)
    {
      var i := 0;
      while i < |queue|
        invariant i <= |queue| && queue == old(queue)
        invariant IndexOf(queue, call) == i + IndexOf(queue[i..], call)
      {
        if queue[i].call == call {
          queue := queue[..i] + queue[i + 1..];
          return true;
        }
        i := i + 1;
      }
      return false;
    }

    /** Takes the slots of the first entry that can be granted now. */
    method SelectQueued() returns (index: nat)
      modifies this`global, this`workflows
      ensures index == FirstGrantable(config, old(Model()), 0)
      ensures Model() ==
        if index < |queue| then TakeSlots(config, old(Model()), queue[index].workflow) else old(Model())
    {
      index := 0;
      while index < |queue|
        invariant index <= |queue| && Model() == old(Model())
        invariant FirstGrantable(config, Model(), 0) == FirstGrantable(config, Model(), index)
      {
        var ok := TryAcquire(queue[index].workflow);
        if ok {
          return index;
        }
        index := index + 1;
      }
    }

    /** Moves an entry whose slots were just taken from the queue to the grants. */
    method GrantSelected(index: nat, ghost before: State)
      requires index < |queue| && before.queue == queue
      requires Model() == TakeSlots(config, before, queue[index].workflow)
      modifies this`queue, this`grants, this`queueGrants, this`metrics
      ensures Model() == GrantEntry(config, before, index)
    {
      var entry := queue[index];
      queue := queue[..index] + queue[index + 1..];
      grants := grants[entry.call := entry.workflow];
      queueGrants := queueGrants + 1;
      RecordAcquire();
    }

    method DispatchLocked()
      modifies this
      ensures Model() == Dispatch(config, old(Model()))
    {
      while true
        invariant Dispatch(config, Model()) == Dispatch(config, old(Model()))
        decreases |queue|
      {
        ghost var before := Model();
        var index := SelectQueued();
        if index == |queue| {
          return;
        }
        GrantSelected(index, before);
      }
    }

    /** The first locked section of WaitWithOptions. */
    method Wait(workflow: string, priority: int) returns (outcome: Outcome, call: nat)
      modifies this
      ensures call == old(calls)
      ensures outcome == ArriveOutcome(config, old(Model()), workflow)
      ensures Model() == Arrive(config, old(Model()), workflow, priority)
    {
      hide Grantable, TakeSlots, InsertAt, Position;
      call := calls;
      calls := calls + 1;
      SlotsIgnoreCalls(config, old(Model()), calls, workflow);
      if |queue| == 0 {
        var ok := TryAcquire(workflow);
        if ok {
          RecordAcquire();
          grants := grants[call := workflow];
          return GrantedNow, call;
        }
      }
      if config.queueSize <= 0 || |queue| >= config.queueSize {
        metrics := metrics.(rejected := metrics.rejected + 1);
        ended := ended[call := Rejected];
        return Refused, call;
      }
      EnqueueEntry(call, workflow, priority);
      metrics := metrics.(queued := metrics.queued + 1);
      return Waits, call;
    }

    /** The locked section of WaitWithOptions after its context ended. */
    method CancelWait(call: nat) returns (removed: bool)
      modifies this
      ensures Model() == Cancel(old(Model()), call)
      ensures removed == (IndexOf(old(queue), call) < |old(queue)|)
    {
      removed := RemoveQueued(call);
      if removed {
        metrics := metrics.(timedOut := metrics.timedOut + 1);
        ended := ended[call := TimedOut];
      }
    }

    /** The release function of a grant; its sync.Once lets the body run once. */
    method ReleaseOnce(call: nat)
      modifies this
      ensures Model() == Release(config, old(Model()), call)
    {
      if call in grants {
        var workflow := grants[call];
        grants := grants - {call};
        ended := ended[call := Released];
        if workflow != "" && workflow in workflows {
          workflows := workflows[workflow := workflows[workflow].Released()];
        }
        if global.Some? {
          global := Some(global.value.Released());
        }
        metrics := metrics.(released := metrics.released + 1);
        assert Model() == GiveBack(old(Model()), call);
        DispatchLocked();
      }
    }
  }
}
