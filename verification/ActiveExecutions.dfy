/** The registry of running executions: each one owns the slot its wait was granted, and gives it
    back when it is removed. */
module ActiveExecutions {
  import opened Wrappers
  import opened Concurrency
  import opened ConcurrencyService

  /** `adding` are the calls of Add that wait, or were granted and are not yet registered; `removing` those
      whose release function Remove has taken out but not yet run. */
  datatype Registry = Registry(
    slots: State, executions: map<string, string>, releases: map<string, nat>, counter: int,
    adding: set<nat>, removing: set<nat>)

  function Empty(c: Config): Registry {
    Registry(Start(c), map[], map[], 0, {}, {})
  }

  function Held(releases: map<string, nat>): set<nat> {
    set id | id in releases :: releases[id]
  }

  /** The grants that a completed Add put into the registry. */
  function Owned(r: Registry): set<nat> {
    Held(r.releases)
  }

  predicate Injective(releases: map<string, nat>) {
    forall a, b | a in releases && b in releases && releases[a] == releases[b] :: a == b
  }

  // ---------------------------------------------------------------- steps

  /** The wait of Add, up to its end or its place in the queue. */
  function BeginAdd(c: Config, r: Registry, workflow: string, priority: int): Registry {
    r.(slots := Arrive(c, r.slots, workflow, priority),
       adding := if ArriveOutcome(c, r.slots, workflow) == Refused then r.adding else r.adding + {r.slots.calls})
  }

  /** The context of a waiting Add ends: it gives up, unless it was granted. */
  function GiveUpAdd(r: Registry, call: nat): Registry {
    r.(slots := Cancel(r.slots, call),
       adding := if IndexOf(r.slots.queue, call) < |r.slots.queue| then r.adding - {call} else r.adding)
  }

  predicate CanRegister(r: Registry, call: nat) {
    call in r.adding && call in r.slots.grants
  }

  /** The locked section of Add, after its wait was granted. */
  function Register(c: Config, r: Registry, call: nat, id: string): Registry
    requires CanRegister(r, call)
  {
    if id in r.executions then r.(slots := Release(c, r.slots, call), adding := r.adding - {call})
    else r.(executions := r.executions[id := r.slots.grants[call]], releases := r.releases[id := call],
            counter := r.counter + 1, adding := r.adding - {call})
  }

  /** The locked section of Remove. */
  function Unregister(r: Registry, id: string): Registry {
    if id in r.executions && id in r.releases
    then r.(executions := r.executions - {id}, releases := r.releases - {id}, counter := r.counter - 1,
            removing := r.removing + {r.releases[id]})
    else r
  }

  /** The rest of Remove: the release function runs. */
  function FinishRemove(c: Config, r: Registry, call: nat): Registry
    requires call in r.removing
  {
    r.(slots := Release(c, r.slots, call), removing := r.removing - {call})
  }

  datatype RegistryStep =
    | Waiting(workflow: string, priority: int)
    | Cancelling(call: nat)
    | Registering(call: nat, id: string)
    | Unregistering(id: string)
    | Finishing(call: nat)

  /** A step that cannot happen in the state changes nothing. */
  function Apply(c: Config, r: Registry, step: RegistryStep): Registry {
    match step
    case Waiting(workflow, priority) => BeginAdd(c, r, workflow, priority)
    case Cancelling(call) => GiveUpAdd(r, call)
    case Registering(call, id) => if CanRegister(r, call) then Register(c, r, call, id) else r
    case Unregistering(id) => Unregister(r, id)
    case Finishing(call) => if call in r.removing then FinishRemove(c, r, call) else r
  }

  function Run(c: Config, r: Registry, steps: seq<RegistryStep>): Registry
    decreases |steps|
  {
    if steps == [] then r else Run(c, Apply(c, r, steps[0]), steps[1..])
  }

  // ---------------------------------------------------------------- invariant

  /** The call waits or holds a slot. */
  predicate Live(s: State, call: nat) {
    InQueue(s, call) || call in s.grants
  }

  /** Who answers for a call: an Add or Remove under way, or a listed execution. */
  predicate Accounted(r: Registry, call: nat) {
    call in r.adding || call in r.removing || call in Owned(r)
  }

  predicate ListsAgree(r: Registry) {
    && r.executions.Keys == r.releases.Keys
    && r.counter == |r.executions|
    && Injective(r.releases)
    && (forall id | id in r.releases ::
          r.releases[id] in r.slots.grants && r.slots.grants[r.releases[id]] == r.executions[id])
  }

  ghost predicate Agree(c: Config, r: Registry) {
    && Inv(c, r.slots) && ListsAgree(r)
    && r.adding !! r.removing && r.adding !! Owned(r) && r.removing !! Owned(r)
    && r.removing <= r.slots.grants.Keys
    && forall call: nat :: Live(r.slots, call) <==> Accounted(r, call)
  }

  ghost predicate GrantsKept(before: map<nat, string>, after: map<nat, string>, except: set<nat>) {
    forall call | call in before && call !in except :: call in after && after[call] == before[call]
  }

  lemma {:induction false} DispatchKeepsLive(c: Config, s: State)
    requires CoreInv(c, s)
    ensures GrantsKept(s.grants, Dispatch(c, s).grants, {})
    ensures forall call: nat :: Live(Dispatch(c, s), call) <==> Live(s, call)
    decreases |s.queue|
  {
    var i := FirstGrantable(c, s, 0);
    if i < |s.queue| {
      var t := GrantEntry(c, s, i);
      assert InQueue(s, s.queue[i].call) && OnePlace(s, s.queue[i].call);
      GrantEntryKeepsCore(c, s, i);
      forall call: nat
        ensures Live(t, call) <==> Live(s, call)
      {
        RemoveLeavesOthers(s, t, i, call);
      }
      DispatchKeepsLive(c, t);
    }
  }

  lemma ReleaseEndsOne(c: Config, s: State, call: nat)
    requires Inv(c, s) && call in s.grants
    ensures Inv(c, Release(c, s, call))
    ensures GrantsKept(s.grants, Release(c, s, call).grants, {call})
    ensures forall other: nat :: Live(Release(c, s, call), other) <==> Live(s, other) && other != call
  {
    var t := GiveBack(s, call);
    Concurrency.StepKeepsInv(c, s, ReleaseStep(call));
    GiveBackKeepsCore(c, s, call);
    DispatchKeepsLive(c, t);
    assert OnePlace(s, call);
    forall other: nat
      ensures Live(t, other) <==> Live(s, other) && other != call
    {
      assert InQueue(t, other) <==> InQueue(s, other);
    }
  }

  lemma ArriveBeginsOne(c: Config, s: State, workflow: string, priority: int)
    requires Inv(c, s)
    ensures GrantsKept(s.grants, Arrive(c, s, workflow, priority).grants, {}) && !Live(s, s.calls)
    ensures forall call: nat :: Live(Arrive(c, s, workflow, priority), call) <==>
              Live(s, call) || (call == s.calls && ArriveOutcome(c, s, workflow) != Refused)
  {
    hide Grantable, Sorted, SlotInv;
    var t := Arrive(c, s, workflow, priority);
    assert OnePlace(s, s.calls);
    forall call: nat
      ensures Live(t, call) <==> Live(s, call) || (call == s.calls && ArriveOutcome(c, s, workflow) != Refused)
    {
      if ArriveOutcome(c, s, workflow) == Waits {
        var entry := Queued(s.calls, workflow, priority, s.sequence + 1);
        InsertAddsOne(s, t, Position(s.queue, entry), entry, call);
      } else {
        assert InQueue(t, call) <==> InQueue(s, call);
      }
    }
  }

  lemma CancelEndsWaiting(c: Config, s: State, call: nat)
    requires Inv(c, s)
    ensures Inv(c, Cancel(s, call)) && Cancel(s, call).grants == s.grants
    ensures IndexOf(s.queue, call) < |s.queue| <==> InQueue(s, call)
    ensures forall other: nat ::
      Live(Cancel(s, call), other) <==> Live(s, other) && !(other == call && InQueue(s, call))
  {
    CancelKeepsInv(c, s, call);
    assert OnePlace(s, call);
    var t, i := Cancel(s, call), IndexOf(s.queue, call);
    forall other: nat
      ensures Live(t, other) <==> Live(s, other) && !(other == call && InQueue(s, call))
    {
      if i < |s.queue| {
        RemoveLeavesOthers(s, t, i, other);
      }
    }
  }

  lemma BeginAddKeepsAgree(c: Config, r: Registry, workflow: string, priority: int)
    requires Agree(c, r)
    ensures Agree(c, BeginAdd(c, r, workflow, priority))
  {
    ArriveKeepsInv(c, r.slots, workflow, priority);
    ArriveBeginsOne(c, r.slots, workflow, priority);
    hide Inv, Live, Arrive, ArriveOutcome;
    assert Owned(BeginAdd(c, r, workflow, priority)) == Owned(r);
  }

  lemma GiveUpAddKeepsAgree(c: Config, r: Registry, call: nat)
    requires Agree(c, r)
    ensures Agree(c, GiveUpAdd(r, call))
  {
    CancelEndsWaiting(c, r.slots, call);
    assert OnePlace(r.slots, call);
    assert Owned(GiveUpAdd(r, call)) == Owned(r);
    assert InQueue(r.slots, call) ==> call !in r.removing && call !in Owned(r);
    hide Inv, Cancel, InQueue;
  }

  lemma DuplicateKeepsAgree(c: Config, r: Registry, call: nat, id: string)
    requires Agree(c, r) && CanRegister(r, call) && id in r.executions
    ensures Agree(c, Register(c, r, call, id))
  {
    hide Inv, Release, Live;
    ReleaseEndsOne(c, r.slots, call);
    assert Owned(Register(c, r, call, id)) == Owned(r);
  }

  lemma HeldAdds(releases: map<string, nat>, id: string, call: nat)
    requires id !in releases && Injective(releases) && call !in Held(releases)
    ensures Held(releases[id := call]) == Held(releases) + {call} && Injective(releases[id := call])
  {
    var more := releases[id := call];
    assert more[id] == call;
    forall x | x in Held(releases)
      ensures x in Held(more)
    {
      var other :| other in releases && releases[other] == x;
      assert more[other] == x;
    }
    forall other | other in releases
      ensures releases[other] != call
    {}
  }

  lemma HeldRemoves(releases: map<string, nat>, id: string)
    requires id in releases && Injective(releases)
    ensures Held(releases - {id}) == Held(releases) - {releases[id]} && Injective(releases - {id})
  {
    forall x | x in Held(releases) && x != releases[id]
      ensures x in Held(releases - {id})
    {
      var other :| other in releases && releases[other] == x;
      assert other in releases - {id};
    }
  }

  lemma NewcomerKeepsAgree(c: Config, r: Registry, call: nat, id: string)
    requires Agree(c, r) && CanRegister(r, call) && id !in r.executions
    ensures Agree(c, Register(c, r, call, id))
  {
    hide Inv, Live, Held, Injective;
    var t := Register(c, r, call, id);
    assert t.executions.Keys == r.executions.Keys + {id} && t.releases.Keys == r.releases.Keys + {id};
    HeldAdds(r.releases, id, call);
  }

  lemma RegisterKeepsAgree(c: Config, r: Registry, call: nat, id: string)
    requires Agree(c, r) && CanRegister(r, call)
    ensures Agree(c, Register(c, r, call, id))
  {
    hide Agree, CanRegister, Register;
    if id in r.executions {
      DuplicateKeepsAgree(c, r, call, id);
    } else {
      NewcomerKeepsAgree(c, r, call, id);
    }
  }

  lemma UnregisterKeepsAgree(c: Config, r: Registry, id: string)
    requires Agree(c, r)
    ensures Agree(c, Unregister(r, id))
  {
    hide Inv, Live, Held, Injective;
    if id in r.executions {
      var t := Unregister(r, id);
      assert t.executions.Keys == r.executions.Keys - {id} && t.releases.Keys == r.releases.Keys - {id};
      HeldRemoves(r.releases, id);
      OwnsItsSlot(c, r, id);
    }
  }

  lemma OwnsItsSlot(c: Config, r: Registry, id: string)
    requires Agree(c, r) && id in r.releases
    ensures r.releases[id] in Owned(r) && r.releases[id] in r.slots.grants
  {}

  lemma FinishKeepsAgree(c: Config, r: Registry, call: nat)
    requires Agree(c, r) && call in r.removing
    ensures Agree(c, FinishRemove(c, r, call))
  {
    hide Inv, Release, Live;
    ReleaseEndsOne(c, r.slots, call);
    assert Owned(FinishRemove(c, r, call)) == Owned(r);
  }

  lemma StepKeepsAgree(c: Config, r: Registry, step: RegistryStep)
    requires Agree(c, r)
    ensures Agree(c, Apply(c, r, step))
  {
    hide Agree;
    match step
    case Waiting(workflow, priority) => BeginAddKeepsAgree(c, r, workflow, priority);
    case Cancelling(call) => GiveUpAddKeepsAgree(c, r, call);
    case Registering(call, id) =>
      if CanRegister(r, call) {
        RegisterKeepsAgree(c, r, call, id);
      }
    case Unregistering(id) => UnregisterKeepsAgree(c, r, id);
    case Finishing(call) =>
      if call in r.removing {
        FinishKeepsAgree(c, r, call);
      }
  }

  lemma {:induction false} RunKeepsAgree(c: Config, r: Registry, steps: seq<RegistryStep>)
    requires Agree(c, r)
    ensures Agree(c, Run(c, r, steps))
    decreases |steps|
  {
    if steps != [] {
      StepKeepsAgree(c, r, steps[0]);
      RunKeepsAgree(c, Apply(c, r, steps[0]), steps[1..]);
    }
  }

  lemma {:induction false} InjectiveValues(m: map<string, nat>)
    requires Injective(m)
    ensures |Held(m)| == |m|
    decreases |m|
  {
    if m != map[] {
      var id :| id in m;
      var rest := m - {id};
      InjectiveValues(rest);
      assert rest.Keys == m.Keys - {id};
      assert |m.Keys| == |rest.Keys| + 1;
      HeldRemoves(m, id);
      assert m[id] in Held(m);
    }
  }

  lemma NotBoth(c: Config, r: Registry, call: nat)
    requires Agree(c, r)
    ensures !(InQueue(r.slots, call) && call in r.slots.grants)
  {
    assert OnePlace(r.slots, call);
  }

  /** Agreement splits the grants and the queue among their owners. */
  lemma AgreementSplits(c: Config, r: Registry)
    requires Agree(c, r)
    ensures var granted := r.adding * r.slots.grants.Keys;
      && r.slots.grants.Keys == Owned(r) + r.removing + granted
      && forall call: nat :: InQueue(r.slots, call) <==> call in r.adding - granted
  {
    var granted := r.adding * r.slots.grants.Keys;
    forall call: nat
      ensures InQueue(r.slots, call) <==> call in r.adding - granted
      ensures call in r.slots.grants <==> call in Owned(r) + r.removing + granted
    {
      assert Live(r.slots, call) <==> Accounted(r, call);
      NotBoth(c, r, call);
      hide Inv, InQueue;
    }
  }

  lemma AgreementCounts(c: Config, r: Registry)
    requires Agree(c, r)
    ensures var granted := r.adding * r.slots.grants.Keys;
      && Owned(r) !! r.removing && Owned(r) !! granted && r.removing !! granted
      && |Owned(r)| == r.counter == |r.executions|
  {
    InjectiveValues(r.releases);
    hide Inv, Held, Injective, Live;
    assert |r.releases| == |r.releases.Keys| && |r.executions| == |r.executions.Keys|;
  }

  /** In every reachable registry: each outstanding slot belongs to exactly one listed execution, or one
      Add or Remove under way, and each waiting call to one Add; so no slot is ever lost. */
  lemma SlotsAreOwned(c: Config, steps: seq<RegistryStep>)
    ensures var r := Run(c, Empty(c), steps);
      var granted := r.adding * r.slots.grants.Keys;
      && r.executions.Keys == r.releases.Keys && r.counter == |r.executions|
      && r.slots.grants.Keys == Owned(r) + r.removing + granted
      && Owned(r) !! r.removing && Owned(r) !! granted && r.removing !! granted
      && |r.slots.grants| == r.counter + |r.removing| + |granted|
      && forall call: nat :: InQueue(r.slots, call) <==> call in r.adding - granted
  {
    assert Agree(c, Empty(c));
    RunKeepsAgree(c, Empty(c), steps);
    var r := Run(c, Empty(c), steps);
    assert r.executions.Keys == r.releases.Keys;
    hide Agree, Run, Held, InQueue;
    AgreementSplits(c, r);
    AgreementCounts(c, r);
    assert |r.slots.grants| == |r.slots.grants.Keys|;
  }

  /** A duplicate id costs the newcomer its slot and leaves the registered execution alone. */
  lemma DuplicateIdGivesSlotBack(c: Config, r: Registry, call: nat, id: string)
    requires Agree(c, r) && CanRegister(r, call) && id in r.executions
    ensures var t := Register(c, r, call, id);
      && t.executions == r.executions && t.releases == r.releases && t.counter == r.counter
      && call !in t.slots.grants && t.slots.metrics.released == r.slots.metrics.released + 1
      && r.releases[id] in t.slots.grants
  {
    var s := r.slots;
    ReleaseEndsOne(c, s, call);
    GiveBackKeepsCore(c, s, call);
    DispatchKeepsEnded(c, GiveBack(s, call), call);
    DispatchKeepsCore(c, GiveBack(s, call));
    assert OnePlace(Release(c, s, call), call);
    DispatchReleasesNothing(c, GiveBack(s, call));
  }

  lemma {:induction false} DispatchReleasesNothing(c: Config, s: State)
    ensures Dispatch(c, s).metrics.released == s.metrics.released
    decreases |s.queue|
  {
    var i := FirstGrantable(c, s, 0);
    if i < |s.queue| {
      DispatchReleasesNothing(c, GrantEntry(c, s, i));
    }
  }

  /** Removing an id twice is removing it once, and the slot comes back once. */
  lemma DoubleRemove(c: Config, r: Registry, id: string)
    requires Agree(c, r) && id in r.executions
    ensures var call := r.releases[id];
      var once := FinishRemove(c, Unregister(r, id), call);
      && Unregister(once, id) == once
      && once.counter == r.counter - 1
      && call !in once.slots.grants && once.slots.metrics.released == r.slots.metrics.released + 1
  {
    var call := r.releases[id];
    var s := r.slots;
    GiveBackKeepsCore(c, s, call);
    DispatchKeepsEnded(c, GiveBack(s, call), call);
    DispatchKeepsCore(c, GiveBack(s, call));
    assert OnePlace(Release(c, s, call), call);
    DispatchReleasesNothing(c, GiveBack(s, call));
  }

  // ---------------------------------------------------------------- the registry as it updates its maps

  class ActiveExecutions {
    const concurrency: ConcurrencyControlService
    var executions: map<string, string>
    var releases: map<string, nat>
    var counter: int
    ghost var adding: set<nat>
    ghost var removing: set<nat>

    ghost function Model(): Registry
      reads this, concurrency
    {
      Registry(concurrency.Model(), executions, releases, counter, adding, removing)
    }

    constructor (config: Config)
      ensures Model() == Empty(config) && concurrency.config == config && fresh(concurrency)
    {
      concurrency := new ConcurrencyControlService(config);
      executions, releases, counter, adding, removing := map[], map[], 0, {}, {};
    }

    /** Add up to the end of its wait's first section. */
    method StartAdd(workflow: string, priority: int) returns (outcome: Outcome, call: nat)
      modifies this, concurrency
      ensures outcome == ArriveOutcome(concurrency.config, old(Model()).slots, workflow)
      ensures call == old(Model()).slots.calls
      ensures Model() == BeginAdd(concurrency.config, old(Model()), workflow, priority)
    {
      outcome, call := concurrency.Wait(workflow, priority);
      if outcome != Refused {
        adding := adding + {call};
      }
    }

    /** The context of an Add ends while it waits. */
    method CancelAdd(call: nat) returns (gaveUp: bool)
      modifies this, concurrency
      ensures gaveUp == (IndexOf(old(Model()).slots.queue, call) < |old(Model()).slots.queue|)
      ensures Model() == GiveUpAdd(old(Model()), call)
    {
      gaveUp := concurrency.CancelWait(call);
      if gaveUp {
        adding := adding - {call};
      }
    }

    method CompleteAdd(call: nat, id: string) returns (added: bool)
      requires CanRegister(Model(), call)
      modifies this, concurrency
      ensures added == (id !in old(executions))
      ensures Model() == Register(concurrency.config, old(Model()), call, id)
    {
      adding := adding - {call};
      if id in executions {
        concurrency.ReleaseOnce(call);
        return false;
      }
      executions := executions[id := concurrency.grants[call]];
      releases := releases[id := call];
      counter := counter + 1;
      return true;
    }

    /** Both sections of Remove, with no other step between them. */
    method Remove(id: string)
      requires Agree(concurrency.config, Model())
      modifies this, concurrency
      ensures Model() ==
        if id in old(executions)
        then FinishRemove(concurrency.config, Unregister(old(Model()), id), old(releases)[id])
        else old(Model())
    {
      var release: Option<nat> := None;
      if id in executions {
        release := Some(releases[id]);
        executions := executions - {id};
        releases := releases - {id};
        counter := counter - 1;
        removing := removing + {release.value};
      }
      if release.Some? {
        concurrency.ReleaseOnce(release.value);
        removing := removing - {release.value};
      }
    }
  }
}
