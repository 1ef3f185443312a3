/**
 The leader lease that keeps several server instances from running the scheduler at once.
 Each instance repeats SET-if-absent / GET / compare-and-PEXPIRE against one Redis key, inside
 one deadline per round, and holds a local leader flag; a stopping instance sends compare-and-DEL.

 The protocol is a transition system. Time is a clock in nanoseconds. A request that was sent
 stays in `net` until it is dropped: it can be processed late, several times or never, and the
 reply of the command a call is waiting for can be delayed or lost.
 */
module Leader {
  import opened Wrappers

  const MILLISECOND: nat := 1_000_000
  const SECOND: nat := 1000 * MILLISECOND

  type Id = string

  // ---------------------------------------------------------------- configuration

  datatype Settings = Settings(ttl: int, interval: int) {
    function CallTimeout(): int {
      var timeout := ttl - 2 * interval;
      if timeout <= 0 then ttl / 2 else timeout
    }

    // PEXPIRE takes whole milliseconds
    function RenewTTL(): int {
      ttl / MILLISECOND * MILLISECOND
    }
  }

  /** A ticker needs a positive interval. */
  type Config = c: Settings | c.interval > 0 witness Settings(3, 1)

  function ClampRenewInterval(interval: int, ttl: int): (r: int)
    requires ttl > 0
    ensures r > 0
    ensures ttl >= 3 ==> r <= ttl / 3
    ensures ttl >= 3 && 0 < interval <= ttl / 3 ==> r == interval
    ensures ttl >= 3 && (interval <= 0 || interval >= ttl / 3) ==> r == ttl / 3
  {
    var wanted := if interval <= 0 then ttl / 3 else interval;
    var capped := if ttl / 3 > 0 && wanted > ttl / 3 then ttl / 3 else wanted;
    if capped <= 0 then MILLISECOND else capped
  }

  function NewRedisLeaderWithClient(ttl: int): Config {
    var effective := if ttl <= 0 then 30 * SECOND else ttl;
    var third := effective / 3;
    var interval := if third < 100 * MILLISECOND then 100 * MILLISECOND else third;
    Settings(effective, ClampRenewInterval(interval, effective))
  }

  function NewRedisLeader(ttl: int, renewInterval: int): Config {
    var base := NewRedisLeaderWithClient(ttl);
    var interval := if renewInterval > 0 then renewInterval else base.interval;
    Settings(base.ttl, ClampRenewInterval(interval, base.ttl))
  }

  /** The settings under which the lease arithmetic closes: decidable from the two durations. */
  predicate TightTiming(ttl: int, renewInterval: int) {
    var effective := if ttl <= 0 then 30 * SECOND else ttl;
    && effective % 3 == 0
    && effective % MILLISECOND == 0
    && (renewInterval <= 0 || renewInterval >= effective / 3)
  }

  // ---------------------------------------------------------------- states

  datatype Cmd = SetNX | Get | Renew

  datatype Reply = Done(ok: bool) | Owner(name: Option<Id>)

  datatype Request = Call(id: Id, call: nat, cmd: Cmd) | Release(id: Id)

  datatype Lease = Lease(owner: Id, expiry: int)

  /** A call remembers when it began (its deadline follows), the command it waits for, the reply
      that is on its way, and the pending tick of the ticker, which the first call lacks. */
  datatype Phase =
    | Off
    | Calling(start: nat, cmd: Cmd, reply: Option<Reply>, ticker: Option<nat>)
    | Waiting(tick: nat)

  /** `since` is the start of the call that last set the flag. */
  datatype Instance = Instance(phase: Phase, leader: bool, since: nat, calls: nat, cancelled: bool)

  datatype State = State(now: nat, key: Option<Lease>, net: set<Request>, insts: map<Id, Instance>) {
    predicate Live() {
      key.Some? && now < key.value.expiry
    }

    predicate IsLeader(id: Id) {
      id in insts && insts[id].leader
    }
  }

  predicate Init(s: State) {
    && s.net == {}
    && forall id | id in s.insts ::
        s.insts[id].phase == Off && !s.insts[id].leader && !s.insts[id].cancelled
  }

  // ---------------------------------------------------------------- the server

  function Serve(c: Config, s: State, req: Request): (Option<Lease>, Reply) {
    match req
    case Call(id, _, SetNX) =>
      if s.Live() then (s.key, Done(false)) else (Some(Lease(id, s.now + c.ttl)), Done(true))
    case Call(id, _, Get) =>
      (s.key, Owner(if s.Live() then Some(s.key.value.owner) else None))
    case Call(id, _, Renew) =>
      if s.Live() && s.key.value.owner == id
      then (Some(Lease(id, s.now + c.RenewTTL())), Done(true))
      else (s.key, Done(false))
    case Release(id) =>
      if s.Live() && s.key.value.owner == id then (None, Done(true)) else (s.key, Done(false))
  }

  /** The call that sent `req` is still waiting for exactly this command. */
  predicate Awaits(s: State, req: Request) {
    && req.Call?
    && req.id in s.insts
    && var x := s.insts[req.id];
      x.phase.Calling? && x.phase.cmd == req.cmd && x.calls == req.call
  }

  // ---------------------------------------------------------------- the client

  function Send(s: State, id: Id, x: Instance, cmd: Cmd): State
    requires x.phase.Calling?
  {
    s.(insts := s.insts[id := x.(phase := x.phase.(cmd := cmd, reply := None))],
       net := s.net + {Call(id, x.calls, cmd)})
  }

  /** tryAcquire returns: the flag is stored and, after the first call, the ticker is created. */
  function EndCall(c: Config, s: State, id: Id, x: Instance, leader: bool): State
    requires x.phase.Calling?
  {
    var tick := if x.phase.ticker.Some? then x.phase.ticker.value else s.now + c.interval;
    var since := if leader then x.phase.start else x.since;
    s.(insts := s.insts[id := x.(phase := Waiting(tick), leader := leader, since := since)])
  }

  function Receive(c: Config, s: State, id: Id): State
    requires id in s.insts
    requires s.insts[id].phase.Calling? && s.insts[id].phase.reply.Some?
  {
    var x := s.insts[id];
    match (x.phase.cmd, x.phase.reply.value)
    case (SetNX, Done(true)) => EndCall(c, s, id, x, true)
    case (SetNX, Done(false)) => Send(s, id, x, Get)
    case (Get, Owner(owner)) =>
      if owner == Some(id) then Send(s, id, x, Renew) else EndCall(c, s, id, x, false)
    case (Renew, Done(ok)) => EndCall(c, s, id, x, ok)
    case _ => EndCall(c, s, id, x, false)
  }

  // ---------------------------------------------------------------- steps

  datatype Action =
    | Advance(to: nat)                   // exact timers: no deadline or tick is overslept
    | Start(id: Id)
    | Process(req: Request, replies: bool) // one atomic server step; its reply may be lost
    | Drop(req: Request)
    | Arrive(id: Id)                     // a reply reaches the waiting call before its deadline
    | Fail(id: Id)                       // a command error, the deadline or a cancelled context
    | Tick(id: Id, periods: nat)         // the ticker fires; the next tick is `periods` later
    | Cancel(id: Id)                     // Stop cancels the run context
    | Exit(id: Id)                       // run sees the cancelled context
    | SendRelease(id: Id)                // Stop, after run ended (or never began)

  predicate MayAdvance(c: Config, x: Instance, now: nat, to: nat) {
    match x.phase
    case Off => true
    case Calling(start, _, _, _) => c.CallTimeout() > 0 ==> to <= start + c.CallTimeout()
    case Waiting(tick) => to <= tick || to == now
  }

  predicate InPhase(s: State, id: Id, calling: bool) {
    && id in s.insts
    && (if calling then s.insts[id].phase.Calling? else s.insts[id].phase.Waiting?)
  }

  predicate Enabled(c: Config, s: State, a: Action) {
    match a
    case Advance(to) => s.now <= to && forall id | id in s.insts :: MayAdvance(c, s.insts[id], s.now, to)
    case Start(id) => id in s.insts && s.insts[id].phase == Off && Request.Release(id) !in s.net
    case Process(req, _) => req in s.net
    case Drop(req) => req in s.net
    case Arrive(id) =>
      && InPhase(s, id, true)
      && s.insts[id].phase.reply.Some?
      && (c.CallTimeout() > 0 ==> s.now < s.insts[id].phase.start + c.CallTimeout())
    case Fail(id) => InPhase(s, id, true)
    case Tick(id, periods) =>
      && InPhase(s, id, false)
      && periods > 0
      && var next := s.insts[id].phase.tick + periods * c.interval;
        s.insts[id].phase.tick <= s.now <= next <= s.now + c.interval
    case Cancel(id) => id in s.insts && s.insts[id].phase != Off
    case Exit(id) => InPhase(s, id, false) && s.insts[id].cancelled
    case SendRelease(id) => id in s.insts && s.insts[id].phase == Off
  }

  function BeginCall(s: State, id: Id, ticker: Option<nat>): State
    requires id in s.insts
  {
    var x := s.insts[id];
    var y := x.(phase := Calling(s.now, SetNX, None, ticker), calls := x.calls + 1);
    s.(insts := s.insts[id := y], net := s.net + {Call(id, y.calls, SetNX)})
  }

  function Started(s: State, id: Id): State
    requires id in s.insts
  {
    BeginCall(s.(insts := s.insts[id := s.insts[id].(cancelled := false)]), id, None)
  }

  function Apply(c: Config, s: State, a: Action): State
    requires Enabled(c, s, a)
  {
    match a
    case Advance(to) => s.(now := to)
    case Start(id) => Started(s, id)
    case Process(req, replies) =>
      var (key, reply) := Serve(c, s, req);
      var served := s.(key := key);
      if replies && Awaits(s, req)
      then var x := s.insts[req.id];
        served.(insts := s.insts[req.id := x.(phase := x.phase.(reply := Some(reply)))])
      else served
    case Drop(req) => s.(net := s.net - {req})
    case Arrive(id) => Receive(c, s, id)
    case Fail(id) => EndCall(c, s, id, s.insts[id], false)
    case Tick(id, periods) => BeginCall(s, id, Some(s.insts[id].phase.tick + periods * c.interval))
    case Cancel(id) => s.(insts := s.insts[id := s.insts[id].(cancelled := true)])
    case Exit(id) => s.(insts := s.insts[id := s.insts[id].(phase := Off, leader := false)])
    case SendRelease(id) =>
      s.(net := s.net + {Request.Release(id)}, insts := s.insts[id := s.insts[id].(leader := false)])
  }

  predicate Legal(c: Config, s: State, run: seq<Action>)
    decreases |run|
  {
    run == [] || (Enabled(c, s, run[0]) && Legal(c, Apply(c, s, run[0]), run[1..]))
  }

  function Final(c: Config, s: State, run: seq<Action>): State
    requires Legal(c, s, run)
    decreases |run|
  {
    if run == [] then s else Final(c, Apply(c, s, run[0]), run[1..])
  }

  // ---------------------------------------------------------------- the two guarantees

  /** Every flag is backed by a live key that names its instance. */
  ghost predicate FlagsBacked(s: State) {
    forall id | s.IsLeader(id) :: s.Live() && s.key.value.owner == id
  }

  ghost predicate AtMostOneLeader(s: State) {
    forall a, b | s.IsLeader(a) && s.IsLeader(b) :: a == b
  }

  ghost predicate AlwaysBacked(c: Config)
  {
    forall s, run | Init(s) && Legal(c, s, run) :: FlagsBacked(Final(c, s, run))
  }

  ghost predicate MutualExclusion(c: Config)
  {
    forall s, run | Init(s) && Legal(c, s, run) :: AtMostOneLeader(Final(c, s, run))
  }

  // ---------------------------------------------------------------- the invariant

  predicate Tight(c: Config) {
    c.ttl == 3 * c.interval && c.interval > 0 && c.RenewTTL() == c.ttl
  }

  /** The key names `id` and outlives a call begun at `from` by a whole lease. */
  predicate Holds(c: Config, s: State, id: Id, from: nat) {
    s.key.Some? && s.key.value.owner == id && s.key.value.expiry >= from + c.ttl
  }

  function Max(a: nat, b: nat): nat {
    if a < b then b else a
  }

  predicate InstanceInv(c: Config, s: State, id: Id, x: Instance) {
    && (x.phase != Off ==> Request.Release(id) !in s.net)
    && (x.leader ==> x.since <= s.now && Holds(c, s, id, x.since))
    && match x.phase
      case Off => !x.leader
      case Calling(start, cmd, reply, ticker) =>
        && start <= s.now <= start + c.interval
        && (ticker.Some? ==> ticker.value <= start + c.interval)
        && (x.leader ==> start + c.interval < x.since + c.ttl)
        && (reply == Some(Done(true)) && cmd != Get ==> Holds(c, s, id, start))
      case Waiting(tick) =>
        x.leader ==> Max(s.now, tick) + c.interval < x.since + c.ttl
  }

  predicate Inv(c: Config, s: State) {
    forall id | id in s.insts :: InstanceInv(c, s, id, s.insts[id])
  }

  lemma InvBacksFlags(c: Config, s: State)
    requires Tight(c) && Inv(c, s)
    ensures FlagsBacked(s) && AtMostOneLeader(s)
  {
  }

  /** No server step takes a key away from an instance that may rely on it. */
  lemma ServeKeepsHeldKey(c: Config, s: State, req: Request, id: Id, from: nat)
    requires Tight(c)
    requires Holds(c, s, id, from) && from <= s.now < from + c.ttl
    requires req != Request.Release(id)
    ensures Holds(c, s.(key := Serve(c, s, req).0), id, from)
  {
  }

  lemma ProcessKeepsInv(c: Config, s: State, req: Request, replies: bool)
    requires Tight(c) && Inv(c, s) && Enabled(c, s, Process(req, replies))
    ensures Inv(c, Apply(c, s, Process(req, replies)))
  {
    var t := Apply(c, s, Process(req, replies));
    forall id | id in t.insts
      ensures InstanceInv(c, t, id, t.insts[id])
    {
      var x := s.insts[id];
      if x.leader {
        ServeKeepsHeldKey(c, s, req, id, x.since);
      }
      if x.phase.Calling? && Holds(c, s, id, x.phase.start) {
        ServeKeepsHeldKey(c, s, req, id, x.phase.start);
      }
    }
  }

  /** A step of one instance that leaves the clock and the key alone cannot disturb the others. */
  lemma OthersUndisturbed(c: Config, s: State, t: State, id: Id)
    requires Inv(c, s) && id in s.insts && id in t.insts
    requires t.now == s.now && t.key == s.key
    requires forall r | r in t.net && r.Release? :: r in s.net || r.id == id
    requires t.insts == s.insts[id := t.insts[id]]
    requires InstanceInv(c, t, id, t.insts[id])
    ensures Inv(c, t)
  {
    forall other | other in t.insts
      ensures InstanceInv(c, t, other, t.insts[other])
    {
      if other != id {
        assert InstanceInv(c, s, other, s.insts[other]);
        assert Request.Release(other) in t.net ==> Request.Release(other) in s.net;
      }
    }
  }

  /** However a call ends, the lease it leaves behind outlasts the next call's deadline. */
  lemma EndCallKeepsInv(c: Config, s: State, id: Id, leader: bool)
    requires Tight(c) && Inv(c, s) && InPhase(s, id, true)
    requires var x := s.insts[id];
      leader ==> Holds(c, s, id, x.phase.start) && s.now < x.phase.start + c.interval
    ensures Inv(c, EndCall(c, s, id, s.insts[id], leader))
  {
    assert InstanceInv(c, s, id, s.insts[id]);
    OthersUndisturbed(c, s, EndCall(c, s, id, s.insts[id], leader), id);
  }

  lemma SendKeepsInv(c: Config, s: State, id: Id, cmd: Cmd)
    requires Tight(c) && Inv(c, s) && InPhase(s, id, true)
    ensures Inv(c, Send(s, id, s.insts[id], cmd))
  {
    assert InstanceInv(c, s, id, s.insts[id]);
    OthersUndisturbed(c, s, Send(s, id, s.insts[id], cmd), id);
  }

  lemma ArriveKeepsInv(c: Config, s: State, id: Id)
    requires Tight(c) && Inv(c, s) && Enabled(c, s, Arrive(id))
    ensures Inv(c, Apply(c, s, Arrive(id)))
  {
    var x := s.insts[id];
    assert InstanceInv(c, s, id, x);
    match (x.phase.cmd, x.phase.reply.value)
    case (SetNX, Done(true)) => EndCallKeepsInv(c, s, id, true);
    case (SetNX, Done(false)) => SendKeepsInv(c, s, id, Get);
    case (Get, Owner(owner)) =>
      if owner == Some(id) {
        SendKeepsInv(c, s, id, Renew);
      } else {
        EndCallKeepsInv(c, s, id, false);
      }
    case (Renew, Done(ok)) => EndCallKeepsInv(c, s, id, ok);
    case _ => EndCallKeepsInv(c, s, id, false);
  }

  lemma AdvanceKeepsInv(c: Config, s: State, to: nat)
    requires Tight(c) && Inv(c, s) && Enabled(c, s, Advance(to))
    ensures Inv(c, Apply(c, s, Advance(to)))
  {
    var t := Apply(c, s, Advance(to));
    forall id | id in t.insts
      ensures InstanceInv(c, t, id, t.insts[id])
    {
      assert InstanceInv(c, s, id, s.insts[id]);
      assert MayAdvance(c, s.insts[id], s.now, to);
    }
  }

  lemma StepKeepsInv(c: Config, s: State, a: Action)
    requires Tight(c) && Inv(c, s) && Enabled(c, s, a)
    ensures Inv(c, Apply(c, s, a))
  {
    match a
    case Advance(to) => AdvanceKeepsInv(c, s, to);
    case Process(req, replies) => ProcessKeepsInv(c, s, req, replies);
    case Arrive(id) => ArriveKeepsInv(c, s, id);
    case Fail(id) => EndCallKeepsInv(c, s, id, false);
    case Drop(req) =>
      forall id | id in s.insts
        ensures InstanceInv(c, Apply(c, s, a), id, s.insts[id])
      {
        assert InstanceInv(c, s, id, s.insts[id]);
      }
    case _ =>
      assert InstanceInv(c, s, a.id, s.insts[a.id]);
      OthersUndisturbed(c, s, Apply(c, s, a), a.id);
  }

  lemma {:induction false} RunKeepsInv(c: Config, s: State, run: seq<Action>)
    requires Tight(c) && Inv(c, s) && Legal(c, s, run)
    ensures Inv(c, Final(c, s, run))
    decreases |run|
  {
    if run != [] {
      StepKeepsInv(c, s, run[0]);
      RunKeepsInv(c, Apply(c, s, run[0]), run[1..]);
    }
  }

  // ---------------------------------------------------------------- when the arithmetic does not close

  ghost predicate Reaches(c: Config, s: State, t: State)
  {
    exists run :: Legal(c, s, run) && Final(c, s, run) == t
  }

  lemma {:induction false} RunThenStep(c: Config, s: State, run: seq<Action>, a: Action)
    requires Legal(c, s, run) && Enabled(c, Final(c, s, run), a)
    ensures Legal(c, s, run + [a]) && Final(c, s, run + [a]) == Apply(c, Final(c, s, run), a)
    decreases |run|
  {
    if run == [] {
      assert Legal(c, Apply(c, s, a), []);
    } else {
      RunThenStep(c, Apply(c, s, run[0]), run[1..], a);
      assert (run + [a])[1..] == run[1..] + [a];
    }
  }

  lemma Step(c: Config, s: State, t: State, a: Action) returns (u: State)
    requires Reaches(c, s, t) && Enabled(c, t, a)
    ensures u == Apply(c, t, a) && Reaches(c, s, u)
  {
    var run :| Legal(c, s, run) && Final(c, s, run) == t;
    RunThenStep(c, s, run, a);
    u := Apply(c, t, a);
  }

  /** Once a flag outlives its key, an idle rival acquires the key in the same instant. */
  lemma RivalAcquires(c: Config, s: State, t: State, a: Id, b: Id) returns (u: State)
    requires Reaches(c, s, t)
    requires t.IsLeader(a) && !t.Live() && a != b
    requires b in t.insts && t.insts[b].phase == Off && Request.Release(b) !in t.net
    ensures Reaches(c, s, u) && u.IsLeader(a) && u.IsLeader(b)
  {
    u := Step(c, s, t, Start(b));
    u := Step(c, s, u, Process(Call(b, u.insts[b].calls, SetNX), true));
    u := Step(c, s, u, Arrive(b));
  }

  /** The server answers the command that `id` waits for. */
  lemma Answer(c: Config, s: State, t: State, id: Id) returns (u: State)
    requires Reaches(c, s, t) && InPhase(t, id, true)
    requires Call(id, t.insts[id].calls, t.insts[id].phase.cmd) in t.net
    ensures Reaches(c, s, u)
    ensures var x := t.insts[id];
      var (key, reply) := Serve(c, t, Call(id, x.calls, x.phase.cmd));
      u == t.(key := key, insts := t.insts[id := x.(phase := x.phase.(reply := Some(reply)))])
  {
    u := Step(c, s, t, Process(Call(id, t.insts[id].calls, t.insts[id].phase.cmd), true));
  }

  /** A restarted instance finds its own key ... */
  lemma FindOwnKey(c: Config, s: State, a: Id) returns (t: State)
    requires Init(s)
    requires a in s.insts && s.Live() && s.key.value.owner == a
    ensures Reaches(c, s, t) && t.now == s.now && t.key == s.key && t.insts.Keys == s.insts.Keys
    ensures forall r | r in t.net :: r.Call?
    ensures forall id | id in s.insts && id != a :: t.insts[id] == s.insts[id]
    ensures t.insts[a].phase == Calling(s.now, Get, None, None)
    ensures Call(a, t.insts[a].calls, Get) in t.net
  {
    assert Legal(c, s, []) && Final(c, s, []) == s;
    t := Step(c, s, s, Start(a));
    t := Answer(c, s, t, a);
    t := Step(c, s, t, Arrive(a));
  }

  /** ... and its first call renews it. */
  lemma RenewFirst(c: Config, s: State, a: Id) returns (t: State)
    requires Init(s)
    requires a in s.insts && s.Live() && s.key.value.owner == a
    ensures Reaches(c, s, t) && t.now == s.now && t.insts.Keys == s.insts.Keys
    ensures t.key == Some(Lease(a, s.now + c.RenewTTL()))
    ensures forall r | r in t.net :: r.Call?
    ensures forall id | id in s.insts && id != a :: t.insts[id] == s.insts[id]
    ensures t.insts[a].phase == Calling(s.now, Renew, Some(Done(true)), None)
  {
    t := FindOwnKey(c, s, a);
    t := Answer(c, s, t, a);
    t := Step(c, s, t, Arrive(a));
    assert t.insts[a].phase == Calling(s.now, Renew, None, None);
    t := Answer(c, s, t, a);
  }

  /** The reply arrives just before the deadline, and the next call hears nothing: the flag stands
      until interval + 2 * callTimeout - 1 after the renewal. */
  lemma StallNextCall(c: Config, s: State, t: State, a: Id) returns (u: State)
    requires c.CallTimeout() > 0 && Reaches(c, s, t)
    requires a in t.insts && t.insts[a].phase == Calling(t.now, Renew, Some(Done(true)), None)
    requires forall id | id in t.insts && id != a :: t.insts[id].phase == Off
    requires forall r | r in t.net :: r.Call?
    ensures Reaches(c, s, u) && u.key == t.key && u.IsLeader(a)
    ensures u.now == t.now + c.interval + 2 * c.CallTimeout() - 1
    ensures forall id | id in t.insts && id != a :: id in u.insts && u.insts[id] == t.insts[id]
    ensures forall r | r in u.net :: r.Call?
  {
    var reply := t.now + c.CallTimeout() - 1;
    u := Step(c, s, t, Advance(reply));
    u := Step(c, s, u, Arrive(a));
    u := Step(c, s, u, Advance(reply + c.interval));
    u := Step(c, s, u, Tick(a, 1));
    u := Step(c, s, u, Advance(reply + c.interval + c.CallTimeout()));
  }

  lemma LooseTimingElectsTwo(c: Config) returns (s: State, t: State)
    requires c.ttl > 0
    requires c.ttl >= 3 ==> 3 * c.interval <= c.ttl
    requires !Tight(c)
    ensures Init(s) && Reaches(c, s, t) && !AtMostOneLeader(t)
  {
    var idle := Instance(Off, false, 0, 0, false);
    s := State(0, Some(Lease("a", 1)), {}, map["a" := idle, "b" := idle]);
    t := RenewFirst(c, s, "a");
    if c.ttl >= 3 {
      t := StallNextCall(c, s, t, "a");
    } else {
      t := Step(c, s, t, Arrive("a"));
    }
    t := RivalAcquires(c, s, t, "a", "b");
    assert t.IsLeader("a") && t.IsLeader("b") && "a" != "b";
  }

  // ---------------------------------------------------------------- what happens when nothing fails

  /** The requests of the instance that the server sees at once, in a run where no message is lost. */
  ghost predicate Idle(s: State, id: Id) {
    id in s.insts && s.insts[id].phase == Off && Request.Release(id) !in s.net
  }

  /** A start: with no live key the instance becomes leader at once, with the key for the time to live. */
  lemma StartAcquires(c: Config, s: State, t: State, id: Id) returns (u: State)
    requires Reaches(c, s, t) && Idle(t, id) && !t.Live()
    ensures Reaches(c, s, u) && u.IsLeader(id) && u.now == t.now
    ensures u.key == Some(Lease(id, t.now + c.ttl))
    ensures u.insts == t.insts[id := u.insts[id]]
    ensures u.insts[id].phase == Waiting(t.now + c.interval) && !u.insts[id].cancelled
  {
    u := Step(c, s, t, Start(id));
    u := Answer(c, s, u, id);
    u := Step(c, s, u, Arrive(id));
  }

  /** A start beside a live key of another instance: no flag, and the key stays. */
  lemma StartFollows(c: Config, s: State, t: State, id: Id) returns (u: State)
    requires Reaches(c, s, t) && Idle(t, id) && t.Live() && t.key.value.owner != id
    ensures Reaches(c, s, u) && !u.IsLeader(id) && u.now == t.now && u.key == t.key
    ensures id in u.insts && u.insts[id].phase == Waiting(t.now + c.interval)
  {
    u := Step(c, s, t, Start(id));
    u := Answer(c, s, u, id);
    u := Step(c, s, u, Arrive(id));
    u := Answer(c, s, u, id);
    u := Step(c, s, u, Arrive(id));
  }

  /** When its ticker fires in time, a leader whose key is live renews it and stays leader. */
  lemma TickRenews(c: Config, s: State, t: State, id: Id) returns (u: State)
    requires Reaches(c, s, t) && InPhase(t, id, false) && t.Live() && t.key.value.owner == id
    requires t.insts[id].phase.tick == t.now
    ensures Reaches(c, s, u) && u.IsLeader(id) && u.now == t.now
    ensures u.key == Some(Lease(id, t.now + c.RenewTTL())) && u.insts[id].phase == Waiting(t.now + c.interval)
  {
    u := Step(c, s, t, Tick(id, 1));
    u := Answer(c, s, u, id);
    u := Step(c, s, u, Arrive(id));
    u := Answer(c, s, u, id);
    u := Step(c, s, u, Arrive(id));
    u := Answer(c, s, u, id);
    u := Step(c, s, u, Arrive(id));
  }

  /** Stop, when its messages arrive: the run loop sees the cancelled context and ends without the flag, and
      the release takes the key away. Another idle instance is then leader at the same time. */
  lemma StopHandsOver(c: Config, s: State, t: State, id: Id, other: Id) returns (u: State, v: State)
    requires Reaches(c, s, t) && InPhase(t, id, false) && t.Live() && t.key.value.owner == id
    requires Idle(t, other) && other != id
    ensures Reaches(c, s, u) && u.now == t.now && u.key == None && !u.IsLeader(id)
    ensures id in u.insts && u.insts[id].phase == Off
    ensures Reaches(c, s, v) && v.now == t.now && v.IsLeader(other) && !v.IsLeader(id)
    ensures v.key == Some(Lease(other, t.now + c.ttl))
  {
    u := Step(c, s, t, Cancel(id));
    u := Step(c, s, u, Exit(id));
    u := Step(c, s, u, SendRelease(id));
    u := Step(c, s, u, Process(Request.Release(id), false));
    v := StartAcquires(c, s, u, other);
  }

  /** A stopped instance starts again once its release is no longer on its way. */
  lemma StoppedStartsAgain(c: Config, s: State, t: State, id: Id) returns (u: State)
    requires Reaches(c, s, t) && InPhase(t, id, false) && t.Live() && t.key.value.owner == id
    ensures Reaches(c, s, u) && u.IsLeader(id) && !u.insts[id].cancelled && u.now == t.now
  {
    u := Step(c, s, t, Cancel(id));
    u := Step(c, s, u, Exit(id));
    u := Step(c, s, u, SendRelease(id));
    u := Step(c, s, u, Process(Request.Release(id), false));
    u := Step(c, s, u, Drop(Request.Release(id)));
    u := StartAcquires(c, s, u, id);
  }

  /** Only Stop ends a run loop: as long as an instance is not cancelled, it does not leave its loop. */
  lemma OnlyStopEndsLoop(c: Config, s: State, a: Action, id: Id)
    requires Enabled(c, s, a) && id in s.insts && s.insts[id].phase != Off && !s.insts[id].cancelled
    ensures id in Apply(c, s, a).insts && Apply(c, s, a).insts[id].phase != Off
    ensures Apply(c, s, a).insts[id].cancelled ==> a == Cancel(id)
  {}

  /** A tick that fires leaves the next one a whole number of intervals later, and not in the past. */
  lemma TickerKeepsPace(c: Config, s: State, id: Id, periods: nat)
    requires Enabled(c, s, Tick(id, periods))
    ensures var next := Apply(c, s, Tick(id, periods)).insts[id].phase.ticker;
      && next.Some? && s.now <= next.value <= s.now + c.interval
      && periods >= 1 && next.value == s.insts[id].phase.tick + periods * c.interval
  {}

  /** No call outlives its deadline. */
  ghost predicate InTime(c: Config, s: State) {
    forall id | id in s.insts && s.insts[id].phase.Calling? && c.CallTimeout() > 0 ::
      s.now <= s.insts[id].phase.start + c.CallTimeout()
  }

  lemma {:induction false} CallsEndInTime(c: Config, s: State, run: seq<Action>)
    requires InTime(c, s) && Legal(c, s, run)
    ensures InTime(c, Final(c, s, run))
    decreases |run|
  {
    if run != [] {
      StepInTime(c, s, run[0]);
      CallsEndInTime(c, Apply(c, s, run[0]), run[1..]);
    }
  }

  lemma StepInTime(c: Config, s: State, a: Action)
    requires InTime(c, s) && Enabled(c, s, a)
    ensures InTime(c, Apply(c, s, a))
  {
    if a.Advance? {
      forall id | id in s.insts
        ensures MayAdvance(c, s.insts[id], s.now, a.to)
      {}
    }
  }

  // ---------------------------------------------------------------- main theorems

  lemma EffectiveTiming(ttl: int, renewInterval: int)
    ensures var c := NewRedisLeader(ttl, renewInterval);
      && c.ttl > 0
      && (c.ttl >= 3 ==> 3 * c.interval <= c.ttl)
      && (Tight(c) <==> TightTiming(ttl, renewInterval))
  {
  }

  /** In nanoseconds: the server's own settings are 30 seconds and a third of that, which leaves each call
      ten seconds. A lease has to be a multiple of three whole milliseconds. */
  lemma TimingInNanoseconds(ttl: int, renewInterval: int)
    ensures NewRedisLeader(0, 0) == Settings(30_000_000_000, 10_000_000_000)
    ensures NewRedisLeader(0, 0).CallTimeout() == 10_000_000_000 && TightTiming(0, 0)
    ensures ttl > 0 ==> (TightTiming(ttl, 0) <==> ttl % 3_000_000 == 0)
    ensures ttl >= 3 ==>
              var c := NewRedisLeader(ttl, renewInterval);
              c.ttl == ttl && c.CallTimeout() == ttl - 2 * c.interval && 3 * c.CallTimeout() >= ttl
              && c.RenewTTL() % 1_000_000 == 0 && 0 <= ttl - c.RenewTTL() < 1_000_000
    ensures NewRedisLeader(1, 0).CallTimeout() == 0 && NewRedisLeader(2, 0).CallTimeout() == 1
    ensures NewRedisLeader(1, 0).interval == 100_000_000
  {
    assert ttl > 0 && ttl % 3_000_000 == 0 ==> ttl == 3_000_000 * (ttl / 3_000_000);
  }

  lemma TightNeverElectsTwo(c: Config)
    requires Tight(c)
    ensures AlwaysBacked(c) && MutualExclusion(c)
  {
    forall s, run | Init(s) && Legal(c, s, run)
      ensures FlagsBacked(Final(c, s, run)) && AtMostOneLeader(Final(c, s, run))
    {
      RunKeepsInv(c, s, run);
      InvBacksFlags(c, Final(c, s, run));
    }
  }

  /** At most one flag, and every flag backed by a live key, in every reachable state: exactly for
      the settings whose arithmetic closes. */
  lemma LeaseIsExact(ttl: int, renewInterval: int)
    ensures NewRedisLeader(ttl, renewInterval).interval > 0
    ensures MutualExclusion(NewRedisLeader(ttl, renewInterval)) <==> TightTiming(ttl, renewInterval)
    ensures AlwaysBacked(NewRedisLeader(ttl, renewInterval)) <==> TightTiming(ttl, renewInterval)
  {
    var c := NewRedisLeader(ttl, renewInterval);
    EffectiveTiming(ttl, renewInterval);
    if TightTiming(ttl, renewInterval) {
      TightNeverElectsTwo(c);
    } else {
      var s, t := LooseTimingElectsTwo(c);
      var run :| Legal(c, s, run) && Final(c, s, run) == t;
      assert !AtMostOneLeader(Final(c, s, run)) && !FlagsBacked(Final(c, s, run));
    }
  }

  /** Why a start waits for the instance's own release: whatever the settings, if an instance starts while
      its DEL is still on its way, the DEL can take away the key of the new lease, and two are leaders. */
  lemma StartBeforeOwnReleaseElectsTwo(c: Config) returns (s: State, t: State, u: State)
    ensures Init(s) && Reaches(c, s, t) && t.insts.Keys == {"a", "b"}
    ensures t.insts["a"].phase == Off && Request.Release("a") in t.net
    ensures Reaches(c, Started(t, "a"), u) && u.IsLeader("a") && u.IsLeader("b")
  {
    var idle := Instance(Off, false, 0, 0, false);
    s := State(0, None, {}, map["a" := idle, "b" := idle]);
    assert Legal(c, s, []) && Final(c, s, []) == s;
    t := Step(c, s, s, SendRelease("a"));
    var start := Started(t, "a");
    assert Legal(c, start, []) && Final(c, start, []) == start;
    u := Answer(c, start, start, "a");
    u := Step(c, start, u, Arrive("a"));
    assert u.IsLeader("a");
    u := Step(c, start, u, Process(Request.Release("a"), false));
    u := RivalAcquires(c, start, u, "a", "b");
  }
}
