/** One instance of the leader lease as an object: its settings, its flag and one acquisition call. */
module LeaderClient {
  import opened Wrappers
  import opened Leader

  /** What the three commands of a call answer; None is an error, among them the deadline. */
  datatype Answers = Answers(setNX: Option<bool>, get: Option<Option<Id>>, renew: Option<bool>)

  /** The call acquires the lease by creating the key, or by renewing it when it is its own. */
  predicate Acquires(id: Id, a: Answers) {
    || a.setNX == Some(true)
    || (a.setNX == Some(false) && a.get == Some(Some(id)) && a.renew == Some(true))
  }

  class RedisLeader {
    const id: Id
    var ttl: int
    var interval: int
    var leader: bool

    ghost function Current(): Settings
      reads this
    {
      Settings(ttl, interval)
    }

    constructor (id: Id, ttl: int, renewInterval: int)
      ensures this.id == id && Current() == NewRedisLeader(ttl, renewInterval) && !leader
    {
      this.id := id;
      this.ttl := if ttl <= 0 then 30 * SECOND else ttl;
      this.interval := 0;
      this.leader := false;
      new;
      interval := this.ttl / 3;
      if interval < 100 * MILLISECOND {
        interval := 100 * MILLISECOND;
      }
      Clamp();
      if renewInterval > 0 {
        interval := renewInterval;
      }
      Clamp();
    }

    method Clamp()
      requires ttl > 0
      modifies this`interval
      ensures interval == ClampRenewInterval(old(interval), ttl)
    {
      if interval <= 0 {
        interval := ttl / 3;
      }
      if ttl / 3 > 0 && interval > ttl / 3 {
        interval := ttl / 3;
      }
      if interval <= 0 {
        interval := MILLISECOND;
      }
    }

    method TryAcquire(a: Answers)
      modifies this`leader
      ensures leader == Acquires(id, a)
    {
      if a.setNX.None? {
        leader := false;
        return;
      }
      if a.setNX.value {
        leader := true;
        return;
      }
      if a.get.None? {
        leader := false;
        return;
      }
      if a.get.value != Some(id) {
        leader := false;
        return;
      }
      leader := a.renew == Some(true);
    }
  }

  /** The reply on its way is the answer to the command that the call waits for. */
  predicate IsAnswer(p: Phase, a: Answers)
    requires p.Calling?
  {
    match p.cmd
    case SetNX => a.setNX.Some? && p.reply == Some(Done(a.setNX.value))
    case Get => a.setNX == Some(false) && a.get.Some? && p.reply == Some(Owner(a.get.value))
    case Renew => a.renew.Some? && p.reply == Some(Done(a.renew.value))
  }

  /** Each reply takes the call of the transition system to its next command, or ends it with the flag
      that the object's method leaves; so does an error. */
  lemma StepsFollowTryAcquire(c: Config, s: State, id: Id, a: Answers)
    requires InPhase(s, id, true)
    requires var p := s.insts[id].phase; p.cmd == Renew ==> a.setNX == Some(false) && a.get == Some(Some(id))
    ensures var p := s.insts[id].phase;
      IsAnswer(p, a) ==>
        var q := Receive(c, s, id).insts[id];
        if q.phase.Waiting? then q.leader == Acquires(id, a)
        else
          && q.phase.Calling? && p.cmd != Renew && a.setNX == Some(false)
          && (if p.cmd == SetNX then q.phase.cmd == Get else q.phase.cmd == Renew && a.get == Some(Some(id)))
    ensures var p := s.insts[id].phase;
      (|| (p.cmd == SetNX && a.setNX.None?)
       || (p.cmd == Get && a.setNX == Some(false) && a.get.None?)
       || (p.cmd == Renew && a.renew.None?)) ==>
        !Acquires(id, a) && !Apply(c, s, Fail(id)).insts[id].leader
  {}
}
