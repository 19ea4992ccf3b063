/** `RedisLock` as code on a server shared with any number of other clients. */
module RedisLocks {
  import opened Basics
  import opened RedisElection
  import opened RedisProtocol
  import opened RedisExclusion

  /** The steps of one client, latest last. */
  datatype Log = Start | Then(earlier: Log, last: Event)

  /** The channel as one client sees it: others take any steps before each of its own. */
  class Server {
    const roles: Roles
    var st: Channel
    ghost const start: Channel
    ghost var run: seq<Label>
    ghost var steps: map<Id, Log>

    ghost predicate Valid()
      reads this
    {
      Init(roles, start) && Run(roles, start, run) == Some(st)
    }

    constructor (roles: Roles, st: Channel)
      requires Init(roles, st)
      ensures Valid() && this.roles == roles && this.st == st
    {
      this.roles, this.st := roles, st;
      start, run, steps := st, [], map[];
    }

    function Of(c: Id): Client
      reads this
    {
      ClientOf(st, c)
    }

    /** The steps this client has taken, in order. */
    ghost function Own(c: Id): Log
      reads this
    {
      if c in steps then steps[c] else Start
    }

    /** The others move; nobody kills `me`, which would end the call. */
    method Interfere(me: Id)
      requires Valid()
      modifies this
      ensures Valid() && Of(me) == old(Of(me)) && Own(me) == old(Own(me))
    {
      var more: seq<Label> := *;
      if Run(roles, st, more).None? || exists l | l in more :: l.who == me {
        more := [];
      }
      OthersKeepClient(roles, st, more, me);
      RunConcat(roles, start, run, more);
      ghost var since: map<Id, Log> := *;
      steps := since[me := Own(me)];
      st, run := Run(roles, st, more).value, run + more;
    }

    method Perform(me: Id, ev: Event)
      requires Valid() && Enabled(roles, st, Label(me, ev))
      modifies this
      ensures Valid() && st == Apply(roles, old(st), Label(me, ev)) && Own(me) == Then(old(Own(me)), ev)
    {
      var l := Label(me, ev);
      assert (run + [l])[..|run|] == run;
      st, run, steps := Apply(roles, st, l), run + [l], steps[me := Then(Own(me), ev)];
    }

    lemma IsReachable()
      requires Valid()
      ensures Reachable(roles, st) && Inv(roles, st)
    {
      ReachableInv(roles, st);
    }
  }

  lemma {:induction false} OthersKeepClient(roles: Roles, s: Channel, run: seq<Label>, me: Id)
    requires Run(roles, s, run).Some? && forall l | l in run :: l.who != me
    ensures ClientOf(Run(roles, s, run).value, me) == ClientOf(s, me)
  {
    if run != [] {
      OthersKeepClient(roles, s, run[..|run| - 1], me);
    }
  }

  /** One pass of an acquiring loop that ended without the lock: it counted, probed, and acted on the probe. */
  ghost predicate Refused(before: Log, after: Log, failWhenLocked: bool) {
    after.Then? && after.last == Decide(failWhenLocked) &&
    after.earlier.Then? && after.earlier.last.Probe? &&
    after.earlier.earlier.Then? && after.earlier.earlier.last == Count &&
    var entry := after.earlier.earlier.earlier;
    entry == before || entry == Then(before, Subscribe)
  }

  /** `AlreadyLocked`, a failing subscription, and acquiring an active lock. */
  datatype Error = AlreadyLocked | SubscribeError | AlreadyActive

  class RedisLock {
    const server: Server
    const me: Id
    const writer: bool
    var subscribed: bool
    var mode: Mode
    var writerElected: bool

    ghost predicate Valid()
      reads this, server
    {
      server.Valid() && me in server.roles && server.roles[me] == writer &&
      (writer || mode == Shared) &&
      (if subscribed
       then server.Of(me).In? && server.Of(me).mode == mode && server.Of(me).elected == writerElected
       else server.Of(me).Out? && !writerElected)
    }

    constructor (server: Server, me: Id, writer: bool)
      requires server.Valid() && me in server.roles && server.roles[me] == writer && server.Of(me).Out?
      ensures Valid() && !subscribed && this.server == server && this.me == me && this.writer == writer
    {
      this.server, this.me, this.writer := server, me, writer;
      subscribed, writerElected, mode := false, false, InitialMode(writer);
    }

    ghost function Own(): Log
      reads this, server
    {
      server.Own(me)
    }

    /** `release`: dropping the subscription is the release, and an election won is forgotten. */
    method Release()
      requires Valid()
      modifies this, server
      ensures Valid() && !subscribed && !writerElected && mode == old(mode)
      ensures !old(subscribed) ==> server.st == old(server.st)
      ensures Own() == if old(subscribed) then Then(old(Own()), Leave) else old(Own())
    {
      writerElected := false;
      if subscribed {
        server.Interfere(me);
        server.IsReachable();
        server.Perform(me, Leave);
        subscribed := false;
      }
    }

    /** Acting on what was observed; others may have moved in between. */
    method Conclude(failWhenLocked: bool)
      requires server.Valid() && server.Of(me).In? && (server.Of(me).view.Alone? || server.Of(me).view.Probed?)
      requires me in server.roles && server.roles[me] == writer
      modifies server
      ensures server.Valid() && server.Of(me) == Decided(writer, me, old(server.Of(me)), failWhenLocked)
      ensures Own() == Then(old(Own()), Decide(failWhenLocked))
    {
      server.Interfere(me);
      server.IsReachable();
      server.Perform(me, Decide(failWhenLocked));
    }

    /** `_resolve_lock_holders`: true means held; a failure has already released. */
    method ResolveLockHolders(holders: Option<seq<Holder>>, failWhenLocked: bool) returns (r: Result<bool, Error>)
      requires Valid() && subscribed && !server.Of(me).holds && server.Of(me).view == Probed(holders)
      modifies this, server
      ensures Valid()
      ensures var d := Resolve(writer, me, old(writerElected), holders, failWhenLocked);
              r == (match d
                    case Taken(_) => Success(true)
                    case Fail => Failure(AlreadyLocked)
                    case _ => Success(false)) &&
              server.Of(me) == Decided(writer, me, old(server.Of(me)), failWhenLocked)
      ensures r == Success(true) ==> subscribed && Holds(server.st, me)
      ensures r != Success(true) ==> mode == old(mode) && (subscribed ==> Waiting())
      ensures r.Failure? ==> !subscribed
      ensures Own() == Then(old(Own()), Decide(failWhenLocked))
    {
      if holders.Some? && HoldersAreCompatible(writer, holders.value) {
        Conclude(failWhenLocked);
        return Success(true);
      }
      var elected := holders.Some? && writer && WriterIsElected(me, holders.value);
      if elected {
        if failWhenLocked {
          Conclude(failWhenLocked);
          subscribed, writerElected := false, false;
          return Failure(AlreadyLocked);
        }
        writerElected := true;
        Conclude(failWhenLocked);
        if !AnyMode(holders.value, Shared) {
          mode := Exclusive;
          return Success(true);
        }
        return Success(false);
      }
      Conclude(failWhenLocked);
      if holders.None? && writerElected {
        return Success(false);
      }
      subscribed, writerElected := false, false;
      r := if failWhenLocked then Failure(AlreadyLocked) else Success(false);
    }

    /**
     `acquire`, with as many attempts as the timeout allows; the generator always makes one. `logs` are the steps
     taken before each attempt and after the last: it gives up for lack of time only after a refusal in each
     attempt, and without waiting only after the first.
     */
    method Acquire(attempts: nat, failWhenLocked: bool) returns (r: Result<(), Error>, ghost logs: seq<Log>)
      requires Valid() && attempts >= 1
      modifies this, server
      ensures Valid()
      ensures old(subscribed) <==> r == Failure(AlreadyActive)
      ensures old(subscribed) ==> subscribed && server.st == old(server.st)
      ensures !old(subscribed) ==> (r.Success? <==> subscribed)
      ensures r.Success? ==> Holds(server.st, me) && server.Of(me).mode == if writer then Exclusive else Shared
      ensures r.Success? ==>
                forall c | c in server.roles && server.roles[c] != writer :: !Claims(server.roles, server.st, c)
      ensures logs != [] && logs[0] == old(Own())
      ensures forall i | 0 < i < |logs| && (i < |logs| - 1 || r == Failure(AlreadyLocked)) ::
                Refused(logs[i - 1], logs[i], failWhenLocked)
      ensures r == Failure(AlreadyLocked) ==> |logs| == 1 + if failWhenLocked then 1 else attempts
      ensures Own() == logs[|logs| - 1] || (r == Failure(AlreadyLocked) && Own() == Then(logs[|logs| - 1], Leave))
    {
      logs := [Own()];
      if subscribed {
        return Failure(AlreadyActive), logs;
      }
      if writer {
        mode, writerElected := Pending, false;
      }
      for i := 0 to attempts
        invariant Valid() && mode == InitialMode(writer) && (subscribed ==> Waiting())
        invariant |logs| == i + 1 && logs[0] == old(Own()) && Own() == logs[i]
        invariant forall k | 0 < k <= i :: Refused(logs[k - 1], logs[k], failWhenLocked)
        invariant failWhenLocked ==> i == 0 && !writerElected
      {
        var outcome := Attempt(failWhenLocked);
        logs := logs + [Own()];
        if outcome.Failure? {
          return Failure(outcome.error), logs;
        }
        if outcome.value {
          SoleRole();
          return Success(()), logs;
        }
      }
      Release();
      r := Failure(AlreadyLocked);
    }

    /** One pass of the loop in `acquire`; false means retry. */
    method Attempt(failWhenLocked: bool) returns (r: Result<bool, Error>)
      requires Valid() && mode == InitialMode(writer) && (subscribed ==> Waiting())
      modifies this, server
      ensures Valid()
      ensures r == Success(true) ==> subscribed && Holds(server.st, me)
      ensures r == Success(false) ==> mode == InitialMode(writer) && (subscribed ==> Waiting())
      ensures r.Failure? ==> !subscribed && r.error != AlreadyActive
      ensures r == Success(false) || r == Failure(AlreadyLocked) ==> Refused(old(Own()), Own(), failWhenLocked)
      ensures r == Failure(AlreadyLocked) ==> failWhenLocked
      ensures r == Success(false) && failWhenLocked ==> old(writerElected)
    {
      if !subscribed {
        var started := StartSubscription();
        if !started {
          return Failure(SubscribeError);
        }
      }
      var alone := TakeIfAlone();
      if alone {
        return Success(true);
      }
      var holders := ProbeChannel();
      r := ResolveLockHolders(holders, failWhenLocked);
    }

    /** Subscribed, not holding, and nothing observed yet. */
    ghost predicate Waiting()
      reads this, server
    {
      server.Of(me).In? && server.Of(me).view.Nothing? && !server.Of(me).holds
    }

    /** `_start_subscription`; a failure, before or after subscribing, is rolled back. */
    method StartSubscription() returns (started: bool)
      requires Valid() && !subscribed && !writerElected && mode == InitialMode(writer)
      modifies this, server
      ensures Valid() && subscribed == started && mode == old(mode) && writerElected == old(writerElected)
      ensures started ==> Waiting() && Own() == Then(old(Own()), Subscribe)
      ensures !started ==> Own() == old(Own()) || Own() == Then(Then(old(Own()), Subscribe), Leave)
    {
      var reached: bool, completed: bool := *, *;
      started := reached && completed;
      if reached {
        server.Interfere(me);
        server.IsReachable();
        server.Perform(me, Subscribe);
        subscribed := true;
      }
      if !started {
        Release();
      }
    }

    /** Counting the subscribers, and acting on being the only one. */
    method TakeIfAlone() returns (alone: bool)
      requires Valid() && subscribed && Waiting()
      modifies this, server
      ensures Valid() && subscribed
      ensures alone ==> Holds(server.st, me)
      ensures !alone ==> !server.Of(me).holds && server.Of(me).view.Crowded? && mode == old(mode)
      ensures writerElected == old(writerElected)
      ensures Own() == var counted := Then(old(Own()), Count); if alone then Then(counted, Decide(false)) else counted
    {
      server.Interfere(me);
      server.IsReachable();
      server.Perform(me, Count);
      alone := server.Of(me).view.Alone?;
      if alone {
        TakeAlone();
      }
    }

    /** Others may have moved since the count. */
    method TakeAlone()
      requires Valid() && subscribed && server.Of(me).view.Alone?
      modifies this, server
      ensures Valid() && subscribed && Holds(server.st, me) && writerElected == old(writerElected)
      ensures Own() == Then(old(Own()), Decide(false))
    {
      Conclude(false);
      if writer {
        mode := Exclusive;
      }
    }

    /** One probe: inconclusive, or an exact snapshot of the channel at one instant. */
    method ProbeChannel() returns (holders: Option<seq<Holder>>)
      requires Valid() && subscribed && !server.Of(me).holds && server.Of(me).view.Crowded?
      modifies server
      ensures Valid() && server.Of(me) == old(server.Of(me)).(view := Probed(holders))
      ensures Own() == Then(old(Own()), Probe(holders))
    {
      server.Interfere(me);
      server.IsReachable();
      holders := *;
      if holders.Some? && !IsSnapshot(server.st, holders.value) {
        holders := None;
      }
      server.Perform(me, Probe(holders));
    }

    lemma SoleRole()
      requires Valid() && Holds(server.st, me)
      ensures server.Of(me).mode == if writer then Exclusive else Shared
      ensures forall c | c in server.roles && server.roles[c] != writer :: !Claims(server.roles, server.st, c)
    {
      server.IsReachable();
    }
  }
}
