/**
 The operating system as one single-threaded process sees it. Each call lets every other process
 take any number of steps and then performs one protocol event, so a method built from these calls
 is interleaved with every possible behaviour of the others. `*` stands for outcomes the operating
 system decides.
 */
module Kernels {
  import opened Basics
  import opened FileProtocol
  import opened FileTheorems

  datatype Flocked = Granted | Denied(error: Error) | Broken

  /** `AlreadyLocked`, any other `LockException`, and everything else. */
  datatype Error = AlreadyLocked | PlainLockException | OtherError

  /** The system together with the run that led to it. */
  ghost predicate Witnessed(cfg: Configs, start: State, events: seq<Label>, st: State) {
    WellConfigured(cfg) && Init(cfg, start) && Run(cfg, start, events) == Some(st)
  }

  lemma WitnessedIsReachable(cfg: Configs, start: State, events: seq<Label>, st: State)
    requires Witnessed(cfg, start, events, st)
    ensures WellConfigured(cfg) && Reachable(cfg, st) && Inv(cfg, st)
  {
    ReachableInv(cfg, st);
  }

  lemma {:induction false} WitnessedGrows(cfg: Configs, start: State, events: seq<Label>, st: State, more: seq<Label>)
    requires Witnessed(cfg, start, events, st) && Run(cfg, st, more).Some?
    ensures Witnessed(cfg, start, events + more, Run(cfg, st, more).value)
  {
    RunConcat(cfg, start, events, more);
  }

  lemma WitnessedSteps(cfg: Configs, start: State, events: seq<Label>, st: State, l: Label)
    requires Witnessed(cfg, start, events, st) && Enabled(cfg, st, l)
    ensures Witnessed(cfg, start, events + [l], Apply(cfg, st, l))
  {
    Extend(cfg, start, events, l);
  }

  lemma MovesOnlyOne(cfg: Configs, s: State, me: Actor, ev: Event)
    requires Enabled(cfg, s, Act(me, ev))
    ensures At(Apply(cfg, s, Act(me, ev)), me) == NextLocal(cfg[me], s.fs, At(s, me), ev)
    ensures forall b | b != me :: At(Apply(cfg, s, Act(me, ev)), b) == At(s, b)
  {
  }

  lemma {:induction false} MineSteps(events: seq<Label>, me: Actor, ev: Event)
    ensures Mine(events + [Act(me, ev)], me) == Mine(events, me) + [ev]
  {
    assert (events + [Act(me, ev)])[..|events|] == events;
  }

  lemma {:induction false} NotMine(run: seq<Label>, b: Actor)
    requires forall l | l in run :: l.Act? ==> l.who != b
    ensures Mine(run, b) == []
  {
    if run != [] {
      NotMine(run[..|run| - 1], b);
    }
  }

  /** `t` comes from `s` by steps of other processes and of the collector. */
  ghost predicate Interfered(cfg: Configs, own: set<Actor>, s: State, t: State) {
    exists run: seq<Label> :: Run(cfg, s, run) == Some(t) && forall l | l in run :: l.Act? ==> l.who !in own
  }

  lemma {:induction false} InterferedBy(cfg: Configs, own: set<Actor>, s: State, run: seq<Label>)
    requires Run(cfg, s, run).Some? && forall l | l in run :: l.Act? ==> l.who !in own
    ensures Interfered(cfg, own, s, Run(cfg, s, run).value)
  {
  }

  /** `t` comes from `s` by this one step. */
  ghost predicate Stepped(cfg: Configs, s: State, l: Label, t: State) {
    Enabled(cfg, s, l) && Apply(cfg, s, l) == t
  }

  /** Some handle has flocked the file that `h` is open on. */
  predicate IsOwned(fs: Fs, h: Handle) {
    AtHandle(fs, h) && fs.handles[h].file in fs.owner
  }

  class Kernel {
    const cfg: Configs
    /** The lock objects of this process. */
    const own: set<Actor>
    var st: State
    ghost const start: State
    ghost var events: seq<Label>
    /** The state in which this process took its latest step. */
    ghost var before: State

    ghost predicate Valid()
      reads this
    {
      Witnessed(cfg, start, events, st) && own <= cfg.Keys
    }

    /** The process's other lock objects have not moved. */
    twostate predicate OthersRest(me: Actor)
      reads this
    {
      forall b | b in own && b != me :: Of(b) == old(Of(b))
    }

    /** Where a lock object stands. */
    function Of(me: Actor): Local
      reads this
    {
      At(st, me)
    }

    /** Everything a lock object has done so far. */
    ghost function Log(me: Actor): seq<Event>
      reads this
    {
      Mine(events, me)
    }

    constructor (cfg: Configs, own: set<Actor>, st: State)
      requires WellConfigured(cfg) && Init(cfg, st) && own <= cfg.Keys
      ensures Valid() && this.cfg == cfg && this.own == own && this.st == st
    {
      this.cfg, this.own, this.st := cfg, own, st;
      start, events, before := st, [], st;
    }

    /** The other processes do any number of steps. */
    method Interfere()
      requires Valid()
      modifies this
      ensures Valid() && forall b | b in own :: Of(b) == old(Of(b)) && Log(b) == old(Log(b))
      ensures Interfered(cfg, own, old(st), st)
    {
      var run: seq<Label> := *;
      if Run(cfg, st, run).None? || exists l | l in run :: l.Act? && l.who in own {
        run := [];
      }
      WitnessedIsReachable(cfg, start, events, st);
      forall b | b in own
        ensures At(Run(cfg, st, run).value, b) == At(st, b) && Mine(events + run, b) == Mine(events, b)
      {
        NotMine(run, b);
        OthersKeepLocal(cfg, st, run, b);
        MineConcat(events, run, b);
      }
      WitnessedGrows(cfg, start, events, st, run);
      InterferedBy(cfg, own, st, run);
      st, events := Run(cfg, st, run).value, events + run;
    }

    /** One step of `me`. */
    method Perform(me: Actor, ev: Event)
      requires Valid() && Enabled(cfg, st, Act(me, ev))
      modifies this
      ensures Valid() && OthersRest(me) && Log(me) == old(Log(me)) + [ev]
      ensures before == old(st) && Stepped(cfg, before, Act(me, ev), st)
    {
      before := st;
      var l := Act(me, ev);
      WitnessedSteps(cfg, start, events, st, l);
      MineSteps(events, me, ev);
      MovesOnlyOne(cfg, st, me, ev);
      st, events := Apply(cfg, st, l), events + [l];
    }

    /** The others move, then `me` takes a step that needs nothing but its own position. */
    method Take(me: Actor, ev: Event)
      requires Valid() && me in own && CanAct(cfg[me], st.fs, Of(me), me, ev)
      requires !ev.Open? && !ev.OpenPid? && !ev.Flock? && !ev.Crash?
      modifies this
      ensures Valid() && OthersRest(me) && Log(me) == old(Log(me)) + [ev]
      ensures Interfered(cfg, own, old(st), before) && Stepped(cfg, before, Act(me, ev), st)
      ensures At(before, me) == old(Of(me))
      ensures !ev.Compare? ==> Of(me) == NextLocal(cfg[me], old(st).fs, old(Of(me)), ev)
      ensures ev.Compare? ==> Of(me) == old(Of(me)).(at := Verified) || Of(me) == old(Of(me)).(at := Unlocking)
      ensures ev.Compare? && old(Of(me)).at.Rechecking? ==> Of(me).at.Verified?
    {
      Interfere();
      WitnessedIsReachable(cfg, start, events, st);
      OwnStepsEnabled(cfg, st, me, ev);
      if Of(me).at.Rechecking? {
        ReentryKeepsTheLock(cfg, st, me);
      }
      Perform(me, ev);
    }

    lemma HandleIsOpen(me: Actor)
      requires Valid() && me in cfg && !Of(me).at.Idle?
      ensures AtHandle(st.fs, Of(me).h)
    {
      WitnessedIsReachable(cfg, start, events, st);
      assert ActorOk(cfg[me], st.fs, st.local[me], me);
    }

    lemma FlockEnabled(me: Actor)
      requires Valid() && me in cfg && Of(me).at.Opened? && !IsOwned(st.fs, Of(me).h)
      ensures Enabled(cfg, st, Act(me, Event.Flock))
    {
      WitnessedIsReachable(cfg, start, events, st);
      assert ActorOk(cfg[me], st.fs, st.local[me], me);
    }

    /** Non-blocking flock; a locker may also fail for reasons other than contention. */
    method Flock(me: Actor) returns (r: Flocked)
      requires Valid() && me in own && Of(me).at.Opened?
      modifies this
      ensures Valid() && OthersRest(me)
      ensures r.Granted? ==> Log(me) == old(Log(me)) + [Event.Flock] && Of(me) == old(Of(me)).(at := Locked)
      ensures r.Granted? ==> Interfered(cfg, own, old(st), before) && Stepped(cfg, before, Act(me, Event.Flock), st) &&
                             !IsOwned(before.fs, Of(me).h)
      ensures !r.Granted? ==> Log(me) == old(Log(me)) && Of(me) == old(Of(me)) && Interfered(cfg, own, old(st), st)
      ensures r.Denied? ==> !r.error.OtherError?
      ensures r == Denied(AlreadyLocked) ==> IsOwned(st.fs, Of(me).h)
      ensures AtHandle(st.fs, Of(me).h)
    {
      Interfere();
      HandleIsOpen(me);
      var failure: Flocked := *;
      if failure.Broken? || failure == Denied(PlainLockException) {
        r := failure;
      } else if IsOwned(st.fs, Of(me).h) {
        r := Denied(AlreadyLocked);
      } else {
        r := Granted;
        FlockEnabled(me);
        Perform(me, Event.Flock);
        HandleIsOpen(me);
      }
    }

    lemma IsKnown(me: Actor)
      requires Valid() && me in cfg
      ensures me in st.local
    {
      WitnessedIsReachable(cfg, start, events, st);
    }

    /** `open(path, 'a')` of the lock file; None is an OSError. */
    method Open(me: Actor) returns (r: Option<Handle>)
      requires Valid() && me in own && Of(me).at.Idle?
      modifies this
      ensures Valid() && OthersRest(me)
      ensures r.None? ==> Log(me) == old(Log(me)) && Of(me) == old(Of(me))
      ensures r.Some? ==> exists ev: Event :: ev.Open? && Log(me) == old(Log(me)) + [ev]
      ensures r.Some? ==> Of(me).at.Opened? && Of(me).h == r.value
      ensures r.Some? ==> exists ev: Event :: ev.Open? && Stepped(cfg, before, Act(me, ev), st)
    {
      Interfere();
      IsKnown(me);
      // Any unused handle, file identity and inode number may be chosen.
      var h: Handle, f: FileId, ino: nat := *, *, *;
      if !CanDo(st.fs, Attach(cfg[me].path, h, me, f, ino)) {
        r := None;
      } else {
        r := Some(h);
        Perform(me, Event.Open(h, f, ino));
      }
    }

    /** `open(path, 'a+')` of the PID file; None is an OSError. */
    method OpenPidFile(me: Actor) returns (r: Option<Handle>)
      requires Valid() && me in own && Of(me).at.Verified? && cfg[me].kind.Sidecar?
      modifies this
      ensures Valid() && OthersRest(me)
      ensures r.None? ==> Log(me) == old(Log(me)) && Of(me) == old(Of(me))
      ensures r.Some? ==> exists ev: Event :: ev.OpenPid? && Log(me) == old(Log(me)) + [ev]
      ensures r.Some? ==> Of(me) == Local(PidOpen, old(Of(me)).h, r.value)
    {
      Interfere();
      IsKnown(me);
      var g: Handle, f: FileId, ino: nat := *, *, *;
      if !CanDo(st.fs, Attach(cfg[me].kind.pidPath, g, me, f, ino)) {
        r := None;
      } else {
        r := Some(g);
        Perform(me, Event.OpenPid(g, f, ino));
      }
    }
  }

  lemma OwnStepsEnabled(cfg: Configs, s: State, a: Actor, ev: Event)
    requires Inv(cfg, s) && a in cfg && CanAct(cfg[a], s.fs, At(s, a), a, ev)
    requires !ev.Open? && !ev.OpenPid? && !ev.Flock?
    ensures Enabled(cfg, s, Act(a, ev))
  {
    assert ActorOk(cfg[a], s.fs, s.local[a], a);
  }

  lemma {:induction false} OthersKeepLocal(cfg: Configs, s: State, run: seq<Label>, b: Actor)
    requires WellConfigured(cfg) && Inv(cfg, s) && Run(cfg, s, run).Some?
    requires b in cfg && Mine(run, b) == []
    ensures At(Run(cfg, s, run).value, b) == At(s, b)
  {
    if run != [] {
      var n := |run| - 1;
      OthersKeepLocal(cfg, s, run[..n], b);
      RunKeepsInv(cfg, s, run[..n]);
      RunKeepsInv(cfg, s, run);
    }
  }
}
