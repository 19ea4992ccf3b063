/** What holds in every run of the lock-file protocol. */
module FileTheorems {
  import opened Basics
  import Decimal
  import opened FileProtocol
  import opened FileSafety

  // ---- Runs ----

  /** The state a sequence of labels leads to; None when some label is not enabled in its turn. */
  function Run(cfg: Configs, s: State, run: seq<Label>): Option<State> {
    if run == [] then Some(s)
    else
      var before := Run(cfg, s, run[..|run| - 1]);
      var l := run[|run| - 1];
      if before.Some? && Enabled(cfg, before.value, l) then Some(Apply(cfg, before.value, l)) else None
  }

  ghost predicate Reachable(cfg: Configs, s: State) {
    exists s0, run :: Init(cfg, s0) && Run(cfg, s0, run) == Some(s)
  }

  /** The events of one actor in a run. */
  function Mine(run: seq<Label>, a: Actor): seq<Event> {
    if run == [] then []
    else
      var last := run[|run| - 1];
      Mine(run[..|run| - 1], a) + if last.Act? && last.who == a then [last.ev] else []
  }

  lemma InitInv(cfg: Configs, s: State)
    requires Init(cfg, s)
    ensures Inv(cfg, s)
  {
  }

  lemma {:induction false} RunKeepsInv(cfg: Configs, s: State, run: seq<Label>)
    requires WellConfigured(cfg) && Inv(cfg, s) && Run(cfg, s, run).Some?
    ensures Inv(cfg, Run(cfg, s, run).value)
  {
    if run != [] {
      RunKeepsInv(cfg, s, run[..|run| - 1]);
      StepKeepsInv(cfg, Run(cfg, s, run[..|run| - 1]).value, run[|run| - 1]);
    }
  }

  lemma ReachableInv(cfg: Configs, s: State)
    requires WellConfigured(cfg) && Reachable(cfg, s)
    ensures Inv(cfg, s)
  {
    var s0, run :| Init(cfg, s0) && Run(cfg, s0, run) == Some(s);
    InitInv(cfg, s0);
    RunKeepsInv(cfg, s0, run);
  }

  lemma {:induction false} RunConcat(cfg: Configs, s: State, first: seq<Label>, second: seq<Label>)
    requires Run(cfg, s, first).Some?
    ensures Run(cfg, s, first + second) == Run(cfg, Run(cfg, s, first).value, second)
  {
    if second == [] {
      assert first + second == first;
    } else {
      var n := |second| - 1;
      RunConcat(cfg, s, first, second[..n]);
      assert (first + second)[..|first| + n] == first + second[..n];
    }
  }

  lemma {:induction false} MineConcat(first: seq<Label>, second: seq<Label>, a: Actor)
    ensures Mine(first + second, a) == Mine(first, a) + Mine(second, a)
  {
    if second == [] {
      assert first + second == first;
    } else {
      var n := |second| - 1;
      MineConcat(first, second[..n], a);
      assert (first + second)[..|first| + n] == first + second[..n];
    }
  }

  // ---- No split brain ----

  function At(s: State, a: Actor): Local {
    if a in s.local then s.local[a] else Local(Idle, 0, 0)
  }

  /** The file of a lock object is at its path and flocked by its own handle. */
  ghost predicate OwnsPath(c: Config, fs: Fs, loc: Local) {
    AtPath(fs, c.path) && AtHandle(fs, loc.h) && fs.paths[c.path] == fs.handles[loc.h].file &&
    fs.paths[c.path] in fs.owner && fs.owner[fs.paths[c.path]] == loc.h
  }

  lemma InvOwnsPath(cfg: Configs, s: State, b: Actor)
    requires Inv(cfg, s) && b in cfg && Holds(At(s, b).at)
    ensures OwnsPath(cfg[b], s.fs, At(s, b))
  {
    assert ActorOk(cfg[b], s.fs, s.local[b], b);
  }

  /** In every reachable state a verified holder owns the inode its path names. */
  lemma HolderOwnsPath(cfg: Configs, s: State, a: Actor)
    requires WellConfigured(cfg) && Reachable(cfg, s) && a in cfg && Holds(At(s, a).at)
    ensures OwnsPath(cfg[a], s.fs, At(s, a))
  {
    ReachableInv(cfg, s);
    InvOwnsPath(cfg, s, a);
  }

  /** In every reachable state at most one lock object is a verified holder of a path. */
  lemma MutualExclusion(cfg: Configs, s: State, a: Actor, b: Actor)
    requires WellConfigured(cfg) && Reachable(cfg, s) && a in cfg && b in cfg
    requires Holds(At(s, a).at) && Holds(At(s, b).at) && cfg[a].path == cfg[b].path
    ensures a == b
  {
    ReachableInv(cfg, s);
    if a != b {
      Exclusive(s.fs, cfg[a], s.local[a], a, cfg[b], s.local[b], b);
    }
  }

  /** A plain lock excludes other plain locks wherever nothing unlinks the file. */
  lemma PlainExclusion(cfg: Configs, s: State, a: Actor, b: Actor)
    requires WellConfigured(cfg) && Reachable(cfg, s) && a in cfg && b in cfg
    requires At(s, a).at.Stored? && At(s, b).at.Stored?
    requires cfg[a].path == cfg[b].path && PlainPath(cfg, cfg[a].path)
    ensures a == b
  {
    ReachableInv(cfg, s);
    assert ActorOk(cfg[a], s.fs, s.local[a], a) && ActorOk(cfg[b], s.fs, s.local[b], b);
  }

  /** Comparing recyclable numbers decides identity: the open handle keeps its number from being reused. */
  lemma ComparisonDecidesIdentity(cfg: Configs, s: State, a: Actor)
    requires WellConfigured(cfg) && Reachable(cfg, s) && a in cfg && !At(s, a).at.Idle?
    ensures AtHandle(s.fs, At(s, a).h)
    ensures NumbersMatch(s.fs, cfg[a].path, At(s, a).h) <==>
            cfg[a].path in s.fs.paths && s.fs.paths[cfg[a].path] == s.fs.handles[At(s, a).h].file
  {
    ReachableInv(cfg, s);
    assert ActorOk(cfg[a], s.fs, s.local[a], a);
  }

  /** A holder that re-enters acquire compares equal, so it keeps its handle and never drops its lock. */
  lemma ReentryKeepsTheLock(cfg: Configs, s: State, a: Actor)
    requires WellConfigured(cfg) && Reachable(cfg, s) && a in cfg && At(s, a).at.Rechecking?
    ensures Enabled(cfg, s, Act(a, Compare))
    ensures At(Apply(cfg, s, Act(a, Compare)), a) == At(s, a).(at := Verified)
  {
    ComparisonDecidesIdentity(cfg, s, a);
    HolderOwnsPath(cfg, s, a);
    ReachableInv(cfg, s);
  }

  lemma UnlinkersHold(fs: Fs, c: Config, loc: Local, a: Actor, ev: Event, p: Path)
    requires Tables(fs) && ActorOk(c, fs, loc, a) && CanAct(c, fs, loc, a, ev) && CanDo(fs, OpOf(c, loc, a, ev))
    requires p in fs.paths && p !in Do(fs, OpOf(c, loc, a, ev)).paths
    ensures Holds(loc.at) && OwnsPath(c, fs, loc)
    ensures (ev == UnlinkLock(true) && p == c.path) ||
            (ev == UnlinkPid(true) && c.kind.Sidecar? && p == c.kind.pidPath && loc.at.Published?)
  {
    OnlyUnlinkRemoves(fs, OpOf(c, loc, a, ev), p);
  }

  lemma OnlyUnlinkRemoves(fs: Fs, op: Op, p: Path)
    requires Tables(fs) && CanDo(fs, op) && p in fs.paths && p !in Do(fs, op).paths
    ensures op == Unlink(p)
  {
  }

  /** Whatever step makes a path disappear, it is a holder unlinking its own locked inode or its own PID. */
  lemma OnlyHoldersUnlink(cfg: Configs, s: State, l: Label, p: Path)
    requires WellConfigured(cfg) && Reachable(cfg, s) && Enabled(cfg, s, l)
    requires p in s.fs.paths && p !in Apply(cfg, s, l).fs.paths
    ensures l.Act? && Holds(s.local[l.who].at) && OwnsPath(cfg[l.who], s.fs, s.local[l.who])
    ensures (l.ev == UnlinkLock(true) && p == cfg[l.who].path) ||
            (l.ev == UnlinkPid(true) && cfg[l.who].kind.Sidecar? && p == cfg[l.who].kind.pidPath &&
             ReadPid(s.fs, p) == Some(cfg[l.who].kind.pid))
  {
    ReachableInv(cfg, s);
    match l
    case Act(a, ev) =>
      assert ActorOk(cfg[a], s.fs, s.local[a], a);
      UnlinkersHold(s.fs, cfg[a], s.local[a], a, ev, p);
      if s.local[a].at.Published? {
        PublishedPidIsTrue(cfg, s, a);
      }
    case Collect(_) =>
  }

  lemma BystanderKeepsHandle(fs: Fs, op: Op, c: Config, loc: Local, b: Actor)
    requires Tables(fs) && CanDo(fs, op) && ActorOk(c, fs, loc, b) && !loc.at.Idle? && Spares(fs, op, c, loc)
    ensures AtHandle(fs, loc.h) && AtHandle(Do(fs, op), loc.h)
    ensures Do(fs, op).handles[loc.h].file == fs.handles[loc.h].file
  {
  }

  lemma StepSparesOthers(cfg: Configs, s: State, l: Label, b: Actor)
    requires WellConfigured(cfg) && Inv(cfg, s) && Enabled(cfg, s, l) && b in cfg && !At(s, b).at.Idle?
    requires l.Act? ==> l.who != b
    ensures At(Apply(cfg, s, l), b) == At(s, b)
    ensures AtHandle(s.fs, At(s, b).h) && AtHandle(Apply(cfg, s, l).fs, At(s, b).h)
    ensures Apply(cfg, s, l).fs.handles[At(s, b).h].file == s.fs.handles[At(s, b).h].file
  {
    assert ActorOk(cfg[b], s.fs, s.local[b], b);
    match l
    case Act(a, ev) =>
      assert ActorOk(cfg[a], s.fs, s.local[a], a);
      OthersSpared(s.fs, cfg[a], s.local[a], a, ev, cfg[b], s.local[b], b);
      BystanderKeepsHandle(s.fs, OpOf(cfg[a], s.local[a], a, ev), cfg[b], s.local[b], b);
    case Collect(h) =>
      BystanderKeepsHandle(s.fs, Shut({h}), cfg[b], s.local[b], b);
  }

  /** The same lock object stands at the same stage, with the same handle on the same file. */
  ghost predicate SamePosition(s: State, s': State, b: Actor) {
    At(s', b) == At(s, b) && AtHandle(s.fs, At(s, b).h) && AtHandle(s'.fs, At(s, b).h) &&
    s'.fs.handles[At(s, b).h].file == s.fs.handles[At(s, b).h].file
  }

  /** The steps of everybody else, crashes included, leave an active lock object where it is. */
  lemma {:induction false} OthersKeepPosition(cfg: Configs, s: State, run: seq<Label>, b: Actor)
    requires WellConfigured(cfg) && Inv(cfg, s) && Run(cfg, s, run).Some?
    requires b in cfg && !At(s, b).at.Idle? && Mine(run, b) == []
    ensures SamePosition(s, Run(cfg, s, run).value, b)
  {
    if run == [] {
      assert ActorOk(cfg[b], s.fs, s.local[b], b);
    } else {
      var n := |run| - 1;
      OthersKeepPosition(cfg, s, run[..n], b);
      RunKeepsInv(cfg, s, run[..n]);
      StepSparesOthers(cfg, Run(cfg, s, run[..n]).value, run[n], b);
    }
  }

  lemma {:induction false} InvAfter(cfg: Configs, s: State, run: seq<Label>, b: Actor) returns (s': State)
    requires WellConfigured(cfg) && Reachable(cfg, s) && Run(cfg, s, run).Some?
    requires b in cfg && !At(s, b).at.Idle? && Mine(run, b) == []
    ensures Run(cfg, s, run) == Some(s') && Inv(cfg, s) && Inv(cfg, s') && SamePosition(s, s', b)
  {
    ReachableInv(cfg, s);
    OthersKeepPosition(cfg, s, run, b);
    RunKeepsInv(cfg, s, run);
    s' := Run(cfg, s, run).value;
  }

  /** A holder in the same position still owns the same file at its path. */
  lemma SameHold(cfg: Configs, s: State, s': State, b: Actor)
    requires Inv(cfg, s) && Inv(cfg, s') && SamePosition(s, s', b) && b in cfg && Holds(At(s, b).at)
    ensures OwnsPath(cfg[b], s.fs, At(s, b)) && OwnsPath(cfg[b], s'.fs, At(s, b))
    ensures s'.fs.paths[cfg[b].path] == s.fs.paths[cfg[b].path]
  {
    InvOwnsPath(cfg, s, b);
    InvOwnsPath(cfg, s', b);
  }

  /** Nobody else can end a hold: after any steps of others the same inode is still at the path and flocked. */
  lemma {:induction false} HoldSurvivesOthers(cfg: Configs, s: State, run: seq<Label>, b: Actor)
    requires WellConfigured(cfg) && Reachable(cfg, s) && Run(cfg, s, run).Some?
    requires b in cfg && Holds(At(s, b).at) && Mine(run, b) == []
    ensures var s' := Run(cfg, s, run).value;
            At(s', b) == At(s, b) && OwnsPath(cfg[b], s.fs, At(s, b)) && OwnsPath(cfg[b], s'.fs, At(s, b)) &&
            s'.fs.paths[cfg[b].path] == s.fs.paths[cfg[b].path]
  {
    var s' := InvAfter(cfg, s, run, b);
    SameHold(cfg, s, s', b);
  }

  // ---- The published PID ----

  lemma InvPid(cfg: Configs, s: State, a: Actor)
    requires Inv(cfg, s) && a in cfg && At(s, a).at.Published?
    ensures cfg[a].kind.Sidecar? && ReadPid(s.fs, cfg[a].kind.pidPath) == Some(cfg[a].kind.pid)
  {
    assert ActorOk(cfg[a], s.fs, s.local[a], a);
    Decimal.ParseIntOfDigits(cfg[a].kind.pid);
  }

  /** A reader always gets the true holder while a PID is published. */
  lemma PublishedPidIsTrue(cfg: Configs, s: State, a: Actor)
    requires WellConfigured(cfg) && Reachable(cfg, s) && a in cfg && At(s, a).at.Published?
    ensures cfg[a].kind.Sidecar? && ReadPid(s.fs, cfg[a].kind.pidPath) == Some(cfg[a].kind.pid)
  {
    ReachableInv(cfg, s);
    InvPid(cfg, s, a);
  }

  lemma StepKeepsPidFile(cfg: Configs, s: State, l: Label, a: Actor)
    requires WellConfigured(cfg) && Inv(cfg, s) && Enabled(cfg, s, l)
    requires a in cfg && At(s, a).at.Published? && (l.Act? ==> l.who != a)
    ensures cfg[a].kind.Sidecar? && SameFileAt(s.fs, Apply(cfg, s, l).fs, cfg[a].kind.pidPath)
  {
    assert ActorOk(cfg[a], s.fs, s.local[a], a);
    match l
    case Act(b, ev) =>
      assert ActorOk(cfg[b], s.fs, s.local[b], b);
      OthersSpared(s.fs, cfg[b], s.local[b], b, ev, cfg[a], s.local[a], a);
      SparedPidFile(s.fs, OpOf(cfg[b], s.local[b], b, ev), cfg[a], s.local[a]);
    case Collect(h) =>
      SparedPidFile(s.fs, Shut({h}), cfg[a], s.local[a]);
  }

  lemma SparedPidFile(fs: Fs, op: Op, c: Config, loc: Local)
    requires Tables(fs) && CanDo(fs, op) && Spares(fs, op, c, loc)
    requires loc.at.Published? && c.kind.Sidecar? && c.kind.pidPath in fs.paths
    ensures SameFileAt(fs, Do(fs, op), c.kind.pidPath)
  {
  }

  /** The PID path of a published lock keeps naming one file through any steps of others. */
  lemma {:induction false} PidPathKeepsFile(cfg: Configs, s: State, run: seq<Label>, a: Actor)
    requires WellConfigured(cfg) && Inv(cfg, s) && Run(cfg, s, run).Some?
    requires a in cfg && At(s, a).at.Published? && Mine(run, a) == []
    ensures cfg[a].kind.Sidecar? && SameFileAt(s.fs, Run(cfg, s, run).value.fs, cfg[a].kind.pidPath)
  {
    if run == [] {
      assert ActorOk(cfg[a], s.fs, s.local[a], a);
    } else {
      var n := |run| - 1;
      PidPathKeepsFile(cfg, s, run[..n], a);
      OthersKeepPosition(cfg, s, run[..n], a);
      RunKeepsInv(cfg, s, run[..n]);
      StepKeepsPidFile(cfg, Run(cfg, s, run[..n]).value, run[n], a);
    }
  }

  ghost predicate SameFileAt(before: Fs, after: Fs, p: Path) {
    p in before.paths && p in after.paths && after.paths[p] == before.paths[p]
  }

  /**
   ... and keeps getting it, whatever acquirers, releasers, failed publishers and crashes do meanwhile.
   The path also keeps naming one file, so a reader that opens it early and reads it late is not misled.
   */
  lemma {:induction false} PublicationSurvivesOthers(cfg: Configs, s: State, run: seq<Label>, a: Actor)
    requires WellConfigured(cfg) && Inv(cfg, s) && Run(cfg, s, run).Some?
    requires a in cfg && At(s, a).at.Published? && Mine(run, a) == []
    ensures var s' := Run(cfg, s, run).value;
            At(s', a).at.Published? && cfg[a].kind.Sidecar? &&
            ReadPid(s'.fs, cfg[a].kind.pidPath) == Some(cfg[a].kind.pid) &&
            SameFileAt(s.fs, s'.fs, cfg[a].kind.pidPath)
  {
    RunKeepsInv(cfg, s, run);
    OthersKeepPosition(cfg, s, run, a);
    InvPid(cfg, Run(cfg, s, run).value, a);
    PidPathKeepsFile(cfg, s, run, a);
  }

  // ---- A free path can be taken, and a release gives it back ----

  lemma {:induction false} FreshNat(used: set<nat>) returns (n: nat)
    ensures forall x | x in used :: x < n
    decreases used
  {
    if used == {} {
      n := 0;
    } else {
      var x :| x in used;
      var m := FreshNat(used - {x});
      n := if m > x then m else x + 1;
      assert forall y | y in used :: y == x || y in used - {x};
    }
  }

  lemma {:induction false} Extend(cfg: Configs, s: State, run: seq<Label>, l: Label)
    requires Run(cfg, s, run).Some? && Enabled(cfg, Run(cfg, s, run).value, l)
    ensures Run(cfg, s, run + [l]) == Some(Apply(cfg, Run(cfg, s, run).value, l))
  {
    assert (run + [l])[..|run|] == run;
  }

  lemma CanOpenAnew(fs: Fs, p: Path, a: Actor) returns (h: Handle, f: FileId, ino: nat)
    ensures CanDo(fs, Attach(p, h, a, f, ino))
  {
    h := FreshNat(fs.handles.Keys);
    f := FreshNat(fs.files.Keys);
    var inos := set g | g in fs.files :: fs.files[g].ino;
    ino := FreshNat(inos);
    forall q | AtPath(fs, q) ensures PathIno(fs, q) != ino {
      assert fs.files[fs.paths[q]].ino in inos;
    }
    forall k | AtHandle(fs, k) ensures HandleIno(fs, k) != ino {
      assert fs.files[fs.handles[k].file].ino in inos;
    }
  }

  ghost predicate OnlyActs(run: seq<Label>, a: Actor) {
    forall l | l in run :: l.Act? && l.who == a
  }

  lemma Both(cfg: Configs, s: State, a: Actor, first: Event, second: Event) returns (run: seq<Label>)
    requires Enabled(cfg, s, Act(a, first)) && Enabled(cfg, Apply(cfg, s, Act(a, first)), Act(a, second))
    ensures Run(cfg, s, run) == Some(Apply(cfg, Apply(cfg, s, Act(a, first)), Act(a, second))) && OnlyActs(run, a)
  {
    Extend(cfg, s, [], Act(a, first));
    Extend(cfg, s, [Act(a, first)], Act(a, second));
    run := [Act(a, first)] + [Act(a, second)];
    assert [] + [Act(a, first)] == [Act(a, first)];
  }

  /** Opening a path nobody has flocked and locking it. */
  lemma {:induction false} OpenThenFlock(cfg: Configs, s: State, a: Actor) returns (run: seq<Label>, s2: State)
    requires WellConfigured(cfg) && Inv(cfg, s) && a in cfg && At(s, a).at.Idle?
    requires cfg[a].path in s.fs.paths ==> s.fs.paths[cfg[a].path] !in s.fs.owner
    ensures Run(cfg, s, run) == Some(s2) && Inv(cfg, s2) && OnlyActs(run, a)
    ensures At(s2, a).at.Locked? && AtHandle(s2.fs, At(s2, a).h) && AtPath(s2.fs, cfg[a].path)
    ensures s2.fs.paths[cfg[a].path] == s2.fs.handles[At(s2, a).h].file
  {
    var h, f, ino := CanOpenAnew(s.fs, cfg[a].path, a);
    var s1 := OpenPath(cfg, s, a, h, f, ino);
    s2 := FlockPath(cfg, s1, a);
    run := Both(cfg, s, a, Open(h, f, ino), Flock);
  }

  lemma FlockPath(cfg: Configs, s: State, a: Actor) returns (t: State)
    requires WellConfigured(cfg) && Inv(cfg, s) && a in cfg && Enabled(cfg, s, Act(a, Flock))
    requires AtPath(s.fs, cfg[a].path) && AtHandle(s.fs, At(s, a).h)
    requires s.fs.paths[cfg[a].path] == s.fs.handles[At(s, a).h].file
    ensures t == Apply(cfg, s, Act(a, Flock)) && Inv(cfg, t)
    ensures At(t, a).at.Locked? && AtHandle(t.fs, At(t, a).h) && AtPath(t.fs, cfg[a].path)
    ensures t.fs.paths[cfg[a].path] == t.fs.handles[At(t, a).h].file
  {
    StepKeepsInv(cfg, s, Act(a, Flock));
    t := Apply(cfg, s, Act(a, Flock));
  }

  lemma OpenPath(cfg: Configs, s: State, a: Actor, h: Handle, f: FileId, ino: nat) returns (s1: State)
    requires WellConfigured(cfg) && Inv(cfg, s) && a in cfg && At(s, a).at.Idle?
    requires CanDo(s.fs, Attach(cfg[a].path, h, a, f, ino))
    requires cfg[a].path in s.fs.paths ==> s.fs.paths[cfg[a].path] !in s.fs.owner
    ensures Enabled(cfg, s, Act(a, Open(h, f, ino))) && s1 == Apply(cfg, s, Act(a, Open(h, f, ino)))
    ensures Inv(cfg, s1) && Enabled(cfg, s1, Act(a, Flock)) && At(s1, a).h == h
    ensures AtPath(s1.fs, cfg[a].path) && s1.fs.paths[cfg[a].path] == s1.fs.handles[h].file
  {
    s1 := Apply(cfg, s, Act(a, Open(h, f, ino)));
    AttachNamesPath(s.fs, cfg[a].path, h, a, f, ino);
    StepKeepsInv(cfg, s, Act(a, Open(h, f, ino)));
  }

  lemma AttachNamesPath(fs: Fs, p: Path, h: Handle, a: Actor, f: FileId, ino: nat)
    requires Tables(fs) && CanDo(fs, Attach(p, h, a, f, ino))
    requires p in fs.paths ==> fs.paths[p] !in fs.owner
    ensures var after := Do(fs, Attach(p, h, a, f, ino));
            AtPath(after, p) && AtHandle(after, h) && after.paths[p] == after.handles[h].file &&
            after.paths[p] !in after.owner
  {
  }

  lemma {:induction false} StoreThenCompare(cfg: Configs, s: State, a: Actor) returns (run: seq<Label>)
    requires WellConfigured(cfg) && Inv(cfg, s) && a in cfg && !cfg[a].kind.Plain? && At(s, a).at.Locked?
    requires AtHandle(s.fs, At(s, a).h) && AtPath(s.fs, cfg[a].path)
    requires s.fs.paths[cfg[a].path] == s.fs.handles[At(s, a).h].file
    ensures Run(cfg, s, run).Some? && OnlyActs(run, a) && At(Run(cfg, s, run).value, a).at.Verified?
  {
    var s' := Apply(cfg, s, Act(a, Store));
    assert NumbersMatch(s'.fs, cfg[a].path, At(s', a).h);
    run := Both(cfg, s, a, Store, Compare);
  }

  /** From any invariant state, an undisturbed acquire of a path nobody has flocked becomes a holder. */
  lemma {:induction false} LoneAcquireSucceeds(cfg: Configs, s: State, a: Actor) returns (run: seq<Label>)
    requires WellConfigured(cfg) && Inv(cfg, s) && a in cfg && !cfg[a].kind.Plain? && At(s, a).at.Idle?
    requires cfg[a].path in s.fs.paths ==> s.fs.paths[cfg[a].path] !in s.fs.owner
    ensures Run(cfg, s, run).Some? && At(Run(cfg, s, run).value, a).at.Verified? && OnlyActs(run, a)
  {
    var first, s2 := OpenThenFlock(cfg, s, a);
    var second := StoreThenCompare(cfg, s2, a);
    RunConcat(cfg, s, first, second);
    run := first + second;
  }
}
