/** What the steps of the lock-file protocol do to the file system, and that a release gives the path back. */
module FileEffects {
  import opened Basics
  import Decimal
  import opened FileProtocol
  import opened FileSafety
  import opened FileTheorems

  /** The handle has no flock. */
  ghost predicate NoFlock(fs: Fs, h: Handle) {
    forall f | f in fs.owner :: fs.owner[f] != h
  }

  /** The handle is closed and its flock gone; nothing else is different. */
  ghost predicate OnlyClosed(before: Fs, after: Fs, h: Handle) {
    h !in after.handles && NoFlock(after, h) &&
    after.handles == before.handles - {h} && after.paths == before.paths && after.files == before.files &&
    forall f | f in before.owner && before.owner[f] != h :: f in after.owner && after.owner[f] == before.owner[f]
  }

  // ---- Taking ----

  /** Opening attaches to the file at the path, or creates an empty one there, and changes no other path. */
  lemma OpenEffect(cfg: Configs, s: State, a: Actor, h: Handle, f: FileId, ino: nat)
    requires Tables(s.fs) && Enabled(cfg, s, Act(a, Open(h, f, ino)))
    ensures var p, t := cfg[a].path, Apply(cfg, s, Act(a, Open(h, f, ino)));
            p in t.fs.paths && h in t.fs.handles && t.fs.handles[h] == Desc(t.fs.paths[p], Some(a)) &&
            (if p in s.fs.paths then t.fs.paths == s.fs.paths && t.fs.files == s.fs.files
             else t.fs.paths - {p} == s.fs.paths && t.fs.files[t.fs.paths[p]].content == "" &&
                  t.fs.paths[p] !in s.fs.files && t.fs.files - {t.fs.paths[p]} == s.fs.files) &&
            t.fs.owner == s.fs.owner && At(t, a) == Local(Opened, h, At(s, a).g)
  {
  }

  /** A granted flock belongs to the lock object's own handle. */
  lemma FlockEffect(cfg: Configs, s: State, a: Actor)
    requires Enabled(cfg, s, Act(a, Flock))
    ensures var h, t := At(s, a).h, Apply(cfg, s, Act(a, Flock));
            var f := s.fs.handles[h].file;
            f !in s.fs.owner && t.fs == s.fs.(owner := s.fs.owner[f := h]) && At(t, a) == At(s, a).(at := Locked)
  {
  }

  /** Preparing empties the file of a temporary lock and changes no other file, plain lock files included. */
  lemma StoreEffect(cfg: Configs, s: State, a: Actor)
    requires Inv(cfg, s) && Enabled(cfg, s, Act(a, Store))
    ensures var h, t := At(s, a).h, Apply(cfg, s, Act(a, Store));
            AtHandle(s.fs, h) && t.fs.(files := s.fs.files) == s.fs && At(t, a) == At(s, a).(at := Stored) &&
            (if cfg[a].kind.Temporary? then HasContent(s.fs, t.fs, h, "") else t.fs == s.fs)
  {
    assert ActorOk(cfg[a], s.fs, s.local[a], a);
  }

  /** The file behind `h` holds `content`, and no other file changed. */
  ghost predicate HasContent(before: Fs, after: Fs, h: Handle, content: string)
    requires h in before.handles
  {
    var f := before.handles[h].file;
    f in before.files && f in after.files && after.files[f] == before.files[f].(content := content) &&
    after.files - {f} == before.files - {f}
  }

  // ---- Publishing ----

  /** Emptying and filling: the PID file then holds the decimal PID and nothing else. */
  lemma FillEffects(cfg: Configs, s: State, a: Actor)
    requires a in cfg && cfg[a].kind.Sidecar? && AtHandle(s.fs, At(s, a).g)
    ensures Enabled(cfg, s, Act(a, EmptyPid)) ==>
              HasContent(s.fs, Apply(cfg, s, Act(a, EmptyPid)).fs, At(s, a).g, "")
    ensures Enabled(cfg, s, Act(a, FillPid)) ==>
              HasContent(s.fs, Apply(cfg, s, Act(a, FillPid)).fs, At(s, a).g, Decimal.Digits(cfg[a].kind.pid))
  {
  }

  /** The PID file is closed after success and after failure. */
  lemma ClosePidEffects(cfg: Configs, s: State, a: Actor)
    requires a in cfg
    ensures Enabled(cfg, s, Act(a, ClosePid)) ==> OnlyClosed(s.fs, Apply(cfg, s, Act(a, ClosePid)).fs, At(s, a).g)
    ensures Enabled(cfg, s, Act(a, ShutPid)) ==> OnlyClosed(s.fs, Apply(cfg, s, Act(a, ShutPid)).fs, At(s, a).g)
  {
  }

  lemma OpenPidEffect(cfg: Configs, s: State, a: Actor, g: Handle, f: FileId, ino: nat)
    requires Tables(s.fs) && Enabled(cfg, s, Act(a, OpenPid(g, f, ino)))
    ensures var p, t := cfg[a].kind.pidPath, Apply(cfg, s, Act(a, OpenPid(g, f, ino)));
            p in t.fs.paths && g in t.fs.handles && t.fs.handles[g] == Desc(t.fs.paths[p], Some(a)) &&
            (p in s.fs.paths ==> t.fs.paths == s.fs.paths && t.fs.files == s.fs.files) &&
            t.fs.owner == s.fs.owner && At(t, a) == Local(PidOpen, At(s, a).h, g)
  {
  }

  // ---- Giving up ----

  lemma OwnHandle(cfg: Configs, s: State, a: Actor)
    requires Inv(cfg, s) && a in cfg && !At(s, a).at.Idle?
    ensures AtHandle(s.fs, At(s, a).h) && s.fs.handles[At(s, a).h].user == Some(a)
    ensures forall f | f in s.fs.owner && s.fs.owner[f] == At(s, a).h :: f == s.fs.handles[At(s, a).h].file
  {
    assert ActorOk(cfg[a], s.fs, s.local[a], a);
  }

  /** A successful unlock leaves the file without flock; a failed one changes nothing. */
  lemma UnlockEffect(cfg: Configs, s: State, a: Actor, done: bool)
    requires Inv(cfg, s) && Enabled(cfg, s, Act(a, Unlock(done)))
    ensures var h, t := At(s, a).h, Apply(cfg, s, Act(a, Unlock(done)));
            At(t, a) == At(s, a).(at := Closing) && AtHandle(s.fs, h) &&
            if done then NoFlock(t.fs, h) && t.fs == s.fs.(owner := s.fs.owner - {s.fs.handles[h].file})
            else t.fs == s.fs
  {
    OwnHandle(cfg, s, a);
    Unlocked(cfg, s, a, done);
  }

  lemma Unlocked(cfg: Configs, s: State, a: Actor, done: bool)
    requires Enabled(cfg, s, Act(a, Unlock(done))) && At(s, a).h in s.fs.handles
    ensures var h, t := At(s, a).h, Apply(cfg, s, Act(a, Unlock(done)));
            At(t, a) == At(s, a).(at := Closing) &&
            t.fs == if done then s.fs.(owner := s.fs.owner - {s.fs.handles[h].file}) else s.fs
  {
  }

  /** A successful close drops handle and flock; after a failed one nobody uses the handle. */
  lemma CloseEffect(cfg: Configs, s: State, a: Actor, done: bool)
    requires Enabled(cfg, s, Act(a, Close(done))) && At(s, a).h in s.fs.handles
    ensures var h, t := At(s, a).h, Apply(cfg, s, Act(a, Close(done)));
            At(t, a).at.Idle? && if done then OnlyClosed(s.fs, t.fs, h) else LeftBehind(s.fs, t.fs, h)
  {
  }

  lemma ClosedForGood(cfg: Configs, s: State, a: Actor)
    requires Enabled(cfg, s, Act(a, Close(true)))
    ensures OnlyClosed(s.fs, Apply(cfg, s, Act(a, Close(true))).fs, At(s, a).h)
  {
  }

  /** An attempt that gives up closes its handle likewise. */
  lemma GiveUpEffect(cfg: Configs, s: State, a: Actor, closed: bool)
    requires Enabled(cfg, s, Act(a, GiveUp(closed))) && At(s, a).h in s.fs.handles
    ensures var h, t := At(s, a).h, Apply(cfg, s, Act(a, GiveUp(closed)));
            At(t, a).at.Idle? && if closed then OnlyClosed(s.fs, t.fs, h) else LeftBehind(s.fs, t.fs, h)
  {
  }

  /** Still open, but without user. */
  ghost predicate LeftBehind(before: Fs, after: Fs, h: Handle)
    requires h in before.handles
  {
    after == before.(handles := before.handles[h := before.handles[h].(user := None)])
  }

  /** A handle that was left behind can be collected at any time, which closes it. */
  lemma CollectEffect(cfg: Configs, s: State, h: Handle)
    requires h in s.fs.handles && s.fs.handles[h].user == None
    ensures Enabled(cfg, s, Collect(h)) && OnlyClosed(s.fs, Apply(cfg, s, Collect(h)).fs, h)
    ensures Apply(cfg, s, Collect(h)).local == s.local
  {
  }

  /** A successful unlink takes its path away and nothing else; a failed one changes nothing. */
  lemma UnlinkEffects(cfg: Configs, s: State, a: Actor, done: bool)
    requires a in cfg
    ensures Enabled(cfg, s, Act(a, UnlinkLock(done))) ==>
              var t := Apply(cfg, s, Act(a, UnlinkLock(done)));
              At(t, a) == At(s, a).(at := Unlocking) &&
              t.fs == if done then s.fs.(paths := s.fs.paths - {cfg[a].path}) else s.fs
    ensures Enabled(cfg, s, Act(a, UnlinkPid(done))) ==>
              var t := Apply(cfg, s, Act(a, UnlinkPid(done)));
              At(t, a) == At(s, a).(at := if done then PidGone else Unlocking) && cfg[a].kind.Sidecar? &&
              t.fs == if done then s.fs.(paths := s.fs.paths - {cfg[a].kind.pidPath}) else s.fs
  {
  }

  /** A process may end at any time, and then none of its handles and flocks are left. */
  lemma CrashEffect(cfg: Configs, s: State, a: Actor)
    requires Inv(cfg, s) && a in cfg
    ensures var hs := set h | h in s.fs.handles && s.fs.handles[h].user == Some(a);
            Enabled(cfg, s, Act(a, Crash(hs))) &&
            var t := Apply(cfg, s, Act(a, Crash(hs)));
            At(t, a).at.Idle? && t.fs.paths == s.fs.paths && t.fs.files == s.fs.files &&
            (forall h :: h in t.fs.handles <==> h in s.fs.handles && s.fs.handles[h].user != Some(a)) &&
            (forall h | h in hs :: NoFlock(t.fs, h)) &&
            forall f | f in s.fs.owner && s.fs.owner[f] !in hs :: f in t.fs.owner && t.fs.owner[f] == s.fs.owner[f]
  {
  }

  // ---- A release gives the path back ----

  /** Nobody has flocked what the path names, if it names anything. */
  ghost predicate PathFree(s: State, p: Path) {
    p in s.fs.paths ==> s.fs.paths[p] !in s.fs.owner
  }

  /** Holding, and about to release. */
  ghost predicate ReadyToRelease(cfg: Configs, s: State, a: Actor)
    requires a in cfg
  {
    match cfg[a].kind
    case Plain => At(s, a).at.Stored? && PlainPath(cfg, cfg[a].path)
    case Temporary => At(s, a).at.Verified?
    case Sidecar(_, _) => At(s, a).at.Published?
  }

  lemma {:induction false} OwnStep(cfg: Configs, s: State, run: seq<Label>, mid: State, a: Actor, ev: Event)
    returns (longer: seq<Label>, t: State)
    requires WellConfigured(cfg) && Run(cfg, s, run) == Some(mid) && Inv(cfg, mid) && OnlyActs(run, a)
    requires Enabled(cfg, mid, Act(a, ev))
    ensures Run(cfg, s, longer) == Some(t) && t == Apply(cfg, mid, Act(a, ev)) && Inv(cfg, t) && OnlyActs(longer, a)
    ensures forall b | b != a :: At(t, b) == At(mid, b)
  {
    StepKeepsInv(cfg, mid, Act(a, ev));
    Extend(cfg, s, run, Act(a, ev));
    longer, t := run + [Act(a, ev)], Apply(cfg, mid, Act(a, ev));
  }

  lemma UnlockingEnabled(cfg: Configs, s: State, a: Actor)
    requires Inv(cfg, s) && a in cfg
    ensures At(s, a).at.Unlocking? ==> Enabled(cfg, s, Act(a, Unlock(true)))
    ensures At(s, a).at.Closing? ==> Enabled(cfg, s, Act(a, Close(true)))
  {
    assert ActorOk(cfg[a], s.fs, s.local[a], a);
  }

  /** Unlocking next, with the path given up or, for a plain lock, still naming the file of the handle. */
  ghost predicate AboutToUnlock(cfg: Configs, s: State, a: Actor)
    requires a in cfg
  {
    Inv(cfg, s) && At(s, a).at.Unlocking? && AtHandle(s.fs, At(s, a).h) &&
    if cfg[a].kind.Plain? then
      cfg[a].path in s.fs.paths && s.fs.paths[cfg[a].path] == s.fs.handles[At(s, a).h].file
    else cfg[a].path !in s.fs.paths
  }

  lemma {:induction false} PlainDiscard(cfg: Configs, s: State, a: Actor) returns (run: seq<Label>, t: State)
    requires WellConfigured(cfg) && Inv(cfg, s) && a in cfg && cfg[a].kind.Plain? && ReadyToRelease(cfg, s, a)
    ensures Run(cfg, s, run) == Some(t) && OnlyActs(run, a) && AboutToUnlock(cfg, t, a)
    ensures At(t, a).h == At(s, a).h && forall b | b != a :: At(t, b) == At(s, b)
  {
    OwnHandle(cfg, s, a);
    SamePlainFile(cfg, s, a);
    run, t := OwnStep(cfg, s, [], s, a, Discard);
  }

  lemma {:induction false} TemporaryUnlink(cfg: Configs, s: State, a: Actor) returns (run: seq<Label>, t: State)
    requires WellConfigured(cfg) && Inv(cfg, s) && a in cfg && cfg[a].kind.Temporary? && ReadyToRelease(cfg, s, a)
    ensures Run(cfg, s, run) == Some(t) && OnlyActs(run, a) && AboutToUnlock(cfg, t, a)
    ensures At(t, a).h == At(s, a).h && forall b | b != a :: At(t, b) == At(s, b)
  {
    OwnHandle(cfg, s, a);
    run, t := UnlinkLast(cfg, s, [], s, a);
  }

  lemma {:induction false} UnlinkLast(cfg: Configs, s: State, run: seq<Label>, u: State, a: Actor)
    returns (longer: seq<Label>, t: State)
    requires WellConfigured(cfg) && Run(cfg, s, run) == Some(u) && Inv(cfg, u) && OnlyActs(run, a)
    requires a in cfg && !cfg[a].kind.Plain? && Enabled(cfg, u, Act(a, UnlinkLock(true)))
    requires AtHandle(u.fs, At(u, a).h)
    ensures Run(cfg, s, longer) == Some(t) && OnlyActs(longer, a) && AboutToUnlock(cfg, t, a)
    ensures At(t, a).h == At(u, a).h && forall b | b != a :: At(t, b) == At(u, b)
    ensures forall p | p !in u.fs.paths :: p !in t.fs.paths
  {
    UnlinkEffects(cfg, u, a, true);
    longer, t := OwnStep(cfg, s, run, u, a, UnlinkLock(true));
  }

  lemma {:induction false} SidecarUnlink(cfg: Configs, s: State, a: Actor) returns (run: seq<Label>, t: State)
    requires WellConfigured(cfg) && Inv(cfg, s) && a in cfg && cfg[a].kind.Sidecar? && ReadyToRelease(cfg, s, a)
    ensures Run(cfg, s, run) == Some(t) && OnlyActs(run, a) && AboutToUnlock(cfg, t, a)
    ensures At(t, a).h == At(s, a).h && forall b | b != a :: At(t, b) == At(s, b)
    ensures cfg[a].kind.pidPath !in t.fs.paths
  {
    var u;
    run, u := PidUnlink(cfg, s, a);
    LockUnlinkEnabled(cfg, u, a);
    OwnHandle(cfg, u, a);
    run, t := UnlinkLast(cfg, s, run, u, a);
  }

  lemma {:induction false} LockUnlinkEnabled(cfg: Configs, s: State, a: Actor)
    requires a in cfg && At(s, a).at.PidGone?
    ensures Enabled(cfg, s, Act(a, UnlinkLock(true)))
  {
  }

  lemma {:induction false} PidUnlink(cfg: Configs, s: State, a: Actor) returns (run: seq<Label>, t: State)
    requires WellConfigured(cfg) && Inv(cfg, s) && a in cfg && cfg[a].kind.Sidecar? && At(s, a).at.Published?
    ensures Run(cfg, s, run) == Some(t) && OnlyActs(run, a) && Inv(cfg, t) && cfg[a].kind.pidPath !in t.fs.paths
    ensures At(t, a) == At(s, a).(at := PidGone) && forall b | b != a :: At(t, b) == At(s, b)
  {
    UnlinkEffects(cfg, s, a, true);
    run, t := OwnStep(cfg, s, [], s, a, UnlinkPid(true));
  }

  /** Unlock and close, once the paths are given up. */
  lemma {:induction false} UnlockAndClose(cfg: Configs, s: State, run: seq<Label>, u: State, a: Actor)
    returns (longer: seq<Label>, t: State)
    requires WellConfigured(cfg) && Run(cfg, s, run) == Some(u) && OnlyActs(run, a)
    requires a in cfg && AboutToUnlock(cfg, u, a)
    ensures Run(cfg, s, longer) == Some(t) && Inv(cfg, t) && OnlyActs(longer, a)
    ensures At(t, a).at.Idle? && (forall b | b != a :: At(t, b) == At(u, b)) && At(u, a).h !in t.fs.handles
    ensures t.fs.paths == u.fs.paths && PathFree(t, cfg[a].path)
  {
    UnlockEffect(cfg, u, a, true);
    UnlockingEnabled(cfg, u, a);
    var mid;
    longer, mid := OwnStep(cfg, s, run, u, a, Unlock(true));
    UnlockingEnabled(cfg, mid, a);
    CloseEffect(cfg, mid, a, true);
    longer, t := OwnStep(cfg, s, longer, mid, a, Close(true));
    StaysFree(mid, t, cfg[a].path, At(u, a).h);
  }

  lemma StaysFree(s: State, t: State, p: Path, h: Handle)
    requires PathFree(s, p) && t.fs.paths == s.fs.paths && forall f | f in t.fs.owner :: f in s.fs.owner
    ensures PathFree(t, p)
  {
  }

  /** An undisturbed release ends idle with its handle closed and its path free for anybody. */
  lemma {:induction false} ReleaseFreesPath(cfg: Configs, s: State, a: Actor) returns (run: seq<Label>, t: State)
    requires WellConfigured(cfg) && Inv(cfg, s) && a in cfg && ReadyToRelease(cfg, s, a)
    ensures Run(cfg, s, run) == Some(t) && Inv(cfg, t) && OnlyActs(run, a)
    ensures At(t, a).at.Idle? && forall b | b != a :: At(t, b) == At(s, b)
    ensures At(s, a).h !in t.fs.handles && PathFree(t, cfg[a].path)
    ensures !cfg[a].kind.Plain? ==> cfg[a].path !in t.fs.paths
    ensures cfg[a].kind.Sidecar? ==> cfg[a].kind.pidPath !in t.fs.paths
  {
    var u;
    match cfg[a].kind {
      case Plain => run, u := PlainDiscard(cfg, s, a);
      case Temporary => run, u := TemporaryUnlink(cfg, s, a);
      case Sidecar(_, _) => run, u := SidecarUnlink(cfg, s, a);
    }
    run, t := UnlockAndClose(cfg, s, run, u, a);
  }

  /** A plain lock's path keeps naming its file where nobody unlinks. */
  lemma SamePlainFile(cfg: Configs, s: State, a: Actor)
    requires Inv(cfg, s) && a in cfg && At(s, a).at.Stored? && PlainPath(cfg, cfg[a].path)
    ensures cfg[a].path in s.fs.paths && s.fs.paths[cfg[a].path] == s.fs.handles[At(s, a).h].file
  {
    assert ActorOk(cfg[a], s.fs, s.local[a], a);
  }

  /** After the release another lock object that is not active takes the path, whatever its kind. */
  lemma {:induction false} ReleaseHandsOver(cfg: Configs, s: State, a: Actor, b: Actor)
    returns (release: seq<Label>, acquire: seq<Label>, t: State)
    requires WellConfigured(cfg) && Inv(cfg, s) && a in cfg && ReadyToRelease(cfg, s, a)
    requires b in cfg && b != a && At(s, b).at.Idle? && cfg[b].path == cfg[a].path
    ensures OnlyActs(release, a) && OnlyActs(acquire, b) && Run(cfg, s, release + acquire) == Some(t)
    ensures if cfg[b].kind.Plain? then At(t, b).at.Stored? else At(t, b).at.Verified?
  {
    var u;
    release, u := ReleaseFreesPath(cfg, s, a);
    acquire, t := LoneAcquire(cfg, u, b);
    RunConcat(cfg, s, release, acquire);
  }

  lemma {:induction false} LoneAcquire(cfg: Configs, s: State, b: Actor) returns (run: seq<Label>, t: State)
    requires WellConfigured(cfg) && Inv(cfg, s) && b in cfg && At(s, b).at.Idle? && PathFree(s, cfg[b].path)
    ensures Run(cfg, s, run) == Some(t) && OnlyActs(run, b)
    ensures if cfg[b].kind.Plain? then At(t, b).at.Stored? else At(t, b).at.Verified?
  {
    if cfg[b].kind.Plain? {
      var u;
      run, u := OpenThenFlock(cfg, s, b);
      run, t := OwnStep(cfg, s, run, u, b, Store);
    } else {
      run := LoneAcquireSucceeds(cfg, s, b);
      t := Run(cfg, s, run).value;
    }
  }
}
