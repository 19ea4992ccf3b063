/** One step of the lock-file protocol keeps the invariant. */
module FileSafety {
  import opened Basics
  import opened FileProtocol

  lemma DoKeepsTables(fs: Fs, op: Op)
    requires Tables(fs) && CanDo(fs, op)
    ensures Tables(Do(fs, op))
  {
  }

  /** `after` reaches no file that `before` did not, and numbers are unchanged. */
  ghost predicate Narrower(before: Fs, after: Fs) {
    (forall p | AtPath(after, p) ::
       AtPath(before, p) && after.paths[p] == before.paths[p] && PathIno(after, p) == PathIno(before, p)) &&
    (forall h | AtHandle(after, h) ::
       AtHandle(before, h) && after.handles[h].file == before.handles[h].file &&
       HandleIno(after, h) == HandleIno(before, h))
  }

  lemma NarrowerKeepsNumbers(before: Fs, after: Fs)
    requires NumbersDistinct(before) && Narrower(before, after)
    ensures NumbersDistinct(after)
  {
  }

  lemma ReopenKeepsNumbers(fs: Fs, p: Path, h: Handle, a: Actor)
    requires Tables(fs) && NumbersDistinct(fs) && h !in fs.handles && p in fs.paths
    ensures NumbersDistinct(fs.(handles := fs.handles[h := Desc(fs.paths[p], Some(a))]))
  {
    var after := fs.(handles := fs.handles[h := Desc(fs.paths[p], Some(a))]);
    assert AtPath(fs, p) && HandleIno(after, h) == PathIno(fs, p);
    forall q | AtPath(after, q)
      ensures AtPath(fs, q) && PathIno(after, q) == PathIno(fs, q)
    {
    }
    forall k | AtHandle(after, k) && k != h
      ensures AtHandle(fs, k) && HandleIno(after, k) == HandleIno(fs, k)
    {
    }
  }

  lemma CreateKeepsNumbers(fs: Fs, p: Path, h: Handle, a: Actor, f: FileId, ino: nat)
    requires Tables(fs) && NumbersDistinct(fs)
    requires h !in fs.handles && p !in fs.paths && f !in fs.files && UnusedIno(fs, ino)
    ensures NumbersDistinct(Do(fs, Attach(p, h, a, f, ino)))
  {
    var after := Do(fs, Attach(p, h, a, f, ino));
    assert AtPath(after, p) && PathIno(after, p) == ino && HandleIno(after, h) == ino;
    forall q | AtPath(after, q) && q != p
      ensures AtPath(fs, q) && PathIno(after, q) == PathIno(fs, q) && PathIno(after, q) != ino
    {
    }
    forall k | AtHandle(after, k) && k != h
      ensures AtHandle(fs, k) && HandleIno(after, k) == HandleIno(fs, k) && HandleIno(after, k) != ino
    {
    }
  }

  lemma DoKeepsNumbers(fs: Fs, op: Op)
    requires Tables(fs) && NumbersDistinct(fs) && CanDo(fs, op)
    ensures NumbersDistinct(Do(fs, op))
  {
    match op
    case Attach(p, h, a, f, ino) =>
      if p in fs.paths { ReopenKeepsNumbers(fs, p, h, a); } else { CreateKeepsNumbers(fs, p, h, a, f, ino); }
    case _ => NarrowerKeepsNumbers(fs, Do(fs, op));
  }

  // ---- What an effect may not touch for a bystander to stay consistent ----

  ghost predicate Spares(fs: Fs, op: Op, c: Config, loc: Local) {
    match op
    case Yield(h) =>
      Locks(loc.at) ==> h in fs.handles && loc.h in fs.handles && fs.handles[h].file != fs.handles[loc.h].file
    case Shut(hs) => (!loc.at.Idle? ==> loc.h !in hs) && (HasPidHandle(loc.at) ==> loc.g !in hs)
    case Leave(h) => (!loc.at.Idle? ==> loc.h != h) && (HasPidHandle(loc.at) ==> loc.g != h)
    case Write(h, _) =>
      (loc.at.PidFilled? || loc.at.Published?) && c.kind.Sidecar? && AtPath(fs, c.kind.pidPath) ==>
        h in fs.handles && fs.handles[h].file != fs.paths[c.kind.pidPath]
    case Unlink(p) => (Holds(loc.at) ==> p != c.path) && (UsesPid(loc.at) && c.kind.Sidecar? ==> p != c.kind.pidPath)
    case _ => true
  }

  lemma SparedLockOk(fs: Fs, op: Op, c: Config, loc: Local, b: Actor)
    requires Tables(fs) && CanDo(fs, op) && LockOk(c, fs, loc, b) && Spares(fs, op, c, loc)
    ensures LockOk(c, Do(fs, op), loc, b)
  {
  }

  lemma SparedPidOk(fs: Fs, op: Op, c: Config, loc: Local, b: Actor)
    requires Tables(fs) && CanDo(fs, op) && ActorOk(c, fs, loc, b) && Spares(fs, op, c, loc)
    ensures PidOk(c, Do(fs, op), loc, b)
  {
  }

  /** Two different holders never share a lock path. */
  lemma Exclusive(fs: Fs, c: Config, loc: Local, a: Actor, d: Config, lob: Local, b: Actor)
    requires LockOk(c, fs, loc, a) && LockOk(d, fs, lob, b) && a != b
    requires Holds(loc.at) && Holds(lob.at)
    ensures c.path != d.path
  {
  }

  lemma PidSharersShareLock(c: Config, d: Config)
    requires Compatible(c, d) && Compatible(d, c) && c.kind.Sidecar? && d.kind.Sidecar?
    requires c.kind.pidPath == d.kind.pidPath
    ensures c.path == d.path
  {
  }

  /** No step of `a` disturbs what another lock object relies on. */
  lemma OthersSpared(fs: Fs, c: Config, loc: Local, a: Actor, ev: Event, d: Config, lob: Local, b: Actor)
    requires Tables(fs) && ActorOk(c, fs, loc, a) && ActorOk(d, fs, lob, b) && a != b
    requires Compatible(c, d) && Compatible(d, c)
    requires CanAct(c, fs, loc, a, ev) && CanDo(fs, OpOf(c, loc, a, ev))
    ensures Spares(fs, OpOf(c, loc, a, ev), d, lob)
  {
    if Holds(loc.at) && Holds(lob.at) {
      Exclusive(fs, c, loc, a, d, lob, b);
      if c.kind.Sidecar? && d.kind.Sidecar? && c.kind.pidPath == d.kind.pidPath {
        PidSharersShareLock(c, d);
      }
    }
  }

  predicate Acquiring(ev: Event) {
    ev.Open? || ev.Flock? || ev.GiveUp? || ev.Store? || ev.Compare? || ev.Recheck?
  }

  predicate Publishing(ev: Event) {
    ev.OpenPid? || ev.EmptyPid? || ev.FillPid? || ev.ClosePid? || ev.FailOpenPid? || ev.FailPid? || ev.ShutPid?
  }

  lemma AcquiringKeepsLockOk(fs: Fs, c: Config, loc: Local, a: Actor, ev: Event)
    requires Tables(fs) && NumbersDistinct(fs) && ActorOk(c, fs, loc, a) && Compatible(c, c)
    requires CanAct(c, fs, loc, a, ev) && CanDo(fs, OpOf(c, loc, a, ev)) && Acquiring(ev)
    ensures LockOk(c, Do(fs, OpOf(c, loc, a, ev)), NextLocal(c, fs, loc, ev), a)
  {
    if ev.Compare? {
      CompareKeepsLockOk(fs, c, loc, a, ev);
    } else if ev.Open? {
      OpenKeepsLockOk(fs, c, loc, a, ev);
    } else {
      LockingKeepsLockOk(fs, c, loc, a, ev);
    }
  }

  /** Equal numbers mean that the locked file is the one at the path. */
  lemma CompareKeepsLockOk(fs: Fs, c: Config, loc: Local, a: Actor, ev: Event)
    requires NumbersDistinct(fs) && LockOk(c, fs, loc, a) && CanAct(c, fs, loc, a, ev) && ev.Compare?
    ensures LockOk(c, fs, NextLocal(c, fs, loc, ev), a)
  {
  }

  lemma OpenKeepsLockOk(fs: Fs, c: Config, loc: Local, a: Actor, ev: Event)
    requires Tables(fs) && ev.Open? && CanAct(c, fs, loc, a, ev) && CanDo(fs, OpOf(c, loc, a, ev))
    ensures LockOk(c, Do(fs, OpOf(c, loc, a, ev)), NextLocal(c, fs, loc, ev), a)
  {
  }

  lemma LockingKeepsLockOk(fs: Fs, c: Config, loc: Local, a: Actor, ev: Event)
    requires Tables(fs) && LockOk(c, fs, loc, a) && Acquiring(ev) && !ev.Open? && !ev.Compare?
    requires CanAct(c, fs, loc, a, ev) && CanDo(fs, OpOf(c, loc, a, ev))
    ensures LockOk(c, Do(fs, OpOf(c, loc, a, ev)), NextLocal(c, fs, loc, ev), a)
  {
  }

  lemma PublishingKeepsLockOk(fs: Fs, c: Config, loc: Local, a: Actor, ev: Event)
    requires Tables(fs) && NumbersDistinct(fs) && ActorOk(c, fs, loc, a) && Compatible(c, c)
    requires CanAct(c, fs, loc, a, ev) && CanDo(fs, OpOf(c, loc, a, ev)) && Publishing(ev)
    ensures LockOk(c, Do(fs, OpOf(c, loc, a, ev)), NextLocal(c, fs, loc, ev), a)
  {
    if ev.OpenPid? {
      OpenPidKeepsLockOk(fs, c, loc, a, ev);
    } else {
      PidWorkKeepsLockOk(fs, c, loc, a, ev);
    }
  }

  lemma OpenPidKeepsLockOk(fs: Fs, c: Config, loc: Local, a: Actor, ev: Event)
    requires Tables(fs) && LockOk(c, fs, loc, a) && Compatible(c, c)
    requires CanAct(c, fs, loc, a, ev) && CanDo(fs, OpOf(c, loc, a, ev)) && ev.OpenPid?
    ensures LockOk(c, Do(fs, OpOf(c, loc, a, ev)), NextLocal(c, fs, loc, ev), a)
  {
  }

  lemma PidWorkKeepsLockOk(fs: Fs, c: Config, loc: Local, a: Actor, ev: Event)
    requires Tables(fs) && ActorOk(c, fs, loc, a)
    requires CanAct(c, fs, loc, a, ev) && CanDo(fs, OpOf(c, loc, a, ev)) && Publishing(ev) && !ev.OpenPid?
    ensures LockOk(c, Do(fs, OpOf(c, loc, a, ev)), NextLocal(c, fs, loc, ev), a)
  {
  }

  lemma ReleasingKeepsLockOk(fs: Fs, c: Config, loc: Local, a: Actor, ev: Event)
    requires Tables(fs) && NumbersDistinct(fs) && ActorOk(c, fs, loc, a) && Compatible(c, c)
    requires CanAct(c, fs, loc, a, ev) && CanDo(fs, OpOf(c, loc, a, ev)) && !Acquiring(ev) && !Publishing(ev)
    ensures LockOk(c, Do(fs, OpOf(c, loc, a, ev)), NextLocal(c, fs, loc, ev), a)
  {
    if NextLocal(c, fs, loc, ev).at.Idle? {
      assert LockOk(c, Do(fs, OpOf(c, loc, a, ev)), NextLocal(c, fs, loc, ev), a);
    } else {
      UnlinkingKeepsLockOk(fs, c, loc, a, ev);
    }
  }

  lemma UnlinkingKeepsLockOk(fs: Fs, c: Config, loc: Local, a: Actor, ev: Event)
    requires Tables(fs) && ActorOk(c, fs, loc, a) && Compatible(c, c) && !NextLocal(c, fs, loc, ev).at.Idle?
    requires CanAct(c, fs, loc, a, ev) && CanDo(fs, OpOf(c, loc, a, ev)) && !Acquiring(ev) && !Publishing(ev)
    ensures LockOk(c, Do(fs, OpOf(c, loc, a, ev)), NextLocal(c, fs, loc, ev), a)
  {
  }

  lemma AcquiringKeepsPidOk(fs: Fs, c: Config, loc: Local, a: Actor, ev: Event)
    requires Tables(fs) && ActorOk(c, fs, loc, a) && Compatible(c, c)
    requires CanAct(c, fs, loc, a, ev) && CanDo(fs, OpOf(c, loc, a, ev)) && Acquiring(ev)
    ensures PidOk(c, Do(fs, OpOf(c, loc, a, ev)), NextLocal(c, fs, loc, ev), a)
  {
  }

  lemma PublishingKeepsPidOk(fs: Fs, c: Config, loc: Local, a: Actor, ev: Event)
    requires Tables(fs) && ActorOk(c, fs, loc, a) && Compatible(c, c)
    requires CanAct(c, fs, loc, a, ev) && CanDo(fs, OpOf(c, loc, a, ev)) && Publishing(ev)
    ensures PidOk(c, Do(fs, OpOf(c, loc, a, ev)), NextLocal(c, fs, loc, ev), a)
  {
  }

  lemma ReleasingKeepsPidOk(fs: Fs, c: Config, loc: Local, a: Actor, ev: Event)
    requires Tables(fs) && ActorOk(c, fs, loc, a) && Compatible(c, c)
    requires CanAct(c, fs, loc, a, ev) && CanDo(fs, OpOf(c, loc, a, ev)) && !Acquiring(ev) && !Publishing(ev)
    ensures PidOk(c, Do(fs, OpOf(c, loc, a, ev)), NextLocal(c, fs, loc, ev), a)
  {
  }

  lemma MoverOk(fs: Fs, c: Config, loc: Local, a: Actor, ev: Event)
    requires Tables(fs) && NumbersDistinct(fs) && ActorOk(c, fs, loc, a) && Compatible(c, c)
    requires CanAct(c, fs, loc, a, ev) && CanDo(fs, OpOf(c, loc, a, ev))
    ensures ActorOk(c, Do(fs, OpOf(c, loc, a, ev)), NextLocal(c, fs, loc, ev), a)
  {
    if Acquiring(ev) {
      AcquiringKeepsLockOk(fs, c, loc, a, ev);
      AcquiringKeepsPidOk(fs, c, loc, a, ev);
    } else if Publishing(ev) {
      PublishingKeepsLockOk(fs, c, loc, a, ev);
      PublishingKeepsPidOk(fs, c, loc, a, ev);
    } else {
      ReleasingKeepsLockOk(fs, c, loc, a, ev);
      ReleasingKeepsPidOk(fs, c, loc, a, ev);
    }
  }

  lemma BystanderOk(fs: Fs, c: Config, loc: Local, a: Actor, ev: Event, d: Config, lob: Local, b: Actor)
    requires Tables(fs) && ActorOk(c, fs, loc, a) && ActorOk(d, fs, lob, b) && a != b
    requires Compatible(c, d) && Compatible(d, c)
    requires CanAct(c, fs, loc, a, ev) && CanDo(fs, OpOf(c, loc, a, ev))
    ensures ActorOk(d, Do(fs, OpOf(c, loc, a, ev)), lob, b)
  {
    var op := OpOf(c, loc, a, ev);
    OthersSpared(fs, c, loc, a, ev, d, lob, b);
    SparedLockOk(fs, op, d, lob, b);
    SparedPidOk(fs, op, d, lob, b);
  }

  lemma DoKeepsPlain(cfg: Configs, fs: Fs, op: Op)
    requires Tables(fs) && CanDo(fs, op) && PlainStable(cfg, fs)
    requires op.Unlink? ==> !PlainPath(cfg, op.p)
    ensures PlainStable(cfg, Do(fs, op))
  {
  }

  /** The invariant is kept by every step of every actor and of the collector. */
  lemma StepKeepsInv(cfg: Configs, s: State, l: Label)
    requires WellConfigured(cfg) && Inv(cfg, s) && Enabled(cfg, s, l)
    ensures Inv(cfg, Apply(cfg, s, l))
  {
    var s' := Apply(cfg, s, l);
    match l
    case Act(a, ev) =>
      var op := OpOf(cfg[a], s.local[a], a, ev);
      DoKeepsTables(s.fs, op);
      DoKeepsNumbers(s.fs, op);
      UnlinksOnlyOwnPaths(cfg, s, a, ev);
      DoKeepsPlain(cfg, s.fs, op);
      forall b | b in cfg ensures ActorOk(cfg[b], s'.fs, s'.local[b], b) {
        if b == a {
          MoverOk(s.fs, cfg[a], s.local[a], a, ev);
        } else {
          BystanderOk(s.fs, cfg[a], s.local[a], a, ev, cfg[b], s.local[b], b);
        }
      }
    case Collect(h) =>
      CollectKeepsInv(cfg, s, h);
  }

  lemma UnlinksOnlyOwnPaths(cfg: Configs, s: State, a: Actor, ev: Event)
    requires a in cfg && a in s.local && ActorOk(cfg[a], s.fs, s.local[a], a)
    requires CanAct(cfg[a], s.fs, s.local[a], a, ev)
    ensures var op := OpOf(cfg[a], s.local[a], a, ev); op.Unlink? ==> !PlainPath(cfg, op.p)
  {
  }

  lemma CollectKeepsInv(cfg: Configs, s: State, h: Handle)
    requires Inv(cfg, s) && Enabled(cfg, s, Collect(h))
    ensures Inv(cfg, Apply(cfg, s, Collect(h)))
  {
    var op := Shut({h});
    DoKeepsTables(s.fs, op);
    DoKeepsNumbers(s.fs, op);
    DoKeepsPlain(cfg, s.fs, op);
    forall b | b in cfg ensures ActorOk(cfg[b], Do(s.fs, op), s.local[b], b) {
      SparedLockOk(s.fs, op, cfg[b], s.local[b], b);
      SparedPidOk(s.fs, op, cfg[b], s.local[b], b);
    }
  }
}
