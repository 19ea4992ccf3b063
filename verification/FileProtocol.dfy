/**
 The lock-file protocol as a state machine: any number of lock objects open, flock, compare,
 publish, unlink, unlock, close and crash in any interleaving over one file system.

 A lock object is an actor. Files have an identity (`FileId`, never reused) and an inode number,
 which a new file may take over as soon as no path and no open handle leads to its old carrier.
 */
module FileProtocol {
  import opened Basics
  import Decimal

  type Path = string
  type Actor = nat
  type Handle = nat
  type FileId = nat

  /** `Lock` and `RLock` are Plain; a `PidFileLock` locks its sidecar and publishes at `pidPath`. */
  datatype Kind = Plain | Temporary | Sidecar(pidPath: Path, pid: nat)

  datatype Config = Config(path: Path, kind: Kind)

  type Configs = map<Actor, Config>

  // ---- The file system ----

  datatype File = File(home: Path, ino: nat, content: string)

  /** An open file description; one that a failed close left behind has no user. */
  datatype Desc = Desc(file: FileId, user: Option<Actor>)

  datatype Fs = Fs(
    paths: map<Path, FileId>,
    files: map<FileId, File>,
    handles: map<Handle, Desc>,
    owner: map<FileId, Handle>)

  /** One operating-system effect. */
  datatype Op =
    | Nop
    | Attach(p: Path, h: Handle, a: Actor, f: FileId, ino: nat) // open with O_CREAT
    | Take(h: Handle)                                           // flock granted
    | Yield(h: Handle)                                          // flock dropped
    | Shut(hs: set<Handle>)                                     // close, dropping flocks
    | Leave(h: Handle)                                          // close failed
    | Write(h: Handle, content: string)
    | Unlink(p: Path)

  /** The path, handle and owner tables refer to each other consistently. */
  ghost predicate Tables(fs: Fs) {
    (forall p | p in fs.paths :: fs.paths[p] in fs.files && fs.files[fs.paths[p]].home == p) &&
    (forall h | h in fs.handles :: fs.handles[h].file in fs.files) &&
    (forall f | f in fs.owner :: fs.owner[f] in fs.handles && fs.handles[fs.owner[f]].file == f)
  }

  predicate AtPath(fs: Fs, p: Path) {
    p in fs.paths && fs.paths[p] in fs.files
  }

  predicate AtHandle(fs: Fs, h: Handle) {
    h in fs.handles && fs.handles[h].file in fs.files
  }

  function PathIno(fs: Fs, p: Path): nat
    requires AtPath(fs, p)
  {
    fs.files[fs.paths[p]].ino
  }

  function HandleIno(fs: Fs, h: Handle): nat
    requires AtHandle(fs, h)
  {
    fs.files[fs.handles[h].file].ino
  }

  /** Two files that a path or an open handle leads to never share an inode number. */
  ghost predicate NumbersDistinct(fs: Fs) {
    (forall p, q | AtPath(fs, p) && AtPath(fs, q) && PathIno(fs, p) == PathIno(fs, q) ::
       fs.paths[p] == fs.paths[q]) &&
    (forall p, h | AtPath(fs, p) && AtHandle(fs, h) && PathIno(fs, p) == HandleIno(fs, h) ::
       fs.paths[p] == fs.handles[h].file) &&
    (forall h, k | AtHandle(fs, h) && AtHandle(fs, k) && HandleIno(fs, h) == HandleIno(fs, k) ::
       fs.handles[h].file == fs.handles[k].file)
  }

  predicate UnusedIno(fs: Fs, ino: nat) {
    (forall p | p in fs.paths && AtPath(fs, p) :: PathIno(fs, p) != ino) &&
    (forall h | h in fs.handles && AtHandle(fs, h) :: HandleIno(fs, h) != ino)
  }

  predicate CanDo(fs: Fs, op: Op) {
    match op
    case Nop => true
    case Attach(p, h, _, f, ino) =>
      h !in fs.handles && (p !in fs.paths ==> f !in fs.files && UnusedIno(fs, ino))
    case Take(h) => h in fs.handles && fs.handles[h].file !in fs.owner
    case Yield(h) => h in fs.handles
    case Shut(_) => true
    case Leave(h) => h in fs.handles
    case Write(h, _) => AtHandle(fs, h)
    case Unlink(_) => true
  }

  function Do(fs: Fs, op: Op): Fs
    requires CanDo(fs, op)
  {
    match op
    case Nop => fs
    case Attach(p, h, a, f, ino) =>
      if p in fs.paths then fs.(handles := fs.handles[h := Desc(fs.paths[p], Some(a))])
      else Fs(fs.paths[p := f], fs.files[f := File(p, ino, "")],
              fs.handles[h := Desc(f, Some(a))], fs.owner)
    case Take(h) => fs.(owner := fs.owner[fs.handles[h].file := h])
    case Yield(h) => fs.(owner := fs.owner - {fs.handles[h].file})
    case Shut(hs) =>
      fs.(handles := fs.handles - hs,
          owner := map f | f in fs.owner && fs.owner[f] !in hs :: fs.owner[f])
    case Leave(h) => fs.(handles := fs.handles[h := fs.handles[h].(user := None)])
    case Write(h, content) =>
      var f := fs.handles[h].file;
      fs.(files := fs.files[f := fs.files[f].(content := content)])
    case Unlink(p) => fs.(paths := fs.paths - {p})
  }

  /** The number comparison of `_fh_matches_path`; a missing path compares unequal. */
  predicate NumbersMatch(fs: Fs, p: Path, h: Handle) {
    AtPath(fs, p) && AtHandle(fs, h) && PathIno(fs, p) == HandleIno(fs, h)
  }

  /** One-step `read_pid`: missing, empty and non-numeric files all give None. */
  function ReadPid(fs: Fs, p: Path): Option<int> {
    if AtPath(fs, p) then Decimal.ParseInt(fs.files[fs.paths[p]].content) else None
  }

  // ---- Lock objects ----

  datatype Stage =
    | Idle        // `fh` is None
    | Opened      // open, not locked
    | Locked      // flock granted
    | Stored      // prepared and stored in `self.fh`
    | Verified    // inode comparison succeeded
    | Rechecking  // a re-entered acquire is about to compare again
    | PidOpen     // PID file open
    | PidEmpty    // PID file truncated
    | PidFilled   // PID flushed
    | PidBroken   // a publication step failed, PID file still open
    | Published   // PID file closed, acquire returned
    | PidGone     // release: PID file unlinked
    | Unlocking   // release: about to unlock
    | Closing     // release: about to close

  /** Progress of one lock object, its lock handle and its PID-file handle. */
  datatype Local = Local(at: Stage, h: Handle, g: Handle)

  datatype State = State(fs: Fs, local: map<Actor, Local>)

  datatype Event =
    | Open(h: Handle, f: FileId, ino: nat) // `f` and `ino` are used when the path is missing
    | Flock
    | GiveUp(closed: bool)
    | Store
    | Compare
    | Recheck
    | Discard
    | OpenPid(g: Handle, f: FileId, ino: nat)
    | EmptyPid
    | FillPid
    | ClosePid
    | FailOpenPid
    | FailPid(left: string)
    | ShutPid
    | Drop
    | UnlinkPid(done: bool)
    | UnlinkLock(done: bool)
    | Unlock(done: bool)
    | Close(done: bool)
    | Crash(hs: set<Handle>)

  /** Who moved: an actor, or the collector that finally closes a left-behind handle. */
  datatype Label = Act(who: Actor, ev: Event) | Collect(left: Handle)

  predicate HasPidHandle(at: Stage) {
    at.PidOpen? || at.PidEmpty? || at.PidFilled? || at.PidBroken?
  }

  predicate UsesPid(at: Stage) {
    HasPidHandle(at) || at.Published? || at.PidGone?
  }

  /** From a successful comparison until the lock path is given up. */
  predicate Holds(at: Stage) {
    at.Verified? || at.Rechecking? || UsesPid(at)
  }

  /** The flock is taken in these stages. */
  predicate Locks(at: Stage) {
    at.Locked? || at.Stored? || Holds(at) || at.Unlocking?
  }

  /** May `a`, configured as `c` and standing at `loc`, perform `ev` in its code? */
  predicate CanAct(c: Config, fs: Fs, loc: Local, a: Actor, ev: Event) {
    var at := loc.at;
    match ev
    case Open(_, _, _) => at.Idle?
    case Flock => at.Opened?
    case GiveUp(_) => at.Opened? || at.Locked?
    case Store => at.Locked?
    case Compare => (at.Stored? && !c.kind.Plain?) || at.Rechecking?
    case Recheck => at.Verified? && c.kind.Temporary?
    case Discard => at.Stored? && c.kind.Plain?
    case OpenPid(_, _, _) => at.Verified? && c.kind.Sidecar?
    case EmptyPid => at.PidOpen?
    case FillPid => at.PidEmpty? && c.kind.Sidecar?
    case ClosePid => at.PidFilled?
    case FailOpenPid => at.Verified? && c.kind.Sidecar?
    case FailPid(_) => at.PidOpen? || at.PidEmpty? || at.PidFilled?
    case ShutPid => at.PidBroken?
    case Drop => at.Published?
    case UnlinkPid(_) => at.Published? && c.kind.Sidecar?
    case UnlinkLock(_) => (at.Verified? && c.kind.Temporary?) || at.PidGone?
    case Unlock(_) => at.Unlocking?
    case Close(_) => at.Closing?
    case Crash(hs) => hs == set h | h in fs.handles && fs.handles[h].user == Some(a)
  }

  /** The operating-system effect of a step. */
  function OpOf(c: Config, loc: Local, a: Actor, ev: Event): Op {
    match ev
    case Open(h, f, ino) => Attach(c.path, h, a, f, ino)
    case Flock => Take(loc.h)
    case GiveUp(closed) => if closed then Shut({loc.h}) else Leave(loc.h)
    // Only a TemporaryFileLock opens its lock file with mode 'w', which truncates here.
    case Store => if c.kind.Temporary? then Write(loc.h, "") else Nop
    case OpenPid(g, f, ino) => if c.kind.Sidecar? then Attach(c.kind.pidPath, g, a, f, ino) else Nop
    case EmptyPid => Write(loc.g, "")
    case FillPid => if c.kind.Sidecar? then Write(loc.g, Decimal.Digits(c.kind.pid)) else Nop
    case ClosePid => Shut({loc.g})
    case FailPid(left) => Write(loc.g, left)
    case ShutPid => Shut({loc.g})
    case UnlinkPid(done) => if done && c.kind.Sidecar? then Unlink(c.kind.pidPath) else Nop
    case UnlinkLock(done) => if done then Unlink(c.path) else Nop
    case Unlock(done) => if done then Yield(loc.h) else Nop
    case Close(done) => if done then Shut({loc.h}) else Leave(loc.h)
    case Crash(hs) => Shut(hs)
    case _ => Nop // Compare, Recheck, Discard, FailOpenPid and Drop only move the lock object
  }

  /** Where the lock object stands after a step. */
  function NextLocal(c: Config, fs: Fs, loc: Local, ev: Event): Local {
    match ev
    case Open(h, _, _) => Local(Opened, h, loc.g)
    case Flock => loc.(at := Locked)
    case GiveUp(_) => loc.(at := Idle)
    case Store => loc.(at := Stored)
    case Compare => loc.(at := if NumbersMatch(fs, c.path, loc.h) then Verified else Unlocking)
    case Recheck => loc.(at := Rechecking)
    case Discard => loc.(at := Unlocking)
    case OpenPid(g, _, _) => Local(PidOpen, loc.h, g)
    case EmptyPid => loc.(at := PidEmpty)
    case FillPid => loc.(at := PidFilled)
    case ClosePid => loc.(at := Published)
    case FailOpenPid => loc.(at := Unlocking)
    case FailPid(_) => loc.(at := PidBroken)
    case ShutPid => loc.(at := Unlocking)
    case Drop => loc.(at := Unlocking)
    case UnlinkPid(done) => loc.(at := if done then PidGone else Unlocking)
    case UnlinkLock(_) => loc.(at := Unlocking)
    case Unlock(_) => loc.(at := Closing)
    case Close(_) => loc.(at := Idle)
    case Crash(_) => loc.(at := Idle)
  }

  predicate Enabled(cfg: Configs, s: State, l: Label) {
    match l
    case Act(a, ev) =>
      a in cfg && a in s.local && CanAct(cfg[a], s.fs, s.local[a], a, ev) &&
      CanDo(s.fs, OpOf(cfg[a], s.local[a], a, ev))
    case Collect(h) => h in s.fs.handles && s.fs.handles[h].user == None
  }

  function Apply(cfg: Configs, s: State, l: Label): State
    requires Enabled(cfg, s, l)
  {
    match l
    case Act(a, ev) =>
      var c, loc := cfg[a], s.local[a];
      State(Do(s.fs, OpOf(c, loc, a, ev)), s.local[a := NextLocal(c, s.fs, loc, ev)])
    case Collect(h) => s.(fs := Do(s.fs, Shut({h})))
  }

  // ---- The invariant ----

  ghost predicate LockOk(c: Config, fs: Fs, loc: Local, a: Actor) {
    loc.at.Idle? ||
    (AtHandle(fs, loc.h) && fs.handles[loc.h].user == Some(a) &&
     fs.files[fs.handles[loc.h].file].home == c.path &&
     (Locks(loc.at) ==> fs.handles[loc.h].file in fs.owner && fs.owner[fs.handles[loc.h].file] == loc.h) &&
     (Holds(loc.at) ==>
        c.path in fs.paths && fs.paths[c.path] == fs.handles[loc.h].file && !c.kind.Plain?) &&
     (loc.at.Rechecking? ==> c.kind.Temporary?))
  }

  ghost predicate PidOk(c: Config, fs: Fs, loc: Local, a: Actor) {
    UsesPid(loc.at) ==>
      c.kind.Sidecar? &&
      (HasPidHandle(loc.at) ==>
         AtHandle(fs, loc.g) && loc.g != loc.h && fs.handles[loc.g].user == Some(a) &&
         c.kind.pidPath in fs.paths && fs.paths[c.kind.pidPath] == fs.handles[loc.g].file) &&
      (loc.at.PidFilled? || loc.at.Published? ==>
         AtPath(fs, c.kind.pidPath) &&
         fs.files[fs.paths[c.kind.pidPath]].content == Decimal.Digits(c.kind.pid))
  }

  ghost predicate ActorOk(c: Config, fs: Fs, loc: Local, a: Actor) {
    LockOk(c, fs, loc, a) && PidOk(c, fs, loc, a)
  }

  /** Nothing that unlinks works at `p`. */
  ghost predicate PlainPath(cfg: Configs, p: Path) {
    forall a | a in cfg && !cfg[a].kind.Plain? ::
      cfg[a].path != p && (cfg[a].kind.Sidecar? ==> cfg[a].kind.pidPath != p)
  }

  /** A file nobody unlinks stays at its path. */
  ghost predicate PlainStable(cfg: Configs, fs: Fs) {
    forall h | AtHandle(fs, h) && PlainPath(cfg, fs.files[fs.handles[h].file].home) ::
      var p := fs.files[fs.handles[h].file].home;
      p in fs.paths && fs.paths[p] == fs.handles[h].file
  }

  ghost predicate Inv(cfg: Configs, s: State) {
    Tables(s.fs) && NumbersDistinct(s.fs) && s.local.Keys == cfg.Keys &&
    (forall a | a in cfg :: ActorOk(cfg[a], s.fs, s.local[a], a)) &&
    PlainStable(cfg, s.fs)
  }

  /** Two lock objects may live together: PID paths are not lock paths, sidecars are `pidPath + ".lock"`. */
  ghost predicate Compatible(c: Config, d: Config) {
    c.kind.Sidecar? ==> c.path == c.kind.pidPath + ".lock" && c.kind.pidPath != d.path
  }

  ghost predicate WellConfigured(cfg: Configs) {
    forall a, b | a in cfg && b in cfg :: Compatible(cfg[a], cfg[b])
  }

  /** Any leftover files may exist, and nothing is open yet. */
  ghost predicate Init(cfg: Configs, s: State) {
    Tables(s.fs) && NumbersDistinct(s.fs) && s.fs.handles == map[] && s.fs.owner == map[] &&
    s.local.Keys == cfg.Keys && forall a | a in cfg :: s.local[a].at.Idle?
  }
}
