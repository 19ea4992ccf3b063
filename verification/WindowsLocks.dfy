/**
 The Windows lockers. `msvcrt.locking` locks from the descriptor's offset, so every call moves the file object
 to byte 0 first and restores its position afterwards. A seek that lands in a file object's read buffer moves
 the object and leaves the descriptor where it is.
 */
module WindowsLocks {
  import opened Basics

  /**
   Where a file stands: the position a file object reports, the offset of the descriptor under it, and how many
   bytes directly below that offset the object has buffered. Unwritten output makes `pos` larger than `raw`.
   */
  datatype Place = Place(pos: nat, raw: nat, buf: nat)

  /** An open file object (`io`) or raw descriptor. Pipes and sockets have no place. */
  datatype FileObj = FileObj(file: nat, io: bool, place: Option<Place>)

  /** A range lock, owned by the handle that took it. */
  datatype Hold = Hold(file: nat, handle: nat, shared: bool, lo: nat, len: nat)

  datatype Sys = Sys(files: map<nat, FileObj>, holds: multiset<Hold>)

  datatype Flags = Flags(exclusive: bool, shared: bool, nonBlocking: bool)

  /** How a call ends; `Escaped` is any exception the lockers do not translate. */
  datatype Outcome = Locked | Unlocked | AlreadyLocked | LockFailed | NeedsPywin32 | Escaped

  /** What the system says to one call: an error carries its code, `Raised` is an exception of another kind. */
  datatype Answer = Granted | Refused(code: nat) | Raised

  /** The answers met along the way: of msvcrt.locking, get_osfhandle, and LockFileEx or UnlockFileEx. */
  datatype Answers = Answers(locking: Answer, translated: bool, api: Answer)

  const EACCES := 13
  const EDEADLOCK := 36
  const ERROR_LOCK_VIOLATION := 33
  const ERROR_NOT_LOCKED := 158

  const MSVCRT_LENGTH: nat := 0x10000

  /** The locker passes -0x10000, which the 32-bit unsigned parameter reads as this. */
  const WIN32_LENGTH: nat := 0xFFFF_0000

  predicate Contention(code: nat) { code in {13, 16, 33, 36} }

  // ---- The system ----

  /** The buffer ends at the descriptor's offset and holds the position of a file that reads ahead. */
  predicate Placed(f: FileObj) {
    f.io && f.place.Some? ==>
      var Place(pos, raw, buf) := f.place.value;
      buf <= raw && (pos < raw ==> raw - buf <= pos)
  }

  /** `tell`, or `os.lseek(fd, 0, os.SEEK_CUR)` on a raw descriptor. */
  function Tell(f: FileObj): Option<nat> {
    if f.place.None? then None else if f.io then Some(f.place.value.pos) else Some(f.place.value.raw)
  }

  /** `seek` within what a file object has read ahead moves only the object; any other drops the buffer. */
  function SeekTo(f: FileObj, to: nat): FileObj
    requires f.place.Some?
  {
    var Place(pos, raw, buf) := f.place.value;
    if !f.io then f.(place := Some(Place(pos, to, buf)))
    else if pos < raw && raw - buf <= to <= raw then f.(place := Some(Place(to, raw, buf)))
    else f.(place := Some(Place(to, to, 0)))
  }

  /** Where msvcrt.locking starts: at the descriptor's offset. LockFileEx starts where its OVERLAPPED says, at 0. */
  function Offset(s: Sys, h: nat): nat {
    if h in s.files && s.files[h].place.Some? then s.files[h].place.value.raw else 0
  }

  predicate Overlaps(a: Hold, b: Hold) {
    a.file == b.file && a.lo < b.lo + b.len && b.lo < a.lo + a.len
  }

  /** Shared locks tolerate each other, and the exclusive lock of their own handle. */
  predicate Clashes(wanted: Hold, held: Hold) {
    Overlaps(wanted, held) && !(wanted.shared && (held.shared || held.handle == wanted.handle))
  }

  predicate Grantable(s: Sys, wanted: Hold) {
    forall k | k in s.holds :: !Clashes(wanted, k)
  }

  /** A lock of `len` bytes from `lo` on that `h` asks for. */
  function Wanted(s: Sys, h: nat, shared: bool, lo: nat, len: nat): Hold
    requires h in s.files
  {
    Hold(s.files[h].file, h, shared, lo, len)
  }

  function Take(s: Sys, h: nat, shared: bool, lo: nat, len: nat): Sys
    requires h in s.files
  {
    s.(holds := s.holds + multiset{Wanted(s, h, shared, lo, len)})
  }

  /** An unlock must name a locked range exactly; the exclusive lock goes before the shared one. */
  predicate CanDrop(s: Sys, h: nat, lo: nat, len: nat)
    requires h in s.files
  {
    Wanted(s, h, false, lo, len) in s.holds || Wanted(s, h, true, lo, len) in s.holds
  }

  function Drop(s: Sys, h: nat, lo: nat, len: nat): Sys
    requires h in s.files
  {
    s.(holds := s.holds - multiset{Wanted(s, h, Wanted(s, h, false, lo, len) !in s.holds, lo, len)})
  }

  function MoveTo(s: Sys, h: nat, pos: nat): Sys
    requires h in s.files && s.files[h].place.Some?
  {
    s.(files := s.files[h := SeekTo(s.files[h], pos)])
  }

  // ---- The lockers as functions ----

  /** `_prepare_windows_file`; None when asking for the descriptor or the position raises. */
  function Prepared(s: Sys, h: nat): Option<Sys> {
    if h !in s.files || (s.files[h].io && s.files[h].place.None?) then None
    else if Tell(s.files[h]) == None || Tell(s.files[h]) == Some(0) then Some(s)
    else Some(MoveTo(s, h, 0))
  }

  /** `_restore_windows_file_pos` */
  function Restored(s: Sys, h: nat, original: Option<nat>): Sys
    requires h in s.files && (original.Some? ==> s.files[h].place.Some?)
  {
    if original.None? || original.value == 0 then s else MoveTo(s, h, original.value)
  }

  function Win32Lock(s: Sys, h: nat, flags: Flags, a: Answers): (Outcome, Sys) {
    var p := Prepared(s, h);
    if p.None? then (Escaped, s)
    else if !a.translated then (Escaped, p.value)
    else
      var original := Tell(s.files[h]);
      match a.api
      case Granted => (Locked, Restored(Take(p.value, h, !flags.exclusive, 0, WIN32_LENGTH), h, original))
      case Refused(code) =>
        (if code == ERROR_LOCK_VIOLATION then AlreadyLocked else LockFailed, Restored(p.value, h, original))
      case Raised => (Escaped, Restored(p.value, h, original))
  }

  function Win32Unlock(s: Sys, h: nat, a: Answers): (Outcome, Sys) {
    var p := Prepared(s, h);
    if p.None? then (Escaped, s)
    else if !a.translated then (Escaped, p.value)
    else
      var original := Tell(s.files[h]);
      match a.api
      case Granted => (Unlocked, Restored(Drop(p.value, h, 0, WIN32_LENGTH), h, original))
      case Refused(code) =>
        (if code == ERROR_NOT_LOCKED then Unlocked else LockFailed, Restored(p.value, h, original))
      case Raised => (LockFailed, Restored(p.value, h, original))
  }

  function MsvcrtLock(s: Sys, h: nat, flags: Flags, pywin32: bool, a: Answers): (Outcome, Sys) {
    var p := Prepared(s, h);
    if flags.shared then
      if !pywin32 then (NeedsPywin32, s) else Win32Lock(s, h, Flags(false, false, flags.nonBlocking), a)
    else if p.None? then (Escaped, s)
    else
      var original := Tell(s.files[h]);
      match a.locking
      case Granted => (Locked, Restored(Take(p.value, h, false, Offset(p.value, h), MSVCRT_LENGTH), h, original))
      case Refused(code) => (if Contention(code) then AlreadyLocked else LockFailed, Restored(p.value, h, original))
      case Raised => (Escaped, Restored(p.value, h, original))
  }

  function MsvcrtUnlock(s: Sys, h: nat, pywin32: bool, a: Answers): (Outcome, Sys) {
    var p := Prepared(s, h);
    if p.None? then (Escaped, s)
    else
      var original := Tell(s.files[h]);
      match a.locking
      case Granted => (Unlocked, Restored(Drop(p.value, h, Offset(p.value, h), MSVCRT_LENGTH), h, original))
      case Raised => (Escaped, Restored(p.value, h, original))
      case Refused(code) =>
        if code != EACCES || !pywin32 then (LockFailed, Restored(p.value, h, original))
        else
          var fallback := Win32Unlock(Restored(p.value, h, original), h, a);
          (if fallback.0.Unlocked? then Unlocked else LockFailed, fallback.1)
  }

  // ---- Which answers the system may give ----

  ghost predicate MayLock(s: Sys, h: nat, shared: bool, lo: nat, len: nat, a: Answer) {
    a.Granted? ==> h in s.files && Grantable(s, Wanted(s, h, shared, lo, len))
  }

  /** The answer by the lock table alone: `clash` is the code of a request that clashes. */
  function TableAnswer(s: Sys, wanted: Hold, clash: nat): Answer {
    if Grantable(s, wanted) then Granted else Refused(clash)
  }

  /** msvcrt.locking: one try without blocking, and tries until it gives up otherwise. */
  function MsvcrtClash(flags: Flags): nat {
    if flags.nonBlocking then EACCES else EDEADLOCK
  }

  /** The system meets no failure of its own: handles translate, and the lock table decides. */
  ghost predicate NoFault(s: Sys, h: nat, flags: Flags, msvcrt: bool, a: Answers) {
    var p := Prepared(s, h);
    p.Some? ==>
      if msvcrt && !flags.shared then
        a.locking == TableAnswer(p.value, Wanted(p.value, h, false, Offset(p.value, h), MSVCRT_LENGTH),
                                 MsvcrtClash(flags))
      else
        a.translated &&
        a.api == TableAnswer(p.value, Wanted(p.value, h, msvcrt || !flags.exclusive, 0, WIN32_LENGTH),
                             ERROR_LOCK_VIOLATION)
  }

  ghost predicate MayUnlock(s: Sys, h: nat, lo: nat, len: nat, a: Answer) {
    a.Granted? ==> h in s.files && CanDrop(s, h, lo, len)
  }

  /** The system grants a lock only if it clashes with none, and unlocks only what is locked. */
  ghost predicate LockAnswers(s: Sys, h: nat, flags: Flags, msvcrt: bool, a: Answers) {
    var p := Prepared(s, h);
    p.Some? ==>
      if msvcrt && !flags.shared then MayLock(p.value, h, false, Offset(p.value, h), MSVCRT_LENGTH, a.locking)
      else MayLock(p.value, h, msvcrt || !flags.exclusive, 0, WIN32_LENGTH, a.api)
  }

  ghost predicate UnlockAnswers(s: Sys, h: nat, a: Answers) {
    var p := Prepared(s, h);
    p.Some? ==>
      MayUnlock(p.value, h, Offset(p.value, h), MSVCRT_LENGTH, a.locking) &&
      MayUnlock(p.value, h, 0, WIN32_LENGTH, a.api)
  }

  // ---- The lockers as the code runs them ----

  class Windows {
    var files: map<nat, FileObj>
    var holds: multiset<Hold>

    constructor (files: map<nat, FileObj>)
      ensures State() == Sys(files, multiset{})
    {
      this.files, holds := files, multiset{};
    }

    function State(): Sys
      reads this
    {
      Sys(files, holds)
    }

    method Seek(h: nat, pos: nat)
      requires h in files && files[h].place.Some?
      modifies this`files
      ensures State() == MoveTo(old(State()), h, pos)
    {
      files := files[h := SeekTo(files[h], pos)];
    }

    /**
     msvcrt.locking and LockFileEx: a request that clashes is refused with the code `clash`, and any request may
     meet a fault of the system's own.
     */
    method LockRange(h: nat, shared: bool, lo: nat, len: nat, clash: nat) returns (a: Answer, ghost fault: bool)
      requires h in files
      modifies this`holds
      ensures MayLock(old(State()), h, shared, lo, len, a)
      ensures !fault ==> a == TableAnswer(old(State()), Wanted(old(State()), h, shared, lo, len), clash)
      ensures State() == if a.Granted? then Take(old(State()), h, shared, lo, len) else old(State())
    {
      a, fault := *, true;
      if a.Granted? {
        fault := false;
        if Grantable(State(), Wanted(State(), h, shared, lo, len)) {
          holds := holds + multiset{Wanted(State(), h, shared, lo, len)};
        } else {
          a := Refused(clash);
        }
      }
    }

    method UnlockRange(h: nat, lo: nat, len: nat) returns (a: Answer)
      requires h in files
      modifies this`holds
      ensures MayUnlock(old(State()), h, lo, len, a)
      ensures State() == if a.Granted? then Drop(old(State()), h, lo, len) else old(State())
    {
      a := *;
      if a.Granted? {
        if CanDrop(State(), h, lo, len) {
          holds := holds - multiset{Wanted(State(), h, Wanted(State(), h, false, lo, len) !in holds, lo, len)};
        } else {
          a := Refused(ERROR_NOT_LOCKED);
        }
      }
    }

    /** `_prepare_windows_file`: the original position, or None when it raises. */
    method Prepare(h: nat) returns (original: Option<Option<nat>>)
      modifies this`files
      ensures original.Some? <==> Prepared(old(State()), h).Some?
      ensures original.Some? ==> h in old(files) && original.value == old(Tell(files[h]))
      ensures State() == if original.Some? then Prepared(old(State()), h).value else old(State())
    {
      if h !in files {
        return None;
      }
      var f := files[h];
      if f.io {
        if f.place.None? {
          return None;
        }
        if f.place.value.pos != 0 {
          Seek(h, 0);
        }
      } else if f.place.Some? && f.place.value.raw != 0 {
        Seek(h, 0);
      }
      original := Some(Tell(f));
    }

    /** `_restore_windows_file_pos` */
    method Restore(h: nat, original: Option<nat>)
      requires h in files && (original.Some? ==> files[h].place.Some?)
      modifies this`files
      ensures State() == Restored(old(State()), h, original)
    {
      if original.None? || original.value == 0 {
        return;
      }
      Seek(h, original.value);
    }
  }

  class Win32Locker {
    const sys: Windows

    constructor (sys: Windows)
      ensures this.sys == sys
    {
      this.sys := sys;
    }

    method Lock(h: nat, flags: Flags) returns (r: Outcome, ghost a: Answers, ghost fault: bool)
      modifies sys
      ensures (r, sys.State()) == Win32Lock(old(sys.State()), h, flags, a)
      ensures LockAnswers(old(sys.State()), h, flags, false, a)
      ensures !fault ==> NoFault(old(sys.State()), h, flags, false, a)
    {
      a, fault := Answers(Raised, true, Raised), false;
      var original := sys.Prepare(h);
      if original.None? {
        return Escaped, a, fault;
      }
      var translated: bool := *;
      if !translated {
        return Escaped, Answers(Raised, false, Raised), true;
      }
      var answer;
      answer, fault := sys.LockRange(h, !flags.exclusive, 0, WIN32_LENGTH, ERROR_LOCK_VIOLATION);
      a := Answers(Raised, true, answer);
      match answer {
        case Granted => r := Locked;
        case Refused(code) => r := if code == ERROR_LOCK_VIOLATION then AlreadyLocked else LockFailed;
        case Raised => r := Escaped;
      }
      sys.Restore(h, original.value);
    }

    method Unlock(h: nat) returns (r: Outcome, ghost a: Answers)
      modifies sys
      ensures (r, sys.State()) == Win32Unlock(old(sys.State()), h, a)
      ensures UnlockAnswers(old(sys.State()), h, a) && a.locking.Raised?
    {
      a := Answers(Raised, true, Raised);
      var original := sys.Prepare(h);
      if original.None? {
        return Escaped, a;
      }
      var translated: bool := *;
      if !translated {
        return Escaped, Answers(Raised, false, Raised);
      }
      var answer := sys.UnlockRange(h, 0, WIN32_LENGTH);
      a := Answers(Raised, true, answer);
      match answer {
        case Granted => r := Unlocked;
        case Refused(code) => r := if code == ERROR_NOT_LOCKED then Unlocked else LockFailed;
        case Raised => r := LockFailed;
      }
      sys.Restore(h, original.value);
    }
  }

  class MsvcrtLocker {
    const sys: Windows
    const win32: Win32Locker?

    /** Without pywin32 the fallback cannot be built; that is reported only when it is needed. */
    constructor (sys: Windows, pywin32: bool)
      ensures this.sys == sys && (win32 != null <==> pywin32) && (win32 != null ==> win32.sys == sys)
    {
      this.sys := sys;
      if pywin32 {
        var w := new Win32Locker(sys);
        win32 := w;
      } else {
        win32 := null;
      }
    }

    method Lock(h: nat, flags: Flags) returns (r: Outcome, ghost a: Answers, ghost fault: bool)
      requires win32 != null ==> win32.sys == sys
      modifies sys
      ensures (r, sys.State()) == MsvcrtLock(old(sys.State()), h, flags, win32 != null, a)
      ensures LockAnswers(old(sys.State()), h, flags, true, a)
      ensures !fault && (flags.shared ==> win32 != null) ==> NoFault(old(sys.State()), h, flags, true, a)
    {
      a, fault := Answers(Raised, true, Raised), false;
      if flags.shared {
        if win32 == null {
          return NeedsPywin32, a, fault;
        }
        r, a, fault := win32.Lock(h, Flags(false, false, flags.nonBlocking));
        return;
      }
      var original := sys.Prepare(h);
      if original.None? {
        return Escaped, a, fault;
      }
      var answer;
      answer, fault := sys.LockRange(h, false, Offset(sys.State(), h), MSVCRT_LENGTH, MsvcrtClash(flags));
      a := Answers(answer, true, Raised);
      match answer {
        case Granted => r := Locked;
        case Refused(code) => r := if Contention(code) then AlreadyLocked else LockFailed;
        case Raised => r := Escaped;
      }
      sys.Restore(h, original.value);
    }

    /** Unlocking through the Win32 API, which prepares the file once more. */
    method UnlockByFallback(h: nat, original: Option<nat>, ghost before: Sys) returns (r: Outcome, ghost a: Answers)
      requires win32 != null && win32.sys == sys && Prepared(before, h).Some?
      requires sys.State() == Prepared(before, h).value && original == Tell(before.files[h])
      modifies sys
      ensures var w := Win32Unlock(Restored(Prepared(before, h).value, h, original), h, a);
              r == (if w.0.Unlocked? then Unlocked else LockFailed) && sys.State() == w.1
      ensures MayUnlock(Prepared(before, h).value, h, 0, WIN32_LENGTH, a.api)
    {
      sys.Restore(h, original);
      RestoreGivesBackPosition(before, h);
      r, a := win32.Unlock(h);
      r := if r.Unlocked? then Unlocked else LockFailed;
    }

    method Unlock(h: nat) returns (r: Outcome, ghost a: Answers)
      requires win32 != null ==> win32.sys == sys
      modifies sys
      ensures (r, sys.State()) == MsvcrtUnlock(old(sys.State()), h, win32 != null, a)
      ensures UnlockAnswers(old(sys.State()), h, a)
    {
      a := Answers(Raised, true, Raised);
      var original := sys.Prepare(h);
      if original.None? {
        return Escaped, a;
      }
      var answer := sys.UnlockRange(h, Offset(sys.State(), h), MSVCRT_LENGTH);
      a := Answers(answer, true, Raised);
      if answer == Refused(EACCES) && win32 != null {
        r, a := UnlockByFallback(h, original.value, old(sys.State()));
        a := a.(locking := answer);
        return;
      }
      match answer {
        case Granted => r := Unlocked;
        case Refused(code) => r := LockFailed;
        case Raised => r := Escaped;
      }
      sys.Restore(h, original.value);
    }
  }

  /** The same files are open at the same reported positions. */
  ghost predicate SamePositions(s: Sys, t: Sys) {
    t.files.Keys == s.files.Keys &&
    forall h | h in s.files :: t.files[h].file == s.files[h].file && t.files[h].io == s.files[h].io &&
                               Tell(t.files[h]) == Tell(s.files[h])
  }

  lemma RestoreGivesBackPosition(s: Sys, h: nat)
    requires Prepared(s, h).Some?
    ensures var t := Restored(Prepared(s, h).value, h, Tell(s.files[h])); SamePositions(s, t) && t.holds == s.holds
  {
  }
}
