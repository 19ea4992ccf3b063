/** What the Windows lockers report, told by the system's answers and by the lock table. */
module WindowsReports {
  import opened Basics
  import opened WindowsLocks
  import opened WindowsTheorems

  /** The request got as far as the locking call. */
  predicate Reached(s: Sys, h: nat, flags: Flags, msvcrt: bool, pywin32: bool, a: Answers) {
    Prepared(s, h).Some? && (ByMsvcrt(flags, msvcrt) || a.translated) && (msvcrt && flags.shared ==> pywin32)
  }

  /** What the locking call answered. */
  function LockAnswer(flags: Flags, msvcrt: bool, a: Answers): Answer {
    if ByMsvcrt(flags, msvcrt) then a.locking else a.api
  }

  /**
   How a lock call ends, whichever way it ends: msvcrt reports contention for the error numbers 13, 16, 33 and 36,
   the Win32 API for the code 33 alone.
   */
  lemma LockReports(s: Sys, h: nat, flags: Flags, msvcrt: bool, pywin32: bool, a: Answers)
    ensures var r, answer := LockCall(s, h, flags, msvcrt, pywin32, a).0, LockAnswer(flags, msvcrt, a);
            var reached := Reached(s, h, flags, msvcrt, pywin32, a);
            (r.NeedsPywin32? <==> msvcrt && flags.shared && !pywin32) &&
            (r.Locked? <==> reached && answer.Granted?) &&
            (r.AlreadyLocked? <==>
              (reached && answer.Refused? &&
               if ByMsvcrt(flags, msvcrt)
               then answer.code == 13 || answer.code == 16 || answer.code == 33 || answer.code == 36
               else answer.code == 33)) &&
            (r.LockFailed? <==> reached && answer.Refused? && !r.AlreadyLocked?) &&
            (r.Escaped? <==> !r.NeedsPywin32? && (!reached || answer.Raised?))
  {
  }

  /** Unlocking through the Win32 API succeeds also where nothing was locked, which is the code 158. */
  lemma Win32UnlockReports(s: Sys, h: nat, a: Answers)
    ensures var r := Win32Unlock(s, h, a).0;
            (r.Unlocked? <==> Prepared(s, h).Some? && a.translated && (a.api.Granted? || a.api == Refused(158))) &&
            (r.Escaped? <==> Prepared(s, h).None? || !a.translated) &&
            (r.LockFailed? <==> !r.Unlocked? && !r.Escaped?)
  {
  }

  /** Unlocking through msvcrt falls back exactly on the error number 13, and reports every failure of both alike. */
  lemma MsvcrtUnlockReports(s: Sys, h: nat, pywin32: bool, a: Answers)
    ensures var r := MsvcrtUnlock(s, h, pywin32, a).0;
            (r.Unlocked? <==>
              Prepared(s, h).Some? &&
              (a.locking.Granted? ||
               (a.locking == Refused(13) && pywin32 && a.translated && (a.api.Granted? || a.api == Refused(158))))) &&
            (r.Escaped? <==> Prepared(s, h).None? || a.locking.Raised?) &&
            (r.LockFailed? <==> !r.Unlocked? && !r.Escaped?)
  {
    if Prepared(s, h).Some? {
      var t := Restored(Prepared(s, h).value, h, Tell(s.files[h]));
      Win32UnlockReports(t, h, a);
      assert Prepared(t, h).Some?;
    }
  }

  /**
   When the system meets no fault of its own, a request through either locker takes its range if no lock clashes
   with it, and otherwise ends as already locked and takes nothing. A clash is refused by msvcrt.locking with
   EACCES, or EDEADLOCK when it gave up waiting, and by LockFileEx with ERROR_LOCK_VIOLATION.
   */
  lemma ClashIsAlreadyLocked(s: Sys, h: nat, flags: Flags, msvcrt: bool, pywin32: bool, a: Answers)
    requires Prepared(s, h).Some? && Placed(s.files[h]) && (msvcrt && flags.shared ==> pywin32)
    requires NoFault(s, h, flags, msvcrt, a)
    ensures var (r, t) := LockCall(s, h, flags, msvcrt, pywin32, a);
            var wanted := FullRange(s, h, flags, msvcrt);
            if exists k | k in s.holds :: Clashes(wanted, k) then r == AlreadyLocked && t.holds == s.holds
            else r == Locked && t.holds == s.holds + multiset{wanted}
  {
    PreparingChangesNoClash(s, h, flags, msvcrt);
    var answer := LockAnswer(flags, msvcrt, a);
    assert answer.Granted? <==> Grantable(s, FullRange(s, h, flags, msvcrt));
    LockReports(s, h, flags, msvcrt, pywin32, a);
    LockCoversStartExactlyWhen(s, h, flags, msvcrt, pywin32, a);
  }

  /** Preparing the file keeps the requested range and what it clashes with. */
  lemma PreparingChangesNoClash(s: Sys, h: nat, flags: Flags, msvcrt: bool)
    requires Prepared(s, h).Some? && Placed(s.files[h])
    ensures var p, wanted := Prepared(s, h).value, FullRange(s, h, flags, msvcrt);
            Wanted(p, h, wanted.shared, if ByMsvcrt(flags, msvcrt) then Offset(p, h) else 0, wanted.len) == wanted &&
            (Grantable(p, wanted) <==> Grantable(s, wanted))
  {
    PreparedAtStartExactlyWhen(s, h);
  }

  /** Whole-file requests of two handles through either locker: at most one of them can be exclusive. */
  lemma SecondIsAlreadyLocked(s: Sys, h: nat, k: nat, flags: Flags, msvcrt: bool, pywin32: bool, a: Answers)
    requires Prepared(s, h).Some? && Placed(s.files[h]) && !ReadsAhead(s.files[h])
    requires (msvcrt && flags.shared ==> pywin32) && NoFault(s, h, flags, msvcrt, a)
    requires h != k && exists held | held in s.holds ::
               held.handle == k && held.file == s.files[h].file && held.lo == 0 && held.len > 0 &&
               (!held.shared || !FullRange(s, h, flags, msvcrt).shared)
    ensures LockCall(s, h, flags, msvcrt, pywin32, a).0 == AlreadyLocked
  {
    ClashIsAlreadyLocked(s, h, flags, msvcrt, pywin32, a);
    var held :| held in s.holds && held.handle == k && held.file == s.files[h].file && held.lo == 0 &&
      held.len > 0 && (!held.shared || !FullRange(s, h, flags, msvcrt).shared);
    assert Clashes(FullRange(s, h, flags, msvcrt), held);
  }
}
