/** What unlocking does to a lock taken before. */
module WindowsRoundTrips {
  import opened Basics
  import opened WindowsLocks
  import opened WindowsTheorems
  import opened WindowsReports

  /** What a system answers an unlock when nothing but the lock table decides. */
  function TrueAnswers(s: Sys, h: nat): Answers
    requires Prepared(s, h).Some?
  {
    var p := Prepared(s, h).value;
    Answers(if CanDrop(p, h, Offset(p, h), MSVCRT_LENGTH) then Granted else Refused(EACCES), true,
            if CanDrop(p, h, 0, WIN32_LENGTH) then Granted else Refused(ERROR_NOT_LOCKED))
  }

  predicate Owns(s: Sys, h: nat, shared: bool, lo: nat, len: nat) {
    h in s.files && Wanted(s, h, shared, lo, len) in s.holds
  }

  /** An exclusive lock of `h` that an unlock would name now. */
  predicate OwnsExclusive(s: Sys, h: nat) {
    h in s.files && (Owns(s, h, false, StartAt(s, h), MSVCRT_LENGTH) || Owns(s, h, false, 0, WIN32_LENGTH))
  }

  /** The lock an unlock drops, by either path. */
  function Dropped(s: Sys, h: nat): Hold
    requires h in s.files
  {
    if Owns(s, h, false, StartAt(s, h), MSVCRT_LENGTH) then Wanted(s, h, false, StartAt(s, h), MSVCRT_LENGTH)
    else Wanted(s, h, !Owns(s, h, false, 0, WIN32_LENGTH), 0, WIN32_LENGTH)
  }

  /** The msvcrt call answers by whether the handle's exclusive lock starts where it now asks. */
  lemma MsvcrtAnswers(s: Sys, h: nat)
    requires Inv(s) && Prepared(s, h).Some?
    ensures Offset(Prepared(s, h).value, h) == StartAt(s, h)
    ensures TrueAnswers(s, h).locking ==
            if Owns(s, h, false, StartAt(s, h), MSVCRT_LENGTH) then Granted else Refused(EACCES)
  {
    PreparedAtStartExactlyWhen(s, h);
    assert !HoldOk(s, Wanted(s, h, true, StartAt(s, h), MSVCRT_LENGTH));
  }

  /** What an unlock does to the lock table. */
  function HoldsAfter(s: Sys, h: nat, pywin32: bool, a: Answers): multiset<Hold>
    requires Prepared(s, h).Some?
  {
    if a.locking.Granted? then Drop(s, h, Offset(Prepared(s, h).value, h), MSVCRT_LENGTH).holds
    else if a.locking == Refused(EACCES) && pywin32 && a.translated && a.api.Granted? then
      Drop(s, h, 0, WIN32_LENGTH).holds
    else s.holds
  }

  lemma UnlockHolds(s: Sys, h: nat, pywin32: bool, a: Answers)
    requires Prepared(s, h).Some?
    ensures MsvcrtUnlock(s, h, pywin32, a).1.holds == HoldsAfter(s, h, pywin32, a)
  {
    if a.locking == Refused(EACCES) && pywin32 {
      FallbackHolds(s, h, a);
    } else {
      DirectHolds(s, h, pywin32, a);
    }
  }

  lemma DirectHolds(s: Sys, h: nat, pywin32: bool, a: Answers)
    requires Prepared(s, h).Some? && !(a.locking == Refused(EACCES) && pywin32)
    ensures MsvcrtUnlock(s, h, pywin32, a).1.holds == HoldsAfter(s, h, pywin32, a)
  {
    var p := Prepared(s, h).value;
    assert p.holds == s.holds && p.files[h].file == s.files[h].file;
  }

  lemma FallbackHolds(s: Sys, h: nat, a: Answers)
    requires Prepared(s, h).Some? && a.locking == Refused(EACCES)
    ensures MsvcrtUnlock(s, h, true, a).1.holds == HoldsAfter(s, h, true, a)
  {
    var t := Restored(Prepared(s, h).value, h, Tell(s.files[h]));
    RestoreGivesBackPosition(s, h);
    Win32UnlockHolds(t, h, a);
  }

  lemma Win32UnlockHolds(s: Sys, h: nat, a: Answers)
    requires Prepared(s, h).Some?
    ensures Win32Unlock(s, h, a).1.holds ==
            if a.translated && a.api.Granted? then Drop(s, h, 0, WIN32_LENGTH).holds else s.holds
  {
    var p := Prepared(s, h).value;
    assert p.holds == s.holds && p.files[h].file == s.files[h].file;
  }

  lemma UnlockDropsOne(s: Sys, h: nat, pywin32: bool)
    requires Inv(s) && Prepared(s, h).Some? && Dropped(s, h) in s.holds
    requires pywin32 || Owns(s, h, false, StartAt(s, h), MSVCRT_LENGTH)
    ensures var (r, t) := MsvcrtUnlock(s, h, pywin32, TrueAnswers(s, h));
            r == Unlocked && t.holds == s.holds - multiset{Dropped(s, h)} && SamePositions(s, t)
  {
    MsvcrtAnswers(s, h);
    Win32Answers(s, h);
    UnlockKeepsPositionsExactlyWhen(s, h, true, pywin32, TrueAnswers(s, h));
    UnlockHolds(s, h, pywin32, TrueAnswers(s, h));
    MsvcrtUnlockReports(s, h, pywin32, TrueAnswers(s, h));
  }

  lemma Win32Answers(s: Sys, h: nat)
    requires Prepared(s, h).Some?
    ensures TrueAnswers(s, h).translated
    ensures TrueAnswers(s, h).api ==
            if Owns(s, h, false, 0, WIN32_LENGTH) || Owns(s, h, true, 0, WIN32_LENGTH) then Granted
            else Refused(ERROR_NOT_LOCKED)
  {
    var p := Prepared(s, h).value;
    assert p.holds == s.holds && p.files[h].file == s.files[h].file;
  }

  /**
   An unlock right after a lock undoes it through either path, lock table and positions alike, unless a shared
   lock was taken on top of the handle's own exclusive one: then the exclusive one is what the unlock drops.
   */
  lemma RoundTripExactlyWhen(s: Sys, h: nat, flags: Flags, pywin32: bool, a: Answers)
    requires Inv(s) && LockAnswers(s, h, flags, true, a) && MsvcrtLock(s, h, flags, pywin32, a).0.Locked?
    ensures var t := MsvcrtLock(s, h, flags, pywin32, a).1;
            Prepared(t, h).Some? &&
            var (r, u) := MsvcrtUnlock(t, h, pywin32, TrueAnswers(t, h));
            r.Unlocked? && SamePositions(s, u) && (u.holds == s.holds <==> !(flags.shared && OwnsExclusive(s, h)))
  {
    var t := MsvcrtLock(s, h, flags, pywin32, a).1;
    LockCoversStartExactlyWhen(s, h, flags, true, pywin32, a);
    LockKeepsInv(s, h, flags, true, pywin32, a);
    LockKeepsPositionsExactlyWhen(s, h, flags, true, pywin32, a);
    LockKeepsStart(s, h, flags, pywin32, a);
    if !flags.shared {
      NotAlreadyOwned(s, h, FullRange(s, h, flags, true));
    }
    LastIsDropped(s, h, flags, t);
    UnlockDropsOne(t, h, pywin32);
  }

  lemma LockKeepsStart(s: Sys, h: nat, flags: Flags, pywin32: bool, a: Answers)
    requires AllPlaced(s) && MsvcrtLock(s, h, flags, pywin32, a).0.Locked?
    ensures var t := MsvcrtLock(s, h, flags, pywin32, a).1;
            h in s.files && h in t.files && Prepared(t, h).Some? && StartAt(t, h) == StartAt(s, h) &&
            t.files[h].file == s.files[h].file
  {
    LockEnds(s, h, flags, true, pywin32, a);
    RestoreKeepsStart(s, h);
    RestoreGivesBackPosition(s, h);
  }

  lemma NotAlreadyOwned(s: Sys, h: nat, range: Hold)
    requires Grantable(s, range) && !range.shared && range.len > 0
    ensures range !in s.holds
  {
    assert Clashes(range, range);
  }

  lemma LastIsDropped(s: Sys, h: nat, flags: Flags, t: Sys)
    requires h in s.files && t.holds == s.holds + multiset{FullRange(s, h, flags, true)}
    requires h in t.files && t.files[h].file == s.files[h].file && StartAt(t, h) == StartAt(s, h)
    requires !flags.shared ==> FullRange(s, h, flags, true) !in s.holds
    ensures Dropped(t, h) in t.holds && (!flags.shared ==> Owns(t, h, false, StartAt(t, h), MSVCRT_LENGTH))
    ensures t.holds - multiset{Dropped(t, h)} == s.holds <==> !(flags.shared && OwnsExclusive(s, h))
  {
    var wanted, u := FullRange(s, h, flags, true), t.holds - multiset{Dropped(t, h)};
    if flags.shared && OwnsExclusive(s, h) {
      assert u[wanted] == s.holds[wanted] + 1;
    } else {
      assert Dropped(t, h) == wanted;
      assert u == s.holds;
    }
  }

  /** A handle that holds a file exclusively locks it shared, and its unlock leaves the shared lock instead. */
  lemma WrongLockDropped() returns (s: Sys, a: Answers)
    ensures Inv(s) && OwnsExclusive(s, 1) && LockAnswers(s, 1, Flags(false, true, true), true, a)
    ensures var (r, t) := MsvcrtLock(s, 1, Flags(false, true, true), true, a);
            r.Locked? &&
            MsvcrtUnlock(t, 1, true, TrueAnswers(t, 1)).1.holds == multiset{Hold(7, 1, true, 0, WIN32_LENGTH)}
  {
    var flags := Flags(false, true, true);
    s := OneHolder(START);
    a := Answers(Raised, true, Granted);
    assert Grantable(s, FullRange(s, 1, flags, true));
    LockCoversStartExactlyWhen(s, 1, flags, true, true, a);
    var t := MsvcrtLock(s, 1, flags, true, a).1;
    LockKeepsInv(s, 1, flags, true, true, a);
    LockKeepsStart(s, 1, flags, true, a);
    assert Dropped(t, 1) == Hold(7, 1, false, 0, MSVCRT_LENGTH);
    UnlockDropsOne(t, 1, true);
  }

  /** A handle that locked at byte 0 and stands at `place` now. */
  lemma OneHolder(place: Place) returns (s: Sys)
    requires Placed(FileObj(7, true, Some(place)))
    ensures s.files == map[1 := FileObj(7, true, Some(place))] && Inv(s)
    ensures s.holds == multiset{Hold(7, 1, false, 0, MSVCRT_LENGTH)}
  {
    s := Sys(map[1 := FileObj(7, true, Some(place))], multiset{Hold(7, 1, false, 0, MSVCRT_LENGTH)});
  }

  /** Releasing what is not locked changes nothing, and is an error only without pywin32. */
  lemma SurplusUnlock(s: Sys, h: nat, pywin32: bool)
    requires Inv(s) && Prepared(s, h).Some? && forall k | k in s.holds :: k.handle != h
    ensures var (r, t) := MsvcrtUnlock(s, h, pywin32, TrueAnswers(s, h));
            r == (if pywin32 then Unlocked else LockFailed) && t.holds == s.holds && SamePositions(s, t)
  {
    MsvcrtAnswers(s, h);
    Win32Answers(s, h);
    UnlockKeepsPositionsExactlyWhen(s, h, true, pywin32, TrueAnswers(s, h));
    UnlockHolds(s, h, pywin32, TrueAnswers(s, h));
    MsvcrtUnlockReports(s, h, pywin32, TrueAnswers(s, h));
    MsvcrtFailure(s, h, pywin32, TrueAnswers(s, h));
  }

  lemma MsvcrtFailure(s: Sys, h: nat, pywin32: bool, a: Answers)
    requires Prepared(s, h).Some? && a.locking.Refused?
    ensures MsvcrtUnlock(s, h, pywin32, a).0 in {Unlocked, LockFailed}
  {
    RestoreGivesBackPosition(s, h);
  }

  /**
   A reported unlock has released an exclusive msvcrt lock exactly when msvcrt did not refuse it and the unlock
   starts where the lock did.
   */
  lemma ReleasedExactlyWhen(s: Sys, h: nat, lo: nat, pywin32: bool, a: Answers)
    requires Inv(s) && UnlockAnswers(s, h, a) && Owns(s, h, false, lo, MSVCRT_LENGTH)
    requires MsvcrtUnlock(s, h, pywin32, a).0.Unlocked?
    ensures !Owns(MsvcrtUnlock(s, h, pywin32, a).1, h, false, lo, MSVCRT_LENGTH) <==>
            a.locking.Granted? && StartAt(s, h) == lo
  {
    PreparedAtStartExactlyWhen(s, h);
    UnlockOnlyDrops(s, h, true, pywin32, a);
    UnlockHolds(s, h, pywin32, a);
    DropsExactly(s, h, lo, pywin32, a);
  }

  lemma DropsExactly(s: Sys, h: nat, lo: nat, pywin32: bool, a: Answers)
    requires Inv(s) && Prepared(s, h).Some? && Offset(Prepared(s, h).value, h) == StartAt(s, h)
    requires Owns(s, h, false, lo, MSVCRT_LENGTH)
    ensures Wanted(s, h, false, lo, MSVCRT_LENGTH) !in HoldsAfter(s, h, pywin32, a) <==>
            a.locking.Granted? && StartAt(s, h) == lo
  {
    var x := Wanted(s, h, false, lo, MSVCRT_LENGTH);
    assert PairOk(s, x, x);
  }

  /** Such an unlock: msvcrt answers EACCES for another reason, and the fallback finds its own range unlocked. */
  lemma LockOutlivesUnlock() returns (s: Sys, a: Answers)
    ensures Inv(s) && UnlockAnswers(s, 1, a) && Owns(s, 1, false, 0, MSVCRT_LENGTH)
    ensures MsvcrtUnlock(s, 1, true, a) == (Unlocked, s)
  {
    s := OneHolder(START);
    a := Answers(Refused(EACCES), true, Refused(ERROR_NOT_LOCKED));
  }

  /** 10 bytes read through a buffer of 4 KiB. */
  const READ_TEN := Place(10, 4096, 4096)

  /** Lock at byte 0, read 10 bytes, unlock: success is reported and the lock stays. */
  lemma LockOutlivesReading() returns (states: seq<Sys>, events: seq<Event>)
    ensures Run(states, events) && |states| == 3 && events == [ExclusiveLockBy(1), UseBy(1, READ_TEN)]
    ensures Owns(states[2], 1, false, 0, MSVCRT_LENGTH) && Prepared(states[2], 1).Some?
    ensures var (r, t) := MsvcrtUnlock(states[2], 1, true, TrueAnswers(states[2], 1));
            r == Unlocked && t.holds == states[2].holds && Owns(t, 1, false, 0, MSVCRT_LENGTH)
  {
    var begin := Sys(map[1 := FileObj(7, true, Some(START))], multiset{});
    var locked := OneHolder(START);
    var s := OneHolder(READ_TEN);
    states, events := [begin, locked, s], [ExclusiveLockBy(1), UseBy(1, READ_TEN)];
    LockInPlace(begin, 1, Hold(7, 1, false, 0, MSVCRT_LENGTH));
    assert locked == begin.(holds := begin.holds + multiset{Hold(7, 1, false, 0, MSVCRT_LENGTH)});
    assert s.files == locked.files[1 := locked.files[1].(place := Some(READ_TEN))];
    ReadingMovesStart(s);
  }

  lemma ReadingMovesStart(s: Sys)
    requires Inv(s) && s.files == map[1 := FileObj(7, true, Some(READ_TEN))]
    requires s.holds == multiset{Hold(7, 1, false, 0, MSVCRT_LENGTH)}
    ensures Prepared(s, 1).Some?
    ensures var (r, t) := MsvcrtUnlock(s, 1, true, TrueAnswers(s, 1));
            r == Unlocked && t.holds == s.holds && Owns(t, 1, false, 0, MSVCRT_LENGTH)
  {
    MsvcrtAnswers(s, 1);
    Win32Answers(s, 1);
    UnlockHolds(s, 1, true, TrueAnswers(s, 1));
    MsvcrtUnlockReports(s, 1, true, TrueAnswers(s, 1));
    UnlockOnlyDrops(s, 1, true, true, TrueAnswers(s, 1));
  }
}
