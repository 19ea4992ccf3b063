/** What the Windows lockers guarantee, per call and over every run. */
module WindowsTheorems {
  import opened Basics
  import opened WindowsLocks

  // ---- Where a lock starts ----

  /** The read buffer reaches from byte 0 to beyond the reported position. */
  predicate ReadsAhead(f: FileObj) {
    f.io && f.place.Some? && f.place.value.pos < f.place.value.raw && f.place.value.buf == f.place.value.raw
  }

  /** Where msvcrt.locking starts once the file is prepared. */
  function StartAt(s: Sys, h: nat): nat
    requires h in s.files
  {
    if ReadsAhead(s.files[h]) then s.files[h].place.value.raw else 0
  }

  /** Preparing brings the descriptor to byte 0 exactly when no read buffer from byte 0 keeps it elsewhere. */
  lemma PreparedAtStartExactlyWhen(s: Sys, h: nat)
    requires Prepared(s, h).Some? && Placed(s.files[h])
    ensures Offset(Prepared(s, h).value, h) == StartAt(s, h)
    ensures Offset(Prepared(s, h).value, h) == 0 <==> !ReadsAhead(s.files[h])
  {
  }

  lemma RestoreKeepsStart(s: Sys, h: nat)
    requires Prepared(s, h).Some? && Placed(s.files[h])
    ensures var t := Restored(Prepared(s, h).value, h, Tell(s.files[h]));
            Placed(t.files[h]) && StartAt(t, h) == StartAt(s, h)
  {
  }

  // ---- Single calls ----

  function LockCall(s: Sys, h: nat, flags: Flags, msvcrt: bool, pywin32: bool, a: Answers): (Outcome, Sys) {
    if msvcrt then MsvcrtLock(s, h, flags, pywin32, a) else Win32Lock(s, h, flags, a)
  }

  function UnlockCall(s: Sys, h: nat, msvcrt: bool, pywin32: bool, a: Answers): (Outcome, Sys) {
    if msvcrt then MsvcrtUnlock(s, h, pywin32, a) else Win32Unlock(s, h, a)
  }

  predicate ByMsvcrt(flags: Flags, msvcrt: bool) { msvcrt && !flags.shared }

  /** The range a request locks. */
  function FullRange(s: Sys, h: nat, flags: Flags, msvcrt: bool): Hold
    requires h in s.files
  {
    if ByMsvcrt(flags, msvcrt) then Wanted(s, h, false, StartAt(s, h), MSVCRT_LENGTH)
    else Wanted(s, h, msvcrt || !flags.exclusive, 0, WIN32_LENGTH)
  }

  /**
   A lock call that succeeds takes one range, which clashed with no other lock and starts at byte 0 exactly when
   it was not msvcrt locking a file that reads ahead from byte 0. Any other outcome locks nothing.
   */
  lemma LockCoversStartExactlyWhen(s: Sys, h: nat, flags: Flags, msvcrt: bool, pywin32: bool, a: Answers)
    requires LockAnswers(s, h, flags, msvcrt, a) && (h in s.files ==> Placed(s.files[h]))
    ensures var (r, t) := LockCall(s, h, flags, msvcrt, pywin32, a);
            if r.Locked? then
              h in s.files && Grantable(s, FullRange(s, h, flags, msvcrt)) &&
              t.holds == s.holds + multiset{FullRange(s, h, flags, msvcrt)} &&
              (FullRange(s, h, flags, msvcrt).lo == 0 <==> !(ByMsvcrt(flags, msvcrt) && ReadsAhead(s.files[h])))
            else t.holds == s.holds
  {
    if Prepared(s, h).Some? {
      PreparedAtStartExactlyWhen(s, h);
      var p := Prepared(s, h).value;
      var range := FullRange(s, h, flags, msvcrt);
      assert Wanted(p, h, range.shared, range.lo, range.len) == range;
      assert Grantable(p, range) <==> Grantable(s, range);
    }
  }

  /** The call asked for the OS handle, after moving to byte 0, and was refused. */
  predicate TranslationFailed(s: Sys, h: nat, asked: bool, a: Answers) {
    asked && Prepared(s, h).Some? && !a.translated
  }

  predicate AwayFromStart(s: Sys, h: nat) {
    h in s.files && Tell(s.files[h]).Some? && Tell(s.files[h]) != Some(0)
  }

  lemma MovedExactlyWhen(s: Sys, h: nat)
    requires Prepared(s, h).Some?
    ensures SamePositions(s, Prepared(s, h).value) <==> !AwayFromStart(s, h)
  {
    if AwayFromStart(s, h) {
      assert Tell(Prepared(s, h).value.files[h]) == Some(0);
    }
  }

  /**
   A lock call keeps every reported position, however it ends, unless translating the descriptor fails after
   the file was moved away from a position other than 0.
   */
  lemma LockKeepsPositionsExactlyWhen(s: Sys, h: nat, flags: Flags, msvcrt: bool, pywin32: bool, a: Answers)
    ensures SamePositions(s, LockCall(s, h, flags, msvcrt, pywin32, a).1) <==>
            !(TranslationFailed(s, h, !msvcrt || (flags.shared && pywin32), a) && AwayFromStart(s, h))
  {
    if Prepared(s, h).Some? {
      LockEnds(s, h, flags, msvcrt, pywin32, a);
      MovedExactlyWhen(s, h);
      RestoreGivesBackPosition(s, h);
    }
  }

  /** The files after a call: untouched, prepared, or prepared and restored. */
  lemma LockEnds(s: Sys, h: nat, flags: Flags, msvcrt: bool, pywin32: bool, a: Answers)
    requires Prepared(s, h).Some?
    ensures var p, t := Prepared(s, h).value, LockCall(s, h, flags, msvcrt, pywin32, a).1;
            t.files == if msvcrt && flags.shared && !pywin32 then s.files
                       else if TranslationFailed(s, h, !msvcrt || flags.shared, a) then p.files
                       else Restored(p, h, Tell(s.files[h])).files
  {
  }

  lemma UnlockKeepsPositionsExactlyWhen(s: Sys, h: nat, msvcrt: bool, pywin32: bool, a: Answers)
    ensures SamePositions(s, UnlockCall(s, h, msvcrt, pywin32, a).1) <==>
            !(TranslationFailed(s, h, !msvcrt || (pywin32 && a.locking == Refused(EACCES)), a) && AwayFromStart(s, h))
  {
    if Prepared(s, h).Some? {
      MovedExactlyWhen(s, h);
      RestoreGivesBackPosition(s, h);
      if msvcrt && pywin32 && a.locking == Refused(EACCES) {
        var t := Restored(Prepared(s, h).value, h, Tell(s.files[h]));
        Win32UnlockPositions(t, h, a);
        assert AwayFromStart(t, h) <==> AwayFromStart(s, h);
      } else if msvcrt {
        MsvcrtUnlockPositions(s, h, pywin32, a);
      } else {
        Win32UnlockPositions(s, h, a);
      }
    }
  }

  lemma Win32UnlockPositions(s: Sys, h: nat, a: Answers)
    requires Prepared(s, h).Some?
    ensures SamePositions(s, Win32Unlock(s, h, a).1) <==> a.translated || !AwayFromStart(s, h)
  {
    MovedExactlyWhen(s, h);
    RestoreGivesBackPosition(s, h);
  }

  lemma MsvcrtUnlockPositions(s: Sys, h: nat, pywin32: bool, a: Answers)
    requires Prepared(s, h).Some? && !(pywin32 && a.locking == Refused(EACCES))
    ensures SamePositions(s, MsvcrtUnlock(s, h, pywin32, a).1)
  {
    RestoreGivesBackPosition(s, h);
  }

  /** The failing case: an unlock falls back, the handle cannot be translated, and position 5 becomes 0. */
  lemma PositionLost()
    ensures var s := Sys(map[1 := FileObj(7, true, Some(Place(5, 5, 0)))], multiset{});
            var a := Answers(Refused(EACCES), false, Raised);
            UnlockAnswers(s, 1, a) && MsvcrtUnlock(s, 1, true, a).0 == LockFailed &&
            Tell(MsvcrtUnlock(s, 1, true, a).1.files[1]) == Some(0)
  {
    var s := Sys(map[1 := FileObj(7, true, Some(Place(5, 5, 0)))], multiset{});
    var t := Restored(Prepared(s, 1).value, 1, Some(5));
    assert t.files[1].place == Some(Place(5, 5, 0));
    assert Win32Unlock(t, 1, Answers(Refused(EACCES), false, Raised)) == (Escaped, MoveTo(t, 1, 0));
  }

  // ---- Runs ----

  datatype Event =
    | LockBy(h: nat, flags: Flags, msvcrt: bool, pywin32: bool, a: Answers)
    | UnlockBy(h: nat, msvcrt: bool, pywin32: bool, a: Answers)
    | UseBy(h: nat, place: Place) // reading, writing and seeking
    | OpenBy(h: nat, obj: FileObj)
    | CloseBy(h: nat)             // or the owning process ends

  ghost predicate Step(s: Sys, e: Event, t: Sys) {
    match e
    case LockBy(h, flags, msvcrt, pywin32, a) =>
      LockAnswers(s, h, flags, msvcrt, a) && t == LockCall(s, h, flags, msvcrt, pywin32, a).1
    case UnlockBy(h, msvcrt, pywin32, a) =>
      UnlockAnswers(s, h, a) && t == UnlockCall(s, h, msvcrt, pywin32, a).1
    case UseBy(h, place) =>
      h in s.files && s.files[h].place.Some? && Placed(s.files[h].(place := Some(place))) &&
      t == s.(files := s.files[h := s.files[h].(place := Some(place))])
    case OpenBy(h, obj) => h !in s.files && Placed(obj) && t == s.(files := s.files[h := obj])
    case CloseBy(h) =>
      t.files == s.files - {h} && forall k: Hold :: t.holds[k] == if k.handle == h then 0 else s.holds[k]
  }

  ghost predicate AllPlaced(s: Sys) {
    forall h | h in s.files :: Placed(s.files[h])
  }

  ghost predicate Run(states: seq<Sys>, events: seq<Event>) {
    |states| == |events| + 1 && states[0].holds == multiset{} && AllPlaced(states[0]) &&
    forall i | 0 <= i < |events| :: Step(states[i], events[i], states[i + 1])
  }

  /** A lock belongs to an open handle; the Win32 ones start at byte 0. */
  ghost predicate HoldOk(s: Sys, k: Hold) {
    k.handle in s.files && s.files[k.handle].file == k.file &&
    ((k.len == WIN32_LENGTH && k.lo == 0) || (k.len == MSVCRT_LENGTH && !k.shared))
  }

  /** Two locks that meet are shared, or one handle's with at most one of them exclusive. */
  ghost predicate PairOk(s: Sys, a: Hold, b: Hold) {
    Overlaps(a, b) ==> (a.shared && b.shared) ||
                       (a.handle == b.handle && (a.shared || b.shared || (a == b && s.holds[a] == 1)))
  }

  ghost predicate Inv(s: Sys) {
    AllPlaced(s) && (forall k | k in s.holds :: HoldOk(s, k)) &&
    forall a, b | a in s.holds && b in s.holds :: PairOk(s, a, b)
  }

  lemma FewerHoldsKeepInv(s: Sys, t: Sys)
    requires Inv(s) && AllPlaced(t) && forall k :: t.holds[k] <= s.holds[k]
    requires forall k | k in t.holds :: k.handle in t.files && t.files[k.handle].file == s.files[k.handle].file
    ensures Inv(t)
  {
    forall k | k in t.holds ensures HoldOk(t, k) {
      assert k in s.holds && HoldOk(s, k);
    }
    forall a, b | a in t.holds && b in t.holds ensures PairOk(t, a, b) {
      assert PairOk(s, a, b);
    }
  }

  lemma GrantKeepsPairs(s: Sys, wanted: Hold, t: Sys)
    requires Inv(s) && HoldOk(s, wanted) && Grantable(s, wanted) && t.holds == s.holds + multiset{wanted}
    ensures forall a, b | a in t.holds && b in t.holds :: PairOk(t, a, b)
  {
    forall a, b | a in t.holds && b in t.holds ensures PairOk(t, a, b) {
      if a in s.holds && b in s.holds {
        assert HoldOk(s, a) && HoldOk(s, b) && PairOk(s, a, b);
        assert !Clashes(wanted, a);
      } else {
        var other := if a in s.holds then a else b;
        assert other in s.holds ==> HoldOk(s, other) && !Clashes(wanted, other);
      }
    }
  }

  ghost predicate SameFiles(s: Sys, t: Sys) {
    t.files.Keys == s.files.Keys && (forall h | h in s.files :: t.files[h].file == s.files[h].file) &&
    (AllPlaced(s) ==> AllPlaced(t))
  }

  lemma MoveKeepsFiles(s: Sys, h: nat, pos: nat)
    requires h in s.files && s.files[h].place.Some?
    ensures SameFiles(s, MoveTo(s, h, pos))
  {
  }

  lemma RestoreKeepsFiles(s: Sys, h: nat)
    requires Prepared(s, h).Some?
    ensures SameFiles(s, Prepared(s, h).value)
    ensures SameFiles(s, Restored(Prepared(s, h).value, h, Tell(s.files[h])))
  {
    var p, original := Prepared(s, h).value, Tell(s.files[h]);
    if original.Some? && original.value != 0 {
      MoveKeepsFiles(s, h, 0);
      MoveKeepsFiles(p, h, original.value);
    }
  }

  lemma LockKeepsFiles(s: Sys, h: nat, flags: Flags, msvcrt: bool, pywin32: bool, a: Answers)
    ensures SameFiles(s, LockCall(s, h, flags, msvcrt, pywin32, a).1)
  {
    if Prepared(s, h).Some? {
      LockEnds(s, h, flags, msvcrt, pywin32, a);
      RestoreKeepsFiles(s, h);
    }
  }

  lemma LockKeepsInv(s: Sys, h: nat, flags: Flags, msvcrt: bool, pywin32: bool, a: Answers)
    requires Inv(s) && LockAnswers(s, h, flags, msvcrt, a)
    ensures Inv(LockCall(s, h, flags, msvcrt, pywin32, a).1)
  {
    var t := LockCall(s, h, flags, msvcrt, pywin32, a).1;
    LockCoversStartExactlyWhen(s, h, flags, msvcrt, pywin32, a);
    LockKeepsFiles(s, h, flags, msvcrt, pywin32, a);
    if LockCall(s, h, flags, msvcrt, pywin32, a).0.Locked? {
      GrantKeepsPairs(s, FullRange(s, h, flags, msvcrt), t);
      forall k | k in t.holds ensures HoldOk(t, k) {
        assert k == FullRange(s, h, flags, msvcrt) || HoldOk(s, k);
      }
    } else {
      HoldersAreOpen(s);
      FewerHoldsKeepInv(s, t);
    }
  }

  lemma HoldersAreOpen(s: Sys)
    requires Inv(s)
    ensures forall k | k in s.holds :: k.handle in s.files
  {
    forall k | k in s.holds ensures k.handle in s.files {
      assert HoldOk(s, k);
    }
  }

  // ---- Unlocking drops only the caller's locks ----

  ghost predicate OnlyDrops(s: Sys, h: nat, t: Sys) {
    SameFiles(s, t) && (forall k: Hold :: t.holds[k] <= s.holds[k]) &&
    forall k: Hold | k.handle != h :: t.holds[k] == s.holds[k]
  }

  lemma RestoreOnlyMoves(s: Sys, h: nat, t: Sys, original: Option<nat>)
    requires OnlyDrops(s, h, t) && h in t.files && (original.Some? ==> t.files[h].place.Some?)
    ensures OnlyDrops(s, h, Restored(t, h, original))
  {
    var u := Restored(t, h, original);
    if original.Some? {
      MoveKeepsFiles(t, h, original.value);
    }
    assert u.holds == t.holds && SameFiles(t, u);
  }

  lemma DropOnlyDrops(s: Sys, h: nat, t: Sys, lo: nat, len: nat)
    requires OnlyDrops(s, h, t) && h in t.files
    ensures OnlyDrops(s, h, Drop(t, h, lo, len))
  {
    var u := Drop(t, h, lo, len);
    assert u.files == t.files && forall k: Hold :: u.holds[k] <= t.holds[k];
  }

  /** The file prepared, one of its locks dropped, and the position restored. */
  function DropAndRestore(s: Sys, h: nat, lo: nat, len: nat): Sys
    requires Prepared(s, h).Some?
  {
    Restored(Drop(Prepared(s, h).value, h, lo, len), h, Tell(s.files[h]))
  }

  lemma PreparedDrops(s: Sys, h: nat, lo: nat, len: nat)
    requires Prepared(s, h).Some?
    ensures OnlyDrops(s, h, Prepared(s, h).value) && OnlyDrops(s, h, DropAndRestore(s, h, lo, len))
    ensures OnlyDrops(s, h, Restored(Prepared(s, h).value, h, Tell(s.files[h])))
  {
    var p := Prepared(s, h).value;
    RestoreKeepsFiles(s, h);
    assert p.holds == s.holds && SameFiles(s, p);
    DropOnlyDrops(s, h, p, lo, len);
    RestoreOnlyMoves(s, h, p, Tell(s.files[h]));
    RestoreOnlyMoves(s, h, Drop(p, h, lo, len), Tell(s.files[h]));
  }

  lemma Win32OnlyDrops(s: Sys, h: nat, a: Answers)
    ensures OnlyDrops(s, h, Win32Unlock(s, h, a).1)
  {
    if Prepared(s, h).Some? {
      PreparedDrops(s, h, 0, WIN32_LENGTH);
      Win32UnlockEnds(s, h, a);
    }
  }

  lemma Win32UnlockEnds(s: Sys, h: nat, a: Answers)
    requires Prepared(s, h).Some?
    ensures Win32Unlock(s, h, a).1 in {Prepared(s, h).value, DropAndRestore(s, h, 0, WIN32_LENGTH),
                                       Restored(Prepared(s, h).value, h, Tell(s.files[h]))}
  {
  }

  lemma MsvcrtUnlockEnds(s: Sys, h: nat, pywin32: bool, a: Answers)
    requires Prepared(s, h).Some?
    ensures var p := Prepared(s, h).value;
            var t := Restored(p, h, Tell(s.files[h]));
            MsvcrtUnlock(s, h, pywin32, a).1 in
              {t, Win32Unlock(t, h, a).1, DropAndRestore(s, h, Offset(p, h), MSVCRT_LENGTH)}
  {
  }

  lemma OnlyDropsMore(s: Sys, h: nat, t: Sys, u: Sys)
    requires OnlyDrops(s, h, t) && OnlyDrops(t, h, u)
    ensures OnlyDrops(s, h, u)
  {
  }

  /** An unlock drops only the caller's locks. */
  lemma UnlockOnlyDrops(s: Sys, h: nat, msvcrt: bool, pywin32: bool, a: Answers)
    ensures OnlyDrops(s, h, UnlockCall(s, h, msvcrt, pywin32, a).1)
  {
    Win32OnlyDrops(s, h, a);
    if msvcrt && Prepared(s, h).Some? {
      var p := Prepared(s, h).value;
      var t := Restored(p, h, Tell(s.files[h]));
      PreparedDrops(s, h, Offset(p, h), MSVCRT_LENGTH);
      Win32OnlyDrops(t, h, a);
      OnlyDropsMore(s, h, t, Win32Unlock(t, h, a).1);
      MsvcrtUnlockEnds(s, h, pywin32, a);
    }
  }

  lemma StepKeepsInv(s: Sys, e: Event, t: Sys)
    requires Inv(s) && Step(s, e, t)
    ensures Inv(t)
  {
    HoldersAreOpen(s);
    match e
    case LockBy(h, flags, msvcrt, pywin32, a) =>
      LockKeepsInv(s, h, flags, msvcrt, pywin32, a);
    case UnlockBy(h, msvcrt, pywin32, a) =>
      UnlockOnlyDrops(s, h, msvcrt, pywin32, a);
      FewerHoldsKeepInv(s, t);
    case _ =>
      FewerHoldsKeepInv(s, t);
  }

  lemma {:induction false} RunKeepsInv(states: seq<Sys>, events: seq<Event>)
    requires Run(states, events)
    ensures forall i | 0 <= i < |states| :: Inv(states[i])
  {
    assert Inv(states[0]);
    for n := 0 to |events|
      invariant forall i | 0 <= i <= n :: Inv(states[i])
    {
      StepKeepsInv(states[n], events[n], states[n + 1]);
    }
  }

  // ---- Exclusion ----

  /** In every run, locks of different handles whose ranges meet are both shared. */
  lemma MeetingLocksAreShared(states: seq<Sys>, events: seq<Event>, i: nat, a: Hold, b: Hold)
    requires Run(states, events) && i < |states|
    requires a in states[i].holds && b in states[i].holds && a.handle != b.handle && Overlaps(a, b)
    ensures a.shared && b.shared
  {
    RunKeepsInv(states, events);
    assert PairOk(states[i], a, b);
  }

  /** A file that one handle holds exclusively is held by no other handle. */
  ghost predicate FilesExclusive(s: Sys) {
    forall a, b | a in s.holds && b in s.holds && a.file == b.file && a.handle != b.handle :: a.shared && b.shared
  }

  ghost predicate BuffersWithin(s: Sys, bound: nat) {
    forall h | h in s.files && s.files[h].io && s.files[h].place.Some? :: s.files[h].place.value.buf <= bound
  }

  ghost predicate LowHolds(s: Sys, bound: nat) {
    forall k | k in s.holds :: k.lo <= bound
  }

  lemma StepKeepsHoldsLow(s: Sys, e: Event, t: Sys, bound: nat)
    requires Inv(s) && Step(s, e, t) && BuffersWithin(s, bound) && LowHolds(s, bound)
    ensures LowHolds(t, bound)
  {
    match e
    case LockBy(h, flags, msvcrt, pywin32, a) =>
      LockCoversStartExactlyWhen(s, h, flags, msvcrt, pywin32, a);
    case UnlockBy(h, msvcrt, pywin32, a) =>
      UnlockOnlyDrops(s, h, msvcrt, pywin32, a);
      FewerStayLow(s, t, bound);
    case _ =>
      FewerStayLow(s, t, bound);
  }

  lemma FewerStayLow(s: Sys, t: Sys, bound: nat)
    requires LowHolds(s, bound) && forall k :: t.holds[k] <= s.holds[k]
    ensures LowHolds(t, bound)
  {
    forall k | k in t.holds ensures k.lo <= bound {
      assert k in s.holds;
    }
  }

  lemma LowLocksMeet(s: Sys, bound: nat)
    requires Inv(s) && LowHolds(s, bound) && bound < MSVCRT_LENGTH
    ensures FilesExclusive(s)
  {
    forall a, b | a in s.holds && b in s.holds && a.file == b.file && a.handle != b.handle
      ensures a.shared && b.shared
    {
      assert HoldOk(s, a) && HoldOk(s, b) && PairOk(s, a, b);
      assert a.lo <= bound && b.lo <= bound;
    }
  }

  /** As long as no read buffer reaches 64 KiB: whatever is read, written, locked and unlocked, exclusion holds. */
  lemma {:induction false} SmallBuffersExclude(states: seq<Sys>, events: seq<Event>, bound: nat)
    requires Run(states, events) && bound < MSVCRT_LENGTH
    requires forall i | 0 <= i < |states| :: BuffersWithin(states[i], bound)
    ensures forall i | 0 <= i < |states| :: FilesExclusive(states[i])
  {
    RunKeepsInv(states, events);
    LowLocksMeet(states[0], bound);
    for n := 0 to |events|
      invariant LowHolds(states[n], bound)
      invariant forall i | 0 <= i <= n :: FilesExclusive(states[i])
    {
      StepKeepsHoldsLow(states[n], events[n], states[n + 1], bound);
      LowLocksMeet(states[n + 1], bound);
    }
  }

  ghost predicate RunWithin(states: seq<Sys>, events: seq<Event>, bound: nat) {
    Run(states, events) && forall i | 0 <= i < |states| :: BuffersWithin(states[i], bound)
  }

  /** Read buffers up to `bound` bytes never let two handles hold one file against each other. */
  ghost predicate SafeWith(bound: nat) {
    forall states, events | RunWithin(states, events, bound) ::
      forall i | 0 <= i < |states| :: FilesExclusive(states[i])
  }

  /** Mutual exclusion over all runs holds exactly for read buffers smaller than the range msvcrt locks. */
  lemma SafeExactlyWhen(bound: nat)
    ensures SafeWith(bound) <==> bound < MSVCRT_LENGTH
  {
    if bound < MSVCRT_LENGTH {
      forall states, events | RunWithin(states, events, bound)
        ensures forall i | 0 <= i < |states| :: FilesExclusive(states[i])
      {
        SmallBuffersExclude(states, events, bound);
      }
    } else {
      var states, events := BufferedHolders();
      assert RunWithin(states, events, bound) && !FilesExclusive(states[3]);
    }
  }

  const START := Place(0, 0, 0)

  /** 64 KiB read and the position set back to 0, within the buffer. */
  const READ_AND_BACK := Place(0, MSVCRT_LENGTH, MSVCRT_LENGTH)

  /** One handle reads 64 KiB, seeks to 0 and locks; another one locks; both hold the file exclusively. */
  lemma BufferedHolders() returns (states: seq<Sys>, events: seq<Event>)
    ensures |states| == 4 && RunWithin(states, events, MSVCRT_LENGTH) && !FilesExclusive(states[3])
  {
    var one, two := Hold(7, 1, false, MSVCRT_LENGTH, MSVCRT_LENGTH), Hold(7, 2, false, 0, MSVCRT_LENGTH);
    var s0 := Standing(START, multiset{});
    var s1 := Standing(READ_AND_BACK, multiset{});
    var s2 := Standing(READ_AND_BACK, multiset{one});
    var s3 := Standing(READ_AND_BACK, multiset{one, two});
    states := [s0, s1, s2, s3];
    events := [UseBy(1, READ_AND_BACK), ExclusiveLockBy(1), ExclusiveLockBy(2)];
    ReadsAndSeeksBack();
    LockInPlace(s1, 1, one);
    LockInPlace(s2, 2, two);
    assert s1.holds + multiset{one} == s2.holds && s2.holds + multiset{two} == s3.holds;
    assert one in s3.holds && two in s3.holds;
  }

  /** Handle 1 stands at `place`, handle 2 of the same file at its start. */
  function Standing(place: Place, holds: multiset<Hold>): Sys {
    Sys(map[1 := FileObj(7, true, Some(place)), 2 := FileObj(7, true, Some(START))], holds)
  }

  lemma ReadsAndSeeksBack()
    ensures Step(Standing(START, multiset{}), UseBy(1, READ_AND_BACK), Standing(READ_AND_BACK, multiset{}))
  {
    var s := Standing(START, multiset{});
    assert s.files[1 := s.files[1].(place := Some(READ_AND_BACK))] == Standing(READ_AND_BACK, multiset{}).files;
  }

  function ExclusiveLockBy(h: nat): Event {
    LockBy(h, Flags(true, false, true), true, false, Answers(Granted, true, Raised))
  }

  /** An exclusive msvcrt lock of a file that reports position 0. */
  lemma LockInPlace(s: Sys, h: nat, range: Hold)
    requires h in s.files && Tell(s.files[h]) == Some(0) && s.files[h].io && Grantable(s, range)
    requires range == Wanted(s, h, false, Offset(s, h), MSVCRT_LENGTH)
    ensures Step(s, ExclusiveLockBy(h), s.(holds := s.holds + multiset{range}))
  {
  }

  /** Only the holder's own unlock or close ends a lock. */
  lemma OthersKeepHolds(s: Sys, e: Event, t: Sys, k: Hold)
    requires AllPlaced(s) && Step(s, e, t) && e.h != k.handle
    ensures t.holds[k] == s.holds[k]
  {
    match e
    case LockBy(h, flags, msvcrt, pywin32, a) =>
      LockCoversStartExactlyWhen(s, h, flags, msvcrt, pywin32, a);
    case UnlockBy(h, msvcrt, pywin32, a) =>
      UnlockOnlyDrops(s, h, msvcrt, pywin32, a);
    case _ =>
  }

  /** Locking from the current position would let two handles hold one file exclusively, buffers or not. */
  lemma WithoutMovingTwoHold()
    ensures var s := Sys(map[1 := FileObj(7, false, Some(START)),
                             2 := FileObj(7, false, Some(Place(MSVCRT_LENGTH, MSVCRT_LENGTH, 0)))], multiset{});
            var one := Take(s, 1, false, Offset(s, 1), MSVCRT_LENGTH);
            Grantable(s, Wanted(s, 1, false, Offset(s, 1), MSVCRT_LENGTH)) &&
            Grantable(one, Wanted(one, 2, false, Offset(one, 2), MSVCRT_LENGTH)) &&
            !Grantable(one, FullRange(one, 2, Flags(true, false, true), true))
  {
    var s := Sys(map[1 := FileObj(7, false, Some(START)),
                     2 := FileObj(7, false, Some(Place(MSVCRT_LENGTH, MSVCRT_LENGTH, 0)))], multiset{});
    var one := Take(s, 1, false, Offset(s, 1), MSVCRT_LENGTH);
    assert Hold(7, 1, false, 0, MSVCRT_LENGTH) in one.holds;
    assert Clashes(FullRange(one, 2, Flags(true, false, true), true), Hold(7, 1, false, 0, MSVCRT_LENGTH));
  }
}
