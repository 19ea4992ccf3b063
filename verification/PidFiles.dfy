/** `PidFileLock`: a sidecar lock that publishes its owner's PID. */
module PidFiles {
  import opened Basics
  import opened FileProtocol
  import opened FileTheorems
  import opened Kernels
  import opened RetryPacing
  import opened LockFiles

  class PidFileLock {
    const kernel: Kernel
    const clock: Clock
    const me: Actor
    const failWhenLocked: bool
    var inner: Lock?
    var acquired: bool

    ghost predicate Valid()
      reads this, kernel, inner
    {
      kernel.Valid() && me in kernel.own && kernel.cfg[me].kind.Sidecar? &&
      (inner == null ==> kernel.Of(me).at.Idle?) &&
      (inner != null ==>
         inner.kernel == kernel && inner.clock == clock && inner.me == me && inner.Valid() && inner.fh.Some? &&
         kernel.Of(me).at.Published? && acquired)
    }

    constructor (kernel: Kernel, clock: Clock, me: Actor, failWhenLocked: bool)
      requires kernel.Valid() && me in kernel.own && kernel.cfg[me].kind.Sidecar? && kernel.Of(me).at.Idle?
      ensures Valid() && inner == null && this.kernel == kernel && this.me == me
    {
      this.kernel, this.clock, this.me, this.failWhenLocked := kernel, clock, me, failWhenLocked;
      inner, acquired := null, false;
    }

    /** `_write_pid`; any step may fail, and then the PID file is closed with anything left in it. */
    method WritePid() returns (ok: bool)
      requires kernel.Valid() && me in kernel.own && kernel.cfg[me].kind.Sidecar? && kernel.Of(me).at.Verified?
      modifies kernel
      ensures kernel.Valid() && NoUnlink(old(kernel.Log(me)), kernel.Log(me))
      ensures kernel.Of(me).h == old(kernel.Of(me)).h
      ensures kernel.Of(me).at == if ok then Published else Unlocking
    {
      var g := kernel.OpenPidFile(me);
      if g.None? {
        kernel.Take(me, FailOpenPid);
        return false;
      }
      ok := FillPidFile();
      if !ok {
        AbandonPidFile();
      }
    }

    /** Truncate, write, flush and close. */
    method FillPidFile() returns (ok: bool)
      requires kernel.Valid() && me in kernel.own && kernel.cfg[me].kind.Sidecar? && kernel.Of(me).at.PidOpen?
      modifies kernel
      ensures kernel.Valid() && NoUnlink(old(kernel.Log(me)), kernel.Log(me))
      ensures kernel.Of(me).h == old(kernel.Of(me)).h
      ensures if ok then kernel.Of(me).at.Published?
              else HasPidHandle(kernel.Of(me).at) && !kernel.Of(me).at.PidBroken?
    {
      var closed: bool := *;
      var filled := EmptyAndFill();
      ok := filled && closed;
      if ok {
        kernel.Take(me, ClosePid);
      }
    }

    /** Truncate, write and flush. */
    method EmptyAndFill() returns (ok: bool)
      requires kernel.Valid() && me in kernel.own && kernel.cfg[me].kind.Sidecar? && kernel.Of(me).at.PidOpen?
      modifies kernel
      ensures kernel.Valid() && NoUnlink(old(kernel.Log(me)), kernel.Log(me))
      ensures kernel.Of(me).h == old(kernel.Of(me)).h
      ensures if ok then kernel.Of(me).at.PidFilled? else kernel.Of(me).at.PidOpen? || kernel.Of(me).at.PidEmpty?
    {
      var truncated: bool, written: bool := *, *;
      ok := truncated && written;
      if truncated {
        kernel.Take(me, EmptyPid);
        if written {
          kernel.Take(me, FillPid);
        }
      }
    }

    method AbandonPidFile()
      requires kernel.Valid() && me in kernel.own
      requires HasPidHandle(kernel.Of(me).at) && !kernel.Of(me).at.PidBroken?
      modifies kernel
      ensures kernel.Valid() && NoUnlink(old(kernel.Log(me)), kernel.Log(me))
      ensures kernel.Of(me) == old(kernel.Of(me)).(at := Unlocking)
    {
      var left: string := *;
      kernel.Take(me, FailPid(left));
      kernel.Take(me, ShutPid);
    }

    /** Overwriting `_inner_lock` drops the last reference to a lock still held, which finalizes it at once. */
    method DropInner()
      requires Valid()
      modifies this, inner, kernel
      ensures Valid() && inner == null && NoUnlink(old(kernel.Log(me)), kernel.Log(me))
    {
      if inner != null {
        kernel.Take(me, Drop);
        var _, _ := inner.Release();
        inner := null;
      }
    }

    /** The sidecar is locked and verified, or the error is one of the two `acquire` lets through. */
    method AcquireSidecar(timeout: Option<real>, interval: Option<real>, fail: bool)
      returns (lock: Lock, r: Outcome, ghost inside: Outcome)
      requires kernel.Valid() && me in kernel.own && kernel.cfg[me].kind.Sidecar? && kernel.Of(me).at.Idle?
      modifies kernel, clock
      ensures fresh(lock) && lock.Valid() && lock.kernel == kernel && lock.clock == clock && lock.me == me
      ensures NoUnlink(old(kernel.Log(me)), kernel.Log(me))
      ensures r.Success? ==> lock.fh == Some(r.value) && kernel.Of(me).at.Verified?
      ensures r.Failure? ==> lock.fh == None
      ensures inside.Success? ==> r == inside
      ensures inside.Failure? ==> r == Failure(if inside.error.OtherError? then OtherError else AlreadyLocked)
      ensures fail ==> lock.timeout == 0.0 && lock.interval == 0.0
      ensures !fail && timeout.None? ==> lock.timeout == 5.0
      ensures !fail && interval.None? ==> lock.interval == 0.25
      ensures clock.exact ==> clock.now <= old(clock.now) + VerifiedTime(lock, timeout, interval)
    {
      // The constructor's own timeout and check interval are not consulted.
      lock := new Lock(kernel, clock, me,
                       if fail then 0.0 else Coalesce(timeout, DEFAULT_TIMEOUT),
                       if fail then 0.0 else Coalesce(interval, DEFAULT_CHECK_INTERVAL), true);
      ghost var n, denied;
      r, n, denied := AcquireVerified(lock, timeout, interval, Some(fail));
      inside := r;
      if r.Failure? && r.error == PlainLockException {
        r := Failure(AlreadyLocked);
      }
    }

    /** `PidFileLock.acquire`; `inside` is how locking and verifying the sidecar ended. */
    method Acquire(timeout: Option<real>, interval: Option<real>, failWhenLocked: Option<bool>)
      returns (r: Outcome, ghost inside: Outcome)
      requires Valid()
      modifies this, inner, kernel, clock
      ensures Valid() && NoUnlink(old(kernel.Log(me)), kernel.Log(me))
      ensures r.Success? ==>
                inner != null && inner.fh == Some(r.value) &&
                OwnsPath(kernel.cfg[me], kernel.st.fs, kernel.Of(me)) &&
                ReadPid(kernel.st.fs, kernel.cfg[me].kind.pidPath) == Some(kernel.cfg[me].kind.pid)
      ensures r.Failure? ==> inner == null && r.error != PlainLockException
      ensures if inside.Success? then r == inside || r == Failure(OtherError)
              else r == Failure(if inside.error.OtherError? then OtherError else AlreadyLocked)
      ensures inner != null ==> fresh(inner)
    {
      DropInner();
      var lock;
      lock, r, inside := AcquireSidecar(timeout, interval, Coalesce(failWhenLocked, this.failWhenLocked));
      if r.Success? {
        var ok := WritePid();
        if ok {
          inner, acquired := lock, true;
          Publishes(kernel, me);
        } else {
          var _ := RollBack(lock);
          r := Failure(OtherError);
        }
      }
    }

    /**
     `_rollback_failed_acquire`, as far as files and locks go. A release that exits early, having unlocked or
     not, leaves the handle set; the emergency close then closes it.
     */
    method RollBack(lock: Lock) returns (handleLeft: bool)
      requires lock.Valid() && lock.kernel == kernel && lock.me == me && inner == null
      requires lock.fh.Some? && kernel.Of(me).at.Unlocking?
      modifies this, lock, kernel
      ensures kernel.Valid() && kernel.Of(me).at.Idle? && lock.fh == None && inner == null && !acquired
      ensures exists unlocked, closed :: kernel.Log(me) == old(kernel.Log(me)) + [Unlock(unlocked), Close(closed)]
    {
      handleLeft := *;
      var unlocked: bool, closed: bool := *, *;
      if handleLeft {
        kernel.Take(me, Unlock(unlocked));
      } else {
        unlocked, closed := lock.Release();
      }
      if lock.fh.Some? {
        closed := EmergencyClose(lock);
      }
      assert kernel.Log(me) == old(kernel.Log(me)) + [Unlock(unlocked), Close(closed)];
      acquired := false;
    }

    /** The fallback close, and clearing the handle whether or not it fails. */
    method EmergencyClose(lock: Lock) returns (closed: bool)
      requires kernel.Valid() && me in kernel.own && kernel.Of(me).at.Closing?
      modifies lock, kernel
      ensures kernel.Valid() && kernel.Of(me).at.Idle? && lock.fh == None
      ensures kernel.Log(me) == old(kernel.Log(me)) + [Close(closed)]
    {
      closed := *;
      kernel.Take(me, Close(closed));
      lock.fh := None;
    }

    /** Unlink the PID file, and the sidecar unless that failed. */
    method UnlinkBoth(pidUnlinked: bool, lockUnlinked: bool)
      requires kernel.Valid() && me in kernel.own && kernel.cfg[me].kind.Sidecar? && kernel.Of(me).at.Published?
      modifies kernel
      ensures kernel.Valid() && kernel.Of(me) == old(kernel.Of(me)).(at := Unlocking)
      ensures kernel.Log(me) == old(kernel.Log(me)) +
                ReleaseEvents(pidUnlinked, lockUnlinked)
    {
      kernel.Take(me, UnlinkPid(pidUnlinked));
      if pidUnlinked {
        kernel.Take(me, UnlinkLock(lockUnlinked));
      }
    }

    /** `PidFileLock.release`: both unlinks happen under the sidecar lock; without one nothing is touched. */
    method Release() returns (pidUnlinked: bool, lockUnlinked: bool)
      requires Valid()
      modifies this, inner, kernel
      ensures Valid() && inner == null && acquired == old(acquired)
      ensures old(inner) == null ==> kernel.st == old(kernel.st) && kernel.events == old(kernel.events)
      ensures old(inner) != null ==> exists unlocked, closed ::
                kernel.Log(me) == old(kernel.Log(me)) +
                  ReleaseEvents(pidUnlinked, lockUnlinked) +
                  [Unlock(unlocked), Close(closed)]
    {
      pidUnlinked, lockUnlinked := *, *;
      if inner == null {
        return;
      }
      UnlinkBoth(pidUnlinked, lockUnlinked);
      var unlocked, closed := inner.Release();
      inner := null;
      assert kernel.Log(me) == old(kernel.Log(me)) +
                  ReleaseEvents(pidUnlinked, lockUnlinked) +
                  [Unlock(unlocked), Close(closed)];
    }

    /** `read_pid` by anybody: while some lock is published here, the answer is its owner. */
    method ReadHolder() returns (pid: Option<int>)
      requires Valid()
      modifies kernel
      ensures Valid() && kernel.Log(me) == old(kernel.Log(me))
      ensures pid == ReadPid(kernel.st.fs, kernel.cfg[me].kind.pidPath)
      ensures forall b | b in kernel.cfg && kernel.Of(b).at.Published? && kernel.cfg[b].path == kernel.cfg[me].path ::
                kernel.cfg[b].kind.Sidecar? && pid == Some(kernel.cfg[b].kind.pid)
    {
      kernel.Interfere();
      pid := ReadPid(kernel.st.fs, kernel.cfg[me].kind.pidPath);
      forall b | b in kernel.cfg && kernel.Of(b).at.Published? && kernel.cfg[b].path == kernel.cfg[me].path
        ensures kernel.cfg[b].kind.Sidecar? && pid == Some(kernel.cfg[b].kind.pid)
      {
        Publishes(kernel, b);
        assert Compatible(kernel.cfg[b], kernel.cfg[me]) && Compatible(kernel.cfg[me], kernel.cfg[b]);
        SameSuffix(kernel.cfg[b].kind.pidPath, kernel.cfg[me].kind.pidPath, ".lock");
      }
    }

    /** `__enter__`: None when the lock was taken, otherwise whatever PID can be read. */
    method Enter() returns (r: Result<Option<int>, Error>)
      requires Valid()
      modifies this, inner, kernel, clock
      ensures Valid() && NoUnlink(old(kernel.Log(me)), kernel.Log(me))
      ensures r.Failure? ==> r.error == OtherError && inner == null
      ensures inner != null ==> r == Success(None)
      ensures inner == null && r.Success? ==> r.value == ReadPid(kernel.st.fs, kernel.cfg[me].kind.pidPath)
    {
      var outcome, _ := Acquire(None, None, None);
      if outcome.Success? {
        r := Success(None);
      } else if outcome.error == AlreadyLocked {
        var pid := ReadHolder();
        r := Success(pid);
      } else {
        r := Failure(OtherError);
      }
    }

    /** `fail_closed().__enter__`: the block is entered exactly when the lock is held; contention names the holder. */
    method EnterClosed() returns (refused: Option<Error>, holderPid: Option<int>)
      requires Valid()
      modifies this, inner, kernel, clock
      ensures Valid() && (refused.None? <==> inner != null)
      ensures refused.None? ==> OwnsPath(kernel.cfg[me], kernel.st.fs, kernel.Of(me))
      ensures refused == Some(AlreadyLocked) ==> holderPid == ReadPid(kernel.st.fs, kernel.cfg[me].kind.pidPath)
      ensures refused != Some(AlreadyLocked) ==> holderPid.None?
    {
      refused, holderPid := None, None;
      var outcome, _ := Acquire(None, None, None);
      if outcome.Failure? {
        refused := Some(outcome.error);
        if outcome.error == AlreadyLocked {
          holderPid := ReadHolder();
        }
      }
    }

    /** `__exit__`: releases a lock that was taken, and after a contended entry touches no file. */
    method Exit()
      requires Valid()
      modifies this, inner, kernel
      ensures Valid() && inner == null
      ensures old(inner) == null ==> kernel.st == old(kernel.st) && kernel.events == old(kernel.events)
      ensures old(inner) != null ==> exists pidUnlinked, lockUnlinked, unlocked, closed ::
                kernel.Log(me) ==
                  old(kernel.Log(me)) + ReleaseEvents(pidUnlinked, lockUnlinked) + [Unlock(unlocked), Close(closed)]
    {
      if acquired {
        var _, _ := Release();
        acquired := false;
      }
    }
  }

  /** The PID file goes before its sidecar, which stays if that failed. */
  function ReleaseEvents(pidUnlinked: bool, lockUnlinked: bool): seq<Event> {
    if pidUnlinked then [UnlinkPid(true), UnlinkLock(lockUnlinked)] else [UnlinkPid(false)]
  }

  lemma SameSuffix(a: string, b: string, suffix: string)
    requires a + suffix == b + suffix
    ensures a == b
  {
    assert |a| == |b|;
    assert (a + suffix)[..|a|] == a && (b + suffix)[..|b|] == b;
  }

  /** A published lock owns its sidecar, and its PID is what the PID file says. */
  lemma Publishes(kernel: Kernel, me: Actor)
    requires kernel.Valid() && me in kernel.cfg && kernel.Of(me).at.Published?
    ensures OwnsPath(kernel.cfg[me], kernel.st.fs, kernel.Of(me)) && kernel.cfg[me].kind.Sidecar?
    ensures ReadPid(kernel.st.fs, kernel.cfg[me].kind.pidPath) == Some(kernel.cfg[me].kind.pid)
  {
    WitnessedIsReachable(kernel.cfg, kernel.start, kernel.events, kernel.st);
    HolderOwnsPath(kernel.cfg, kernel.st, me);
    PublishedPidIsTrue(kernel.cfg, kernel.st, me);
  }
}
