/** `Lock`, `TemporaryFileLock` and `PidFileLock`, as code running on the kernel. */
module LockFiles {
  import opened Basics
  import opened FileProtocol
  import opened FileTheorems
  import opened FileEffects
  import opened Kernels
  import opened RetryPacing

  const DEFAULT_TIMEOUT := 5.0
  const DEFAULT_CHECK_INTERVAL := 0.25

  /** `coalesce(argument, default)` */
  function Coalesce<T>(argument: Option<T>, default: T): (r: T)
    ensures argument == Some(r) || (argument.None? && r == default)
  {
    if argument.Some? then argument.value else default
  }

  type Outcome = Result<Handle, Error>

  /** The log grew without an unlink. */
  ghost predicate NoUnlink(before: seq<Event>, after: seq<Event>) {
    before <= after &&
    forall i | |before| <= i < |after| :: !after[i].UnlinkLock? && !after[i].UnlinkPid?
  }

  /** A plain lock's handle was given up: unlock and close were both tried. */
  ghost predicate GaveUp(before: seq<Event>, after: seq<Event>) {
    exists unlocked, closed :: after == before + [Discard, Unlock(unlocked), Close(closed)]
  }

  /** The attempts of one retry loop: refusals, and then the answer to the last attempt. */
  datatype Tally = Untried | Tried(refusals: nat, last: Flocked)

  function Tries(tally: Tally): nat {
    if tally.Untried? then 0 else tally.refusals + 1
  }

  /** One more attempt; only a refusal leads to another one. */
  function Noted(tally: Tally, answer: Flocked): Tally {
    if tally.Tried? && tally.last.Denied? then Tried(tally.refusals + 1, answer) else Tried(0, answer)
  }

  /** The error of an `acquire` whose last attempt was answered like this. */
  function RefusalError(answer: Flocked, fail: bool): Error
    requires !answer.Granted?
  {
    if answer.Broken? then PlainLockException else if fail then AlreadyLocked else answer.error
  }

  /** Stages in which `self.fh` is set. */
  predicate HasFh(at: Stage) {
    at.Stored? || at.Verified? || at.Published? || at.Unlocking?
  }

  class Lock {
    const kernel: Kernel
    const clock: Clock
    const me: Actor
    const timeout: real
    const interval: real
    const failWhenLocked: bool
    var fh: Option<Handle>

    ghost predicate Valid()
      reads this, kernel
    {
      kernel.Valid() && me in kernel.own &&
      (fh.None? ==> kernel.Of(me).at.Idle?) &&
      (fh.Some? ==> HasFh(kernel.Of(me).at) && kernel.Of(me).h == fh.value)
    }

    constructor (kernel: Kernel, clock: Clock, me: Actor, timeout: real, interval: real, failWhenLocked: bool)
      requires kernel.Valid() && me in kernel.own && kernel.Of(me).at.Idle?
      ensures Valid() && fh == None && this.kernel == kernel && this.clock == clock && this.me == me
      ensures this.timeout == timeout && this.interval == interval && this.failWhenLocked == failWhenLocked
    {
      this.kernel, this.clock, this.me := kernel, clock, me;
      this.timeout, this.interval, this.failWhenLocked := timeout, interval, failWhenLocked;
      fh := None;
    }

    /** How many attempts one retry loop with these arguments may make. */
    function Attempts(timeout: Option<real>, interval: Option<real>): nat {
      MaxAttempts(Coalesce(timeout, this.timeout), Coalesce(interval, this.interval))
    }

    /** How long one retry loop with these arguments may take on an exact clock. */
    function LockTime(timeout: Option<real>, interval: Option<real>): Duration {
      LoopTime(Coalesce(timeout, this.timeout), Coalesce(interval, this.interval), clock.longest)
    }

    /** `Lock.acquire`; `tally` is what its attempts were answered. */
    method Acquire(timeout: Option<real>, interval: Option<real>, failWhenLocked: Option<bool>)
      returns (r: Outcome, ghost tally: Tally)
      requires Valid()
      modifies this, kernel, clock
      ensures Valid() && NoUnlink(old(kernel.Log(me)), kernel.Log(me)) && kernel.OthersRest(me)
      ensures Tries(tally) <= Attempts(timeout, interval) && clock.now >= old(clock.now)
      ensures old(fh).Some? ==> r == Success(old(fh).value) && kernel.st == old(kernel.st) && fh == old(fh)
      ensures old(fh).None? && r.Success? ==> fh == Some(r.value) && kernel.Of(me).at.Stored?
      ensures r.Failure? ==> fh == None && kernel.Of(me).at.Idle?
      ensures tally.Tried? ==>
                var fail, last := Coalesce(failWhenLocked, this.failWhenLocked), tally.last;
                (fail ==> tally.refusals == 0) &&
                if last.Granted? then r.Success? || r == Failure(OtherError) else r == Failure(RefusalError(last, fail))
      ensures tally.Untried? && old(fh).None? ==> r == Failure(OtherError)
      ensures r.Failure? && r != Failure(OtherError) ==>
                tally.last.Broken? || Coalesce(failWhenLocked, this.failWhenLocked) ||
                clock.now >= old(clock.now) + Coalesce(timeout, this.timeout)
      ensures clock.exact ==> clock.now <= old(clock.now) + LockTime(timeout, interval)
    {
      tally := Untried;
      if fh.Some? {
        return Success(fh.value), tally;
      }
      var handle := kernel.Open(me);
      if handle.None? {
        return Failure(OtherError), tally;
      }
      var stored, error;
      stored, error, tally := LockOpened(timeout, interval, Coalesce(failWhenLocked, this.failWhenLocked));
      if stored {
        fh := handle;
        r := Success(handle.value);
      } else {
        r := Failure(error);
      }
    }

    /** From the open handle to a stored one, or to the error that `acquire` raises. */
    method LockOpened(timeout: Option<real>, interval: Option<real>, fail: bool)
      returns (stored: bool, error: Error, ghost tally: Tally)
      requires kernel.Valid() && me in kernel.own && kernel.Of(me).at.Opened?
      modifies kernel, clock
      ensures kernel.Valid() && NoUnlink(old(kernel.Log(me)), kernel.Log(me)) && kernel.OthersRest(me)
      ensures kernel.Of(me) == old(kernel.Of(me)).(at := if stored then Stored else Idle)
      ensures Tries(tally) <= Attempts(timeout, interval) && clock.now >= old(clock.now)
      ensures tally.Tried? && (fail ==> tally.refusals == 0)
      ensures var last := tally.last;
              if last.Granted? then !stored ==> error == OtherError else !stored && error == RefusalError(last, fail)
      ensures tally.last.Denied? && !fail ==> clock.now >= old(clock.now) + Coalesce(timeout, this.timeout)
      ensures clock.exact ==> clock.now <= old(clock.now) + LockTime(timeout, interval)
    {
      var locked, exception;
      locked, exception, tally := TryUntilLocked(timeout, interval, fail);
      stored := PrepareOrGiveUp(locked);
      error := if locked then OtherError else exception;
    }

    /** `_prepare_fh` after success; without a lock, or when preparing fails, the handle is closed. */
    method PrepareOrGiveUp(locked: bool) returns (stored: bool)
      requires kernel.Valid() && me in kernel.own && kernel.Of(me).at == if locked then Locked else Opened
      modifies kernel
      ensures kernel.Valid() && NoUnlink(old(kernel.Log(me)), kernel.Log(me)) && kernel.OthersRest(me)
      ensures kernel.Of(me) == old(kernel.Of(me)).(at := if stored then Stored else Idle)
      ensures stored ==> locked
    {
      var prepared: bool, closed: bool := *, *;
      stored := locked && prepared;
      if stored {
        kernel.Take(me, Store);
      } else {
        kernel.Take(me, GiveUp(closed));
      }
    }

    /** `_get_lock`, which takes its time. */
    method FlockOnce(gen: RetryGenerator, ghost begin: real) returns (r: Flocked)
      requires kernel.Valid() && me in kernel.own && kernel.Of(me).at.Opened?
      requires gen.clock == clock && gen.Running(begin, clock.longest, 0.0) && gen.Count() > 0
      modifies kernel, clock
      ensures kernel.Valid() && kernel.OthersRest(me) && clock.now >= old(clock.now)
      ensures kernel.Log(me) == old(kernel.Log(me)) + if r.Granted? then [Flock] else []
      ensures kernel.Of(me) == old(kernel.Of(me)).(at := if r.Granted? then Locked else Opened)
      ensures r.Denied? ==> !r.error.OtherError?
      ensures gen.Running(begin, clock.longest, clock.longest)
    {
      r := kernel.Flock(me);
      clock.Work();
    }

    /** One more attempt, unless time is up. */
    method TryOnce(gen: RetryGenerator, ghost begin: real) returns (r: Option<Flocked>)
      requires kernel.Valid() && me in kernel.own && kernel.Of(me).at.Opened?
      requires gen.clock == clock && gen.Running(begin, clock.longest, clock.longest)
      modifies kernel, clock, gen
      ensures kernel.Valid() && kernel.OthersRest(me) && clock.now >= old(clock.now)
      ensures var granted := r.Some? && r.value.Granted?;
              kernel.Log(me) == old(kernel.Log(me)) + (if granted then [Flock] else []) &&
              kernel.Of(me) == old(kernel.Of(me)).(at := if granted then Locked else Opened)
      ensures r.Some? ==> gen.Running(begin, clock.longest, clock.longest) && gen.Count() == old(gen.Count()) + 1
      ensures r.Some? && r.value.Denied? ==> !r.value.error.OtherError?
      ensures r.None? ==> old(gen.Count()) > 0 && clock.now >= begin + gen.timeout
      ensures clock.exact ==> clock.now <= begin + LoopTime(gen.timeout, gen.interval, clock.longest)
    {
      var attempt := gen.Resume(begin, clock.longest);
      if attempt.None? {
        return None;
      }
      var flocked := FlockOnce(gen, begin);
      gen.WithinLoopTime(begin, clock.longest);
      r := Some(flocked);
    }

    /** The retry loop of `Lock.acquire`, all attempts on the one open handle. */
    method TryUntilLocked(timeout: Option<real>, interval: Option<real>, fail: bool)
      returns (locked: bool, exception: Error, ghost tally: Tally)
      requires kernel.Valid() && me in kernel.own && kernel.Of(me).at.Opened?
      modifies kernel, clock
      ensures kernel.Valid() && NoUnlink(old(kernel.Log(me)), kernel.Log(me)) && kernel.OthersRest(me)
      ensures kernel.Of(me) == old(kernel.Of(me)).(at := if locked then Locked else Opened)
      ensures Tries(tally) <= Attempts(timeout, interval) && clock.now >= old(clock.now)
      ensures tally.Tried? && (fail ==> tally.refusals == 0)
      ensures var last := tally.last;
              if last.Granted? then locked else !locked && exception == RefusalError(last, fail)
      ensures !locked ==> exception != OtherError
      ensures tally.last.Denied? && !fail ==> clock.now >= old(clock.now) + Coalesce(timeout, this.timeout)
      ensures clock.exact ==> clock.now <= old(clock.now) + LockTime(timeout, interval)
    {
      locked, exception, tally := false, OtherError, Untried;
      ghost var most, begin := Attempts(timeout, interval), clock.now;
      var gen := new RetryGenerator(clock, Coalesce(timeout, this.timeout), Coalesce(interval, this.interval));
      while true
        invariant kernel.Valid() && gen.Running(begin, clock.longest, clock.longest)
        invariant Tries(tally) == gen.Count() <= most
        invariant kernel.Log(me) == old(kernel.Log(me)) && kernel.Of(me) == old(kernel.Of(me)) && !locked
        invariant kernel.OthersRest(me) && clock.now >= begin
        invariant tally.Tried? ==> !fail && tally.last.Denied? && exception == tally.last.error != OtherError
        modifies kernel, clock, gen
        decreases most - Tries(tally)
      {
        var flocked := TryOnce(gen, begin);
        if flocked.None? {
          return;
        }
        tally := Noted(tally, flocked.value);
        locked := flocked.value.Granted?;
        var stop;
        stop, exception := Weigh(flocked.value, fail);
        if stop {
          return;
        }
      }
    }

    /** What an attempt's answer leads to: the end of the loop or another attempt, and the error so far. */
    method Weigh(answer: Flocked, fail: bool) returns (stop: bool, exception: Error)
      ensures stop <==> !answer.Denied? || fail
      ensures !answer.Granted? ==> exception == RefusalError(answer, fail)
    {
      match answer
      case Granted => stop, exception := true, OtherError;
      case Denied(e) => stop, exception := fail, if fail then AlreadyLocked else e;
      case Broken => stop, exception := true, PlainLockException;
    }

    /** Closing, which takes the flock along. */
    method CloseHandle() returns (closed: bool)
      requires kernel.Valid() && me in kernel.own && kernel.Of(me).at.Closing?
      modifies kernel
      ensures kernel.Valid() && kernel.OthersRest(me) && kernel.Of(me).at.Idle?
      ensures kernel.Log(me) == old(kernel.Log(me)) + [Close(closed)]
      ensures closed ==>
                var h := old(kernel.Of(me).h); h !in kernel.st.fs.handles && NoFlock(kernel.st.fs, h)
    {
      closed := *;
      kernel.Take(me, Close(closed));
      if closed {
        ClosedForGood(kernel.cfg, kernel.before, me);
      }
    }

    /** `Lock.release`: unlock and close are both tried, and `fh` is cleared whatever fails. */
    method Release() returns (unlocked: bool, closed: bool)
      requires Valid()
      requires fh.Some? ==> kernel.Of(me).at.Unlocking? || (kernel.Of(me).at.Stored? && kernel.cfg[me].kind.Plain?)
      modifies this, kernel
      ensures Valid() && fh == None && kernel.OthersRest(me)
      ensures old(fh).None? ==> kernel.st == old(kernel.st) && kernel.Log(me) == old(kernel.Log(me))
      ensures old(fh).Some? && closed ==>
                old(fh).value !in kernel.st.fs.handles && NoFlock(kernel.st.fs, old(fh).value)
      ensures old(fh).Some? ==>
                kernel.Log(me) == old(kernel.Log(me)) +
                  (if old(kernel.Of(me)).at.Stored? then [Discard] else []) + [Unlock(unlocked), Close(closed)]
    {
      unlocked, closed := *, false;
      if fh.Some? {
        if kernel.Of(me).at.Stored? {
          kernel.Take(me, Discard);
        }
        kernel.Take(me, Unlock(unlocked));
        closed := CloseHandle();
        fh := None;
      }
    }
  }

  // ---- Verified acquisition ----

  /** The time bound of the verification loop: each of its attempts is a whole retry loop. */
  function VerifiedTime(lock: Lock, timeout: Option<real>, interval: Option<real>): Duration {
    LoopTime(Coalesce(timeout, lock.timeout), Coalesce(interval, lock.interval), lock.LockTime(timeout, interval))
  }

  /** `TemporaryFileLock._acquire_verified`, shared by the temporary lock and the PID sidecar. */
  method AcquireVerified(lock: Lock, timeout: Option<real>, interval: Option<real>, failWhenLocked: Option<bool>)
    returns (r: Outcome, ghost tries: nat, ghost denied: bool)
    requires lock.Valid() && !lock.kernel.cfg[lock.me].kind.Plain?
    requires lock.fh.Some? ==> lock.kernel.Of(lock.me).at.Verified? && lock.kernel.cfg[lock.me].kind.Temporary?
    modifies lock, lock.kernel, lock.clock
    ensures lock.Valid() && NoUnlink(old(lock.kernel.Log(lock.me)), lock.kernel.Log(lock.me))
    ensures r.Failure? && !denied ==>
              r == Failure(AlreadyLocked) &&
              lock.clock.now >= old(lock.clock.now) + Coalesce(timeout, lock.timeout)
    ensures r.Success? ==> lock.fh == Some(r.value) && lock.kernel.Of(lock.me).at.Verified?
    ensures r.Failure? ==> lock.fh == None
    ensures old(lock.fh).Some? ==> r == Success(old(lock.fh).value)
    ensures tries <= lock.Attempts(timeout, interval) * lock.Attempts(timeout, interval)
    ensures lock.clock.exact ==> lock.clock.now <= old(lock.clock.now) + VerifiedTime(lock, timeout, interval)
  {
    var kernel, me := lock.kernel, lock.me;
    ghost var most := lock.Attempts(timeout, interval);
    ghost var round := lock.LockTime(timeout, interval);
    ghost var begin := lock.clock.now;
    tries, denied := 0, false;
    var gen := new RetryGenerator(lock.clock, Coalesce(timeout, lock.timeout), Coalesce(interval, lock.interval));
    while true
      invariant lock.Valid() && gen.Running(begin, round, round)
      invariant NoUnlink(old(kernel.Log(me)), kernel.Log(me))
      invariant lock.fh.Some? ==> lock.fh == old(lock.fh) && kernel.Of(me).at.Verified? && gen.Count() == 0
      invariant old(lock.fh).Some? ==> lock.fh.Some? && kernel.cfg[me].kind.Temporary?
      invariant gen.Count() <= most && tries <= gen.Count() * most
      modifies lock, kernel, lock.clock, gen
      decreases most - gen.Count()
    {
      ghost var count := gen.Count();
      var done;
      ghost var n;
      done, r, n, denied := VerifyOnce(lock, gen, timeout, interval, failWhenLocked, begin);
      OneMoreRound(count, most, tries, n);
      tries := tries + n;
      if done {
        return;
      }
    }
  }

  /** One more pass of the verification loop, unless time is up. */
  method VerifyOnce(lock: Lock, gen: RetryGenerator, timeout: Option<real>, interval: Option<real>,
                    failWhenLocked: Option<bool>, ghost begin: real)
    returns (done: bool, r: Outcome, ghost tries: nat, ghost denied: bool)
    requires lock.Valid() && !lock.kernel.cfg[lock.me].kind.Plain? && gen.clock == lock.clock
    requires lock.fh.Some? ==> lock.kernel.Of(lock.me).at.Verified? && lock.kernel.cfg[lock.me].kind.Temporary?
    requires lock.fh.Some? ==> gen.Count() == 0
    requires gen.Running(begin, lock.LockTime(timeout, interval), lock.LockTime(timeout, interval))
    modifies lock, lock.kernel, lock.clock, gen
    ensures lock.Valid() && NoUnlink(old(lock.kernel.Log(lock.me)), lock.kernel.Log(lock.me))
    ensures done && r.Success? ==> lock.fh == Some(r.value) && lock.kernel.Of(lock.me).at.Verified?
    ensures (done ==> r.Failure?) ==> lock.fh == None
    ensures done && r.Failure? && !denied ==>
              r == Failure(AlreadyLocked) && lock.clock.now >= begin + gen.timeout
    ensures old(lock.fh).Some? ==> done && r == Success(old(lock.fh).value)
    ensures tries <= lock.Attempts(timeout, interval) && (tries > 0 ==> gen.Count() == old(gen.Count()) + 1)
    ensures gen.Count() <= MaxAttempts(gen.timeout, gen.interval)
    ensures !done ==> gen.Count() == old(gen.Count()) + 1 &&
                      gen.Running(begin, lock.LockTime(timeout, interval), lock.LockTime(timeout, interval))
    ensures lock.clock.exact ==>
              lock.clock.now <= begin + LoopTime(gen.timeout, gen.interval, lock.LockTime(timeout, interval))
  {
    ghost var round := lock.LockTime(timeout, interval);
    var attempt := gen.Resume(begin, round);
    if attempt.None? {
      return true, Failure(AlreadyLocked), 0, false;
    }
    done, r, tries, denied := VerifiedRound(lock, timeout, interval, failWhenLocked);
    gen.WithinLoopTime(begin, round);
  }

  /** One pass of the verification loop: lock, compare, and drop a stale handle. */
  method VerifiedRound(lock: Lock, timeout: Option<real>, interval: Option<real>, failWhenLocked: Option<bool>)
    returns (done: bool, r: Outcome, ghost tries: nat, ghost denied: bool)
    requires lock.Valid() && !lock.kernel.cfg[lock.me].kind.Plain?
    requires lock.fh.Some? ==> lock.kernel.Of(lock.me).at.Verified? && lock.kernel.cfg[lock.me].kind.Temporary?
    modifies lock, lock.kernel, lock.clock
    ensures lock.Valid() && NoUnlink(old(lock.kernel.Log(lock.me)), lock.kernel.Log(lock.me))
    ensures done ==> (r.Failure? <==> denied)
    ensures done && r.Success? ==> lock.fh == Some(r.value) && lock.kernel.Of(lock.me).at.Verified?
    ensures (done ==> r.Failure?) ==> lock.fh == None
    ensures old(lock.fh).Some? ==> done && r == Success(old(lock.fh).value)
    ensures tries <= lock.Attempts(timeout, interval) && lock.clock.now >= old(lock.clock.now)
    ensures lock.clock.exact ==> lock.clock.now <= old(lock.clock.now) + lock.LockTime(timeout, interval)
  {
    ghost var tally;
    r, tally := lock.Acquire(timeout, interval, failWhenLocked);
    tries, denied := Tries(tally), r.Failure?;
    if r.Failure? {
      return true, r, tries, denied;
    }
    done := Matches(lock);
    if !done {
      // Stale handle: the path was unlinked and recreated.
      var _, _ := lock.Release();
    }
  }

  /** `_fh_matches_path`; a re-entered acquire of a holder passes through here as well. */
  method Matches(lock: Lock) returns (matches: bool)
    requires lock.Valid() && lock.fh.Some?
    requires (lock.kernel.Of(lock.me).at.Stored? && !lock.kernel.cfg[lock.me].kind.Plain?) ||
             (lock.kernel.Of(lock.me).at.Verified? && lock.kernel.cfg[lock.me].kind.Temporary?)
    modifies lock.kernel
    ensures lock.Valid() && NoUnlink(old(lock.kernel.Log(lock.me)), lock.kernel.Log(lock.me))
    ensures lock.kernel.Of(lock.me) == old(lock.kernel.Of(lock.me)).(at := if matches then Verified else Unlocking)
    ensures old(lock.kernel.Of(lock.me)).at.Verified? ==> matches
  {
    var kernel, me := lock.kernel, lock.me;
    if kernel.Of(me).at.Verified? {
      kernel.Take(me, Recheck);
    }
    kernel.Take(me, Compare);
    matches := kernel.Of(me).at.Verified?;
  }

  lemma OneMoreRound(count: nat, most: nat, tries: nat, n: nat)
    requires tries <= count * most && n <= most
    ensures tries + n <= (count + 1) * most
    ensures count <= most ==> tries <= most * most
    ensures count + 1 <= most ==> tries + n <= most * most
  {
    assert (count + 1) * most == count * most + most;
    if count <= most {
      assert (most - count) * most >= 0;
      assert most * most == count * most + (most - count) * most;
    }
    if count + 1 <= most {
      assert (most - (count + 1)) * most >= 0;
      assert most * most == (count + 1) * most + (most - (count + 1)) * most;
    }
  }

  class TemporaryFileLock {
    /** The `Lock` this class extends. */
    const base: Lock

    ghost predicate Valid()
      reads this, base, base.kernel
    {
      base.Valid() && base.kernel.cfg[base.me].kind.Temporary? &&
      (base.fh.Some? ==> base.kernel.Of(base.me).at.Verified?)
    }

    constructor (kernel: Kernel, clock: Clock, me: Actor, timeout: real, interval: real, failWhenLocked: bool)
      requires kernel.Valid() && me in kernel.own && kernel.Of(me).at.Idle? && kernel.cfg[me].kind.Temporary?
      ensures Valid() && base.fh == None && base.kernel == kernel && base.me == me && fresh(base)
    {
      base := new Lock(kernel, clock, me, timeout, interval, failWhenLocked);
    }

    /** `TemporaryFileLock.acquire`: success means being the only holder of the path's inode. */
    method Acquire(timeout: Option<real>, interval: Option<real>, failWhenLocked: Option<bool>) returns (r: Outcome)
      requires Valid()
      modifies base, base.kernel, base.clock
      ensures Valid() && NoUnlink(old(base.kernel.Log(base.me)), base.kernel.Log(base.me))
      ensures r.Success? ==>
                base.fh == Some(r.value) &&
                OwnsPath(base.kernel.cfg[base.me], base.kernel.st.fs, base.kernel.Of(base.me)) &&
                forall b | b in base.kernel.cfg && base.kernel.cfg[b].path == base.kernel.cfg[base.me].path &&
                           Holds(base.kernel.Of(b).at) :: b == base.me
      ensures r.Failure? ==> base.fh == None
      ensures old(base.fh).Some? ==> r == Success(old(base.fh).value)
      ensures base.clock.exact ==> base.clock.now <= old(base.clock.now) + VerifiedTime(base, timeout, interval)
    {
      ghost var n, denied;
      r, n, denied := AcquireVerified(base, timeout, interval, failWhenLocked);
      if r.Success? {
        SoleHolder(base.kernel, base.me);
      }
    }

    /** `TemporaryFileLock.release`: unlink while still locked; without a handle nothing is touched. */
    method Release() returns (unlinked: bool)
      requires Valid()
      modifies base, base.kernel
      ensures Valid() && base.fh == None
      ensures old(base.fh).None? ==>
                base.kernel.st == old(base.kernel.st) && base.kernel.events == old(base.kernel.events)
      ensures old(base.fh).Some? ==> exists unlocked, closed ::
                base.kernel.Log(base.me) ==
                  old(base.kernel.Log(base.me)) + [UnlinkLock(unlinked), Unlock(unlocked), Close(closed)]
    {
      unlinked := *;
      if base.fh.None? {
        return;
      }
      base.kernel.Take(base.me, UnlinkLock(unlinked));
      ghost var log := base.kernel.Log(base.me);
      var unlocked, closed := base.Release();
      assert base.kernel.Log(base.me) ==
        old(base.kernel.Log(base.me)) + [UnlinkLock(unlinked), Unlock(unlocked), Close(closed)];
    }
  }

  /** What being a holder means, for the kernel's present state. */
  lemma SoleHolder(kernel: Kernel, me: Actor)
    requires kernel.Valid() && me in kernel.cfg && Holds(kernel.Of(me).at)
    ensures OwnsPath(kernel.cfg[me], kernel.st.fs, kernel.Of(me))
    ensures forall b | b in kernel.cfg && kernel.cfg[b].path == kernel.cfg[me].path && Holds(kernel.Of(b).at) :: b == me
  {
    WitnessedIsReachable(kernel.cfg, kernel.start, kernel.events, kernel.st);
    HolderOwnsPath(kernel.cfg, kernel.st, me);
    forall b | b in kernel.cfg && kernel.cfg[b].path == kernel.cfg[me].path && Holds(kernel.Of(b).at)
      ensures b == me
    {
      MutualExclusion(kernel.cfg, kernel.st, me, b);
    }
  }
}
