/** `RLock`: a `Lock` with an acquire count. */
module RLocks {
  import opened Basics
  import opened FileProtocol
  import opened FileTheorems
  import opened Kernels
  import opened RetryPacing
  import opened LockFiles

  /** What one call on an RLock came to. */
  datatype Call = Took(h: Handle) | Failed | Gave | Surplus

  datatype Level = Level(count: nat, handle: Option<Handle>)

  /**
   The level a history of calls leads to from an unheld lock; None for a history no reentrant lock
   has: a nested acquire that fails or gives another handle, or a surplus release that is accepted.
   */
  function Replay(calls: seq<Call>): Option<Level> {
    if calls == [] then Some(Level(0, None))
    else
      var before := Replay(calls[..|calls| - 1]);
      if before.None? then None else Next(before.value, calls[|calls| - 1])
  }

  function Next(level: Level, call: Call): Option<Level> {
    var Level(n, cur) := level;
    match call
    case Took(h) => if n > 0 && cur != Some(h) then None else Some(Level(n + 1, Some(h)))
    case Failed => if n > 0 then None else Some(Level(0, None))
    case Gave => if n == 0 then None else Some(if n == 1 then Level(0, None) else Level(n - 1, cur))
    case Surplus => if n > 0 then None else Some(Level(0, None))
  }

  lemma {:induction false} ReplayMore(calls: seq<Call>, call: Call)
    requires Replay(calls).Some?
    ensures Replay(calls + [call]) == Next(Replay(calls).value, call)
  {
    assert (calls + [call])[..|calls|] == calls;
  }

  function Balance(calls: seq<Call>): int {
    if calls == [] then 0
    else
      var last := calls[|calls| - 1];
      Balance(calls[..|calls| - 1]) + (if last.Took? then 1 else if last.Gave? then -1 else 0)
  }

  /** In a reentrant history the count is acquires minus releases, and a handle is held exactly while it is positive. */
  lemma {:induction false} ReplayBalances(calls: seq<Call>)
    requires Replay(calls).Some?
    ensures Replay(calls).value.count == Balance(calls)
    ensures Replay(calls).value.count > 0 <==> Replay(calls).value.handle.Some?
  {
    if calls != [] {
      ReplayBalances(calls[..|calls| - 1]);
    }
  }

  class RLock {
    /** The `Lock` this class extends. */
    const base: Lock
    var count: nat
    /** Every call so far. */
    ghost var calls: seq<Call>

    ghost predicate Valid()
      reads this, base, base.kernel
    {
      base.Valid() && base.kernel.cfg[base.me].kind.Plain? &&
      (base.fh.Some? ==> base.kernel.Of(base.me).at.Stored?) &&
      Replay(calls) == Some(Level(count, base.fh)) && (count > 0 <==> base.fh.Some?)
    }

    constructor (kernel: Kernel, clock: Clock, me: Actor, timeout: real, interval: real, failWhenLocked: bool)
      requires kernel.Valid() && me in kernel.own && kernel.Of(me).at.Idle? && kernel.cfg[me].kind.Plain?
      ensures Valid() && count == 0 && calls == [] && fresh(base) && base.kernel == kernel && base.clock == clock
    {
      base := new Lock(kernel, clock, me, timeout, interval, failWhenLocked);
      count, calls := 0, [];
    }

    method Acquire(timeout: Option<real>, interval: Option<real>, failWhenLocked: Option<bool>) returns (r: Outcome)
      requires Valid()
      modifies this, base, base.kernel, base.clock
      ensures Valid()
      ensures r.Success? ==>
                calls == old(calls) + [Took(r.value)] && count == old(count) + 1 && base.fh == Some(r.value)
      ensures r.Failure? ==> calls == old(calls) + [Failed] && old(count) == count == 0
      ensures old(count) > 0 ==> r.Success? && base.fh == old(base.fh) && base.kernel.st == old(base.kernel.st)
    {
      if count >= 1 {
        r := Success(base.fh.value);
      } else {
        ghost var n;
        r, n := base.Acquire(timeout, interval, failWhenLocked);
      }
      Note(if r.Success? then Took(r.value) else Failed);
      if r.Success? {
        count := count + 1;
      }
    }

    /** One more call in the history. */
    ghost method Note(call: Call)
      requires Replay(calls).Some?
      modifies this`calls
      ensures calls == old(calls) + [call] && Replay(calls) == Next(Replay(old(calls)).value, call)
    {
      ReplayMore(calls, call);
      calls := calls + [call];
    }

    /** The last release gives the lock up; its errors are suppressed. */
    method ReleaseBase()
      requires base.Valid() && base.kernel.cfg[base.me].kind.Plain?
      requires base.fh.Some? && base.kernel.Of(base.me).at.Stored?
      modifies base, base.kernel
      ensures base.Valid() && base.fh == None
      ensures GaveUp(old(base.kernel.Log(base.me)), base.kernel.Log(base.me))
    {
      var unlocked, closed := base.Release();
      assert base.kernel.Log(base.me) ==
        old(base.kernel.Log(base.me)) + [Discard, Unlock(unlocked), Close(closed)];
    }

    /** False is the `LockException` of a surplus release. */
    method Release() returns (ok: bool)
      requires Valid()
      modifies this, base, base.kernel
      ensures Valid() && (ok <==> old(count) > 0)
      ensures calls == old(calls) + [if ok then Gave else Surplus]
      ensures count == if ok then old(count) - 1 else old(count)
      ensures old(count) != 1 ==> base.fh == old(base.fh) && base.kernel.st == old(base.kernel.st)
      ensures old(count) == 1 ==> base.fh == None && GaveUp(old(base.kernel.Log(base.me)), base.kernel.Log(base.me))
    {
      ok := count > 0;
      Note(if ok then Gave else Surplus);
      if count == 1 {
        ReleaseBase();
      }
      if ok {
        count := count - 1;
      }
    }

    /** While the count is positive the handle is open and carries the flock of its file. */
    lemma PositiveCountIsLocked()
      requires Valid() && count > 0
      ensures var fs := base.kernel.st.fs; var h := base.fh.value;
              AtHandle(fs, h) && fs.handles[h].file in fs.owner && fs.owner[fs.handles[h].file] == h
    {
      WitnessedIsReachable(base.kernel.cfg, base.kernel.start, base.kernel.events, base.kernel.st);
      var me := base.me;
      assert ActorOk(base.kernel.cfg[me], base.kernel.st.fs, base.kernel.st.local[me], me);
    }
  }

  /** Any sequence of acquires (true) and releases (false), whichever of them fail. */
  method Exercise(lock: RLock, script: seq<bool>)
    requires lock.Valid()
    modifies lock, lock.base, lock.base.kernel, lock.base.clock
    ensures lock.Valid() && |lock.calls| == |old(lock.calls)| + |script|
    ensures lock.count == Balance(lock.calls)
    ensures forall i | 0 <= i < |script| ::
              var call := lock.calls[|old(lock.calls)| + i];
              if script[i] then call.Took? || call.Failed? else call.Gave? || call.Surplus?
  {
    for i := 0 to |script|
      invariant lock.Valid() && |lock.calls| == |old(lock.calls)| + i
      invariant forall k | 0 <= k < i ::
                  var call := lock.calls[|old(lock.calls)| + k];
                  if script[k] then call.Took? || call.Failed? else call.Gave? || call.Surplus?
    {
      if script[i] {
        var _ := lock.Acquire(None, None, None);
      } else {
        var _ := lock.Release();
      }
    }
    ReplayBalances(lock.calls);
  }
}
