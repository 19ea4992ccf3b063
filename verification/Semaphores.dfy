/** `BoundedSemaphore`: at most `maximum` holders, one per slot file. */
module Semaphores {
  import opened Basics
  import Decimal
  import opened FileProtocol
  import opened FileTheorems
  import opened Kernels
  import opened RetryPacing
  import opened LockFiles

  /** `pathlib.Path(directory) / '{name}.{number:02d}.lock'` */
  function SlotPath(directory: string, name: string, number: nat): Path {
    (if directory == "" then "" else directory + "/") + name + "." + Decimal.Padded(number) + ".lock"
  }

  /** The default naming gives different slots different files. */
  lemma SlotPathsDiffer(directory: string, name: string, m: nat, n: nat)
    requires SlotPath(directory, name, m) == SlotPath(directory, name, n)
    ensures m == n
  {
    var head := (if directory == "" then "" else directory + "/") + name + ".";
    var u, v := SlotPath(directory, name, m), SlotPath(directory, name, n);
    assert u == head + Decimal.Padded(m) + ".lock" && v == head + Decimal.Padded(n) + ".lock";
    assert |Decimal.Padded(m)| == |Decimal.Padded(n)|;
    assert u[|head|..|u| - 5] == Decimal.Padded(m) && v[|head|..|v| - 5] == Decimal.Padded(n);
    Decimal.ParseNatOfPadded(m);
    Decimal.ParseNatOfPadded(n);
  }

  ghost function SlotPaths(directory: string, name: string, maximum: int): set<Path> {
    set n | 0 <= n < maximum :: SlotPath(directory, name, n)
  }

  lemma {:induction false} FewSlots(directory: string, name: string, maximum: int)
    ensures |SlotPaths(directory, name, maximum)| <= if maximum < 0 then 0 else maximum
    decreases if maximum < 0 then 0 else maximum
  {
    var all := SlotPaths(directory, name, maximum);
    if maximum <= 0 {
      assert all == {};
    } else {
      FewSlots(directory, name, maximum - 1);
      assert all == SlotPaths(directory, name, maximum - 1) + {SlotPath(directory, name, maximum - 1)};
    }
  }

  /** The lock objects, of whichever process and semaphore object, that hold one of these files. */
  ghost function SlotHolders(cfg: Configs, s: State, slots: set<Path>): set<Actor> {
    set a | a in cfg && At(s, a).at.Stored? && cfg[a].path in slots
  }

  lemma {:induction false} HoldersFitSlots(cfg: Configs, s: State, slots: set<Path>)
    requires WellConfigured(cfg) && Reachable(cfg, s) && forall p | p in slots :: PlainPath(cfg, p)
    ensures |SlotHolders(cfg, s, slots)| <= |slots|
    decreases |slots|
  {
    var holders := SlotHolders(cfg, s, slots);
    if slots == {} {
      assert holders == {};
    } else {
      var p :| p in slots;
      HoldersFitSlots(cfg, s, slots - {p});
      var rest := SlotHolders(cfg, s, slots - {p});
      assert |slots| == |slots - {p}| + 1;
      if a :| a in holders && cfg[a].path == p {
        forall b | b in holders && b != a ensures b in rest {
          if cfg[b].path == p {
            PlainExclusion(cfg, s, a, b);
          }
        }
        assert holders == rest + {a};
      } else {
        assert holders == rest;
      }
    }
  }

  /**
   Under every interleaving of sweeps, releases and crashes there are at most `maximum` holders,
   and no two of them hold the same slot.
   */
  lemma AtMostMaximumHolders(cfg: Configs, s: State, directory: string, name: string, maximum: int)
    requires WellConfigured(cfg) && Reachable(cfg, s)
    requires forall p | p in SlotPaths(directory, name, maximum) :: PlainPath(cfg, p)
    ensures var holders := SlotHolders(cfg, s, SlotPaths(directory, name, maximum));
            |holders| <= (if maximum < 0 then 0 else maximum) &&
            forall a, b | a in holders && b in holders && cfg[a].path == cfg[b].path :: a == b
  {
    var slots := SlotPaths(directory, name, maximum);
    HoldersFitSlots(cfg, s, slots);
    FewSlots(directory, name, maximum);
    forall a, b | a in SlotHolders(cfg, s, slots) && b in SlotHolders(cfg, s, slots) && cfg[a].path == cfg[b].path
      ensures a == b
    {
      PlainExclusion(cfg, s, a, b);
    }
  }

  datatype Sweep = Taken(slot: nat) | AllTaken | Raised(error: Error)

  class BoundedSemaphore {
    const kernel: Kernel
    const clock: Clock
    const maximum: int
    const name: string
    const directory: string
    const timeout: real
    const interval: real
    const failWhenLocked: bool
    /** The identities of the `Lock` objects a sweep creates, one per slot. */
    const slots: seq<Actor>
    var lock: Lock?

    ghost predicate Configured()
      reads kernel
    {
      kernel.Valid() && |slots| == (if maximum < 0 then 0 else maximum) &&
      forall n | 0 <= n < |slots| ::
        slots[n] in kernel.own && kernel.cfg[slots[n]] == Config(SlotPath(directory, name, n), Plain)
    }

    ghost predicate IdleExcept(me: Option<Actor>)
      reads kernel
    {
      forall n | 0 <= n < |slots| && me != Some(slots[n]) :: kernel.Of(slots[n]).at.Idle?
    }

    ghost predicate Valid()
      reads this, kernel, lock
    {
      Configured() &&
      (lock == null ==> IdleExcept(None)) &&
      (lock != null ==>
         lock.kernel == kernel && lock.clock == clock && lock.Valid() && lock.me in slots &&
         lock.fh.Some? && kernel.Of(lock.me).at.Stored? && kernel.cfg[lock.me].kind.Plain? &&
         IdleExcept(Some(lock.me)))
    }

    constructor (kernel: Kernel, clock: Clock, maximum: int, name: string, directory: string,
                 timeout: real, interval: real, failWhenLocked: bool, slots: seq<Actor>)
      requires kernel.Valid() && |slots| == if maximum < 0 then 0 else maximum
      requires forall n | 0 <= n < |slots| ::
                 slots[n] in kernel.own && kernel.cfg[slots[n]] == Config(SlotPath(directory, name, n), Plain) &&
                 kernel.Of(slots[n]).at.Idle?
      ensures Valid() && lock == null && this.kernel == kernel && this.maximum == maximum
      ensures this.name == name && this.directory == directory && this.slots == slots
    {
      this.kernel, this.clock, this.maximum := kernel, clock, maximum;
      this.name, this.directory, this.slots := name, directory, slots;
      this.timeout, this.interval, this.failWhenLocked := timeout, interval, failWhenLocked;
      lock := null;
    }

    /** What became of one candidate, and what its one attempt was answered if its file could be opened. */
    method TrySlot(n: nat) returns (r: Sweep, ghost tally: Tally)
      requires Valid() && lock == null && n < |slots|
      modifies this, kernel, clock
      ensures Valid() && clock.now >= old(clock.now)
      ensures r.Taken? <==> lock != null
      ensures r.Taken? ==> r.slot == n && lock.me == slots[n] && fresh(lock)
      ensures r.AllTaken? <==> tally.Tried? && tally.last.Denied?
      ensures r.Raised? ==> r.error == if tally.Tried? && tally.last.Broken? then PlainLockException else OtherError
      ensures tally.Tried? && tally.last.Granted? ==> r == Taken(n) || r == Raised(OtherError)
    {
      var candidate := new Lock(kernel, clock, slots[n], DEFAULT_TIMEOUT, DEFAULT_CHECK_INTERVAL, true);
      var outcome;
      outcome, tally := candidate.Acquire(None, None, None);
      if outcome.Success? {
        lock := candidate;
        r := Taken(n);
      } else if outcome.error == AlreadyLocked {
        r := AllTaken;
      } else {
        r := Raised(outcome.error);
      }
    }

    /**
     `try_lock`: one sweep over the candidates, keeping the first that locks. `refused` are the candidates found
     locked by somebody else, in the order they were tried, and `answers` the refusals.
     */
    method TryLock(candidates: seq<nat>) returns (r: Sweep, ghost refused: seq<nat>, ghost answers: seq<Flocked>)
      requires Valid() && lock == null && forall n | n in candidates :: n < |slots|
      modifies this, kernel, clock
      ensures Valid() && clock.now >= old(clock.now)
      ensures r.Taken? <==> lock != null
      ensures r.Taken? ==> r.slot < |slots| && lock.me == slots[r.slot] && fresh(lock)
      ensures r.AllTaken? ==> refused == candidates
      ensures !r.AllTaken? ==> |refused| < |candidates| && refused == candidates[..|refused|]
      ensures r.Taken? ==> r.slot == candidates[|refused|]
      ensures r.Raised? ==> r.error != AlreadyLocked
      ensures |answers| == |refused| && forall k | 0 <= k < |answers| :: answers[k].Denied?
    {
      refused, answers := [], [];
      for i := 0 to |candidates|
        invariant Valid() && lock == null && clock.now >= old(clock.now) && refused == candidates[..i]
        invariant |answers| == |refused| && forall k | 0 <= k < |answers| :: answers[k].Denied?
        modifies this, kernel, clock
      {
        assert candidates[i] in candidates;
        ghost var tally;
        r, tally := TrySlot(candidates[i]);
        if !r.AllTaken? {
          return;
        }
        refused, answers := refused + [candidates[i]], answers + [tally.last];
      }
      r := AllTaken;
    }

    /** All slot numbers, lowest first. */
    function AllSlots(): (s: seq<nat>)
      ensures |s| == |slots| && forall n | 0 <= n < |slots| :: s[n] == n
    {
      seq(|slots|, n => n)
    }

    /**
     `acquire`: sweep in numerical order until a slot is free or time is up. `sweeps` are the sweeps that found
     every candidate locked.
     */
    method Acquire(timeout: Option<real>, interval: Option<real>, failWhenLocked: Option<bool>)
      returns (r: Sweep, ghost sweeps: seq<seq<nat>>)
      requires Valid()
      modifies this, kernel, clock
      ensures Valid()
      ensures old(lock) != null ==> r == Raised(OtherError) && lock == old(lock) && kernel.st == old(kernel.st)
      ensures old(lock) == null ==> (r.Taken? <==> lock != null)
      ensures old(lock) == null && r.Taken? ==> r.slot < |slots| && lock.me == slots[r.slot]
      ensures r.AllTaken? ==> !Coalesce(failWhenLocked, this.failWhenLocked)
      ensures r == Raised(AlreadyLocked) ==> Coalesce(failWhenLocked, this.failWhenLocked)
      ensures forall sweep | sweep in sweeps :: |sweep| == |slots| && forall n | 0 <= n < |slots| :: sweep[n] == n
      ensures r.AllTaken? || r == Raised(AlreadyLocked) ==>
                |sweeps| >= 1 && clock.now >= old(clock.now) + Coalesce(timeout, this.timeout)
    {
      sweeps := [];
      if lock != null {
        return Raised(OtherError), sweeps; // the assertion 'Already locked'
      }
      var gen := new RetryGenerator(clock, Coalesce(timeout, this.timeout), Coalesce(interval, this.interval));
      while true
        invariant Valid() && lock == null && gen.Valid() && !gen.progress.Ended?
        invariant gen.clock == clock && fresh(gen) && clock.now >= old(clock.now) && |sweeps| == gen.Count()
        invariant gen.progress.Timed? ==> gen.progress.start >= old(clock.now)
        invariant forall sweep | sweep in sweeps :: sweep == AllSlots()
        modifies this, kernel, clock, gen
        decreases MaxAttempts(gen.timeout, gen.interval) - gen.Count()
      {
        var attempt := gen.Next(clock.now, 0.0);
        gen.CountBounded();
        if attempt.None? {
          r := if Coalesce(failWhenLocked, this.failWhenLocked) then Raised(AlreadyLocked) else AllTaken;
          return;
        }
        ghost var refused, answers;
        r, refused, answers := TryLock(AllSlots());
        if !r.AllTaken? {
          return;
        }
        sweeps := sweeps + [refused];
      }
    }

    method Release()
      requires Valid()
      modifies this, lock, kernel
      ensures Valid() && lock == null
      ensures old(lock) == null ==> kernel.st == old(kernel.st)
      ensures old(lock) != null ==> GaveUp(old(kernel.Log(lock.me)), kernel.Log(old(lock).me))
    {
      if lock != null {
        var unlocked, closed := lock.Release();
        assert kernel.Log(lock.me) == old(kernel.Log(lock.me)) + [Discard, Unlock(unlocked), Close(closed)];
        lock := null;
      }
    }

    /** While a slot is held, all holders of this semaphore anywhere number at most `maximum`, this one among them. */
    lemma HeldSlotCounts()
      requires Valid() && lock != null
      requires forall p | p in SlotPaths(directory, name, maximum) :: PlainPath(kernel.cfg, p)
      ensures var holders := SlotHolders(kernel.cfg, kernel.st, SlotPaths(directory, name, maximum));
              lock.me in holders && |holders| <= maximum
    {
      WitnessedIsReachable(kernel.cfg, kernel.start, kernel.events, kernel.st);
      AtMostMaximumHolders(kernel.cfg, kernel.st, directory, name, maximum);
      var n :| 0 <= n < |slots| && slots[n] == lock.me;
      assert SlotPath(directory, name, n) in SlotPaths(directory, name, maximum);
    }
  }
}
