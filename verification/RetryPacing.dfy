/** `LockBase._timeout_generator`: when attempts happen, and how many there can be. */
module RetryPacing {
  import opened Basics

  function Max(a: real, b: real): real {
    if a < b then b else a
  }

  const MIN_SLEEP := 0.001

  /** When the sleep after attempt `i` ends at the earliest: `i` intervals after the start. */
  function Due(i: nat, interval: real): real {
    if i == 0 then 0.0 else Due(i - 1, interval) + interval
  }

  /** The guaranteed spacing of attempts after the first timed one. */
  function Gap(interval: real): (g: real)
    ensures g >= MIN_SLEEP
  {
    Max(interval, MIN_SLEEP)
  }

  function Ceiling(x: real): int {
    -((-x).Floor)
  }

  /** The most attempts a generator makes: the untimed one plus `ceil(timeout / gap)`. */
  function MaxAttempts(timeout: real, interval: real): nat {
    if timeout <= 0.0 then 1
    else assert timeout / Gap(interval) > 0.0; 1 + Ceiling(timeout / Gap(interval))
  }

  type Duration = d: real | 0.0 <= d

  /** When a retry loop whose attempts take up to `longest` seconds is over, counted from its beginning. */
  function LoopTime(timeout: real, interval: real, longest: Duration): Duration {
    longest + Max(timeout, 0.0) + Max(interval, longest + MIN_SLEEP)
  }

  /**
   `time.perf_counter` and `time.sleep`. Any amount of time may pass before a reading and beyond a
   requested sleep; on an `exact` clock only sleeps and attempts take time, an attempt at most `longest`.
   */
  class Clock {
    ghost const exact: bool
    const longest: Duration
    var now: real

    constructor (ghost exact: bool, longest: Duration, now: real)
      ensures this.exact == exact && this.longest == longest && this.now == now
    {
      this.exact, this.longest := exact, longest;
      this.now := now;
    }

    method Read() returns (t: real)
      modifies this
      ensures t == now >= old(now) && (exact ==> now == old(now))
    {
      t := now;
    }

    method Sleep(d: real)
      requires d >= 0.0
      modifies this
      ensures now >= old(now) + d && (exact ==> now == old(now) + d)
    {
      now := now + d;
    }

    /** An attempt. */
    method Work()
      modifies this
      ensures now >= old(now) && (exact ==> now <= old(now) + longest)
    {
      var d: real := *;
      if 0.0 <= d <= longest {
        now := now + d;
      }
    }

    /** An attempt that takes `d` seconds. */
    method Spend(d: real)
      requires d >= 0.0
      modifies this
      ensures now == old(now) + d
    {
      now := now + d;
    }
  }

  datatype Progress = Fresh | Untimed | Timed(start: real, i: nat) | Ended(start: real, i: nat)

  class RetryGenerator {
    const clock: Clock
    const timeout: real
    const interval: real
    var progress: Progress
    /** Seconds after the start at which attempts 1, 2, ... were let through. */
    ghost var times: seq<real>

    ghost predicate Valid()
      reads this, clock
    {
      Spaced(interval, timeout, times) &&
      match progress
      case Fresh => times == []
      case Untimed => times == []
      case Timed(start, i) => |times| == i > 0 && start + times[i - 1] <= clock.now
      case Ended(start, i) => |times| == i
    }

    /**
     On an exact clock: begun at `begin` with attempts of up to `longest` seconds, and no more than `slack`
     seconds after the generator last let an attempt through.
     */
    ghost predicate OnTime(begin: real, longest: Duration, slack: real)
      reads this, clock
    {
      clock.exact ==>
        match progress
        case Fresh => clock.now <= begin
        case Untimed => clock.now <= begin + slack
        case Timed(start, i) =>
          0 < i <= |times| && start <= begin + longest && clock.now <= start + times[i - 1] + slack
        case Ended(_, _) => clock.now <= begin + LoopTime(timeout, interval, longest)
    }

    /** Begun at `begin` and not ended yet. */
    ghost predicate Running(begin: real, longest: Duration, slack: real)
      reads this, clock
    {
      Valid() && !progress.Ended? && clock.now >= begin && Count() <= MaxAttempts(timeout, interval) &&
      (progress.Timed? ==> progress.start >= begin) && OnTime(begin, longest, slack)
    }

    /** Within any attempt, no more time has passed than the whole loop may take. */
    lemma WithinLoopTime(begin: real, longest: Duration)
      requires Running(begin, longest, longest)
      ensures clock.exact ==> clock.now <= begin + LoopTime(timeout, interval, longest)
    {
    }

    /** Resume a loop whose attempts take up to `longest` seconds each. */
    method Resume(ghost begin: real, ghost longest: Duration) returns (attempt: Option<nat>)
      requires Running(begin, longest, longest)
      modifies this, clock
      ensures attempt.Some? ==> Running(begin, longest, 0.0) && Count() == old(Count()) + 1
      ensures clock.now >= old(clock.now)
      ensures attempt.None? ==> old(Count()) > 0 && Count() == old(Count()) && clock.now >= begin + timeout &&
                                (clock.exact ==> clock.now <= begin + LoopTime(timeout, interval, longest))
    {
      attempt := Next(begin, longest);
      CountBounded();
    }

    /** Attempts made so far. */
    function Count(): nat
      reads this
    {
      match progress
      case Fresh => 0
      case Untimed => 1
      case Timed(_, i) => 1 + i
      case Ended(_, i) => 1 + i
    }

    constructor (clock: Clock, timeout: real, interval: real)
      ensures Valid() && progress == Fresh && times == []
      ensures this.clock == clock && this.timeout == timeout && this.interval == interval
    {
      this.clock := clock;
      this.timeout := timeout;
      this.interval := interval;
      progress := Fresh;
      times := [];
    }

    /** The trailing sleep of an attempt: at least a millisecond, and until `i` intervals have passed. */
    method Pause(start: real, i: nat)
      modifies clock
      ensures clock.now >= old(clock.now) + MIN_SLEEP && clock.now >= start + Due(i, interval)
      ensures clock.exact ==> clock.now == Max(old(clock.now) + MIN_SLEEP, start + Due(i, interval))
    {
      var t := clock.Read();
      var sinceStart := t - start;
      clock.Sleep(Max(MIN_SLEEP, Due(i, interval) - sinceStart));
    }

    /** The loop condition: let attempt `i + 1` through, or end. */
    method Decide(start: real, i: nat) returns (attempt: Option<nat>)
      requires Spaced(interval, timeout, times) && |times| == i && clock.now >= start
      requires i > 0 ==> clock.now >= start + Due(i, interval) && clock.now >= start + times[i - 1] + MIN_SLEEP
      modifies this, clock
      ensures Valid() && clock.now >= old(clock.now) && (clock.exact ==> clock.now == old(clock.now))
      ensures attempt.None? ==> progress == Ended(start, i) && clock.now >= start + timeout
      ensures attempt.Some? ==>
                attempt == Some(i + 1) && progress == Timed(start, i + 1) && clock.now == start + times[i]
    {
      var t := clock.Read();
      if start + timeout > t {
        Spacing(interval, timeout, times, i, t - start);
        times := times + [t - start];
        progress := Timed(start, i + 1);
        attempt := Some(i + 1);
      } else {
        progress := Ended(start, i);
        attempt := None;
      }
    }

    /** Resume the generator; None is the end of the iteration. */
    method Next(ghost begin: real, ghost longest: Duration) returns (attempt: Option<nat>)
      requires Valid() && !progress.Ended?
      modifies this, clock
      ensures old(OnTime(begin, longest, longest)) ==> OnTime(begin, longest, 0.0)
      ensures Valid() && clock.now >= old(clock.now)
      ensures attempt.None? <==> progress.Ended?
      ensures attempt.Some? ==> attempt.value == old(Count()) && Count() == old(Count()) + 1
      ensures attempt.None? ==> Count() == old(Count()) && clock.now >= progress.start + timeout
      ensures old(progress).Fresh? ==> progress.Untimed? && clock.now == old(clock.now)
      ensures progress.Timed? ==> clock.now == progress.start + times[progress.i - 1]
      ensures !old(progress).Fresh? ==> progress.Timed? || progress.Ended?
      ensures old(progress).Untimed? ==> progress.start >= old(clock.now)
      ensures old(progress).Untimed? && clock.exact ==> progress.start == old(clock.now) == clock.now
      ensures old(progress).Timed? ==> progress.start == old(progress).start
      ensures old(progress).Timed? && clock.exact ==>
                clock.now == Max(old(clock.now) + MIN_SLEEP,
                                 old(progress).start + Due(old(progress).i, interval))
    {
      match progress
      case Fresh =>
        progress := Untimed;
        attempt := Some(0);
      case Untimed =>
        var start := clock.Read();
        attempt := Decide(start, 0);
      case Timed(start, i) =>
        DueBeforeYield(interval, timeout, times, i - 1);
        Pause(start, i);
        attempt := Decide(start, i);
    }

    /** However long attempts take, there are at most `MaxAttempts` of them. */
    lemma CountBounded()
      requires Valid()
      ensures Count() <= MaxAttempts(timeout, interval)
    {
      AttemptsBounded(interval, timeout, times);
    }
  }

  /** Attempt k + 1 comes no earlier than k gaps after the start and strictly before the timeout. */
  ghost predicate Spaced(interval: real, timeout: real, times: seq<real>) {
    forall k | 0 <= k < |times| :: 0.0 <= times[k] && k as real * Gap(interval) <= times[k] < timeout
  }

  lemma {:induction false} DueIsLinear(i: nat, interval: real)
    ensures Due(i, interval) == i as real * interval
  {
    if i > 0 {
      DueIsLinear(i - 1, interval);
      assert (i - 1) as real * interval + interval == i as real * interval;
    }
  }

  lemma {:induction false} Spacing(interval: real, timeout: real, times: seq<real>, n: nat, next: real)
    requires Spaced(interval, timeout, times) && 0.0 <= next < timeout && n == |times|
    requires n > 0 ==> next >= Due(n, interval) && next >= times[n - 1] + MIN_SLEEP
    ensures Spaced(interval, timeout, times + [next])
  {
    if n > 0 {
      DueIsLinear(n, interval);
      var last := times[n - 1];
      assert (n - 1) as real * Gap(interval) <= last;
      assert (n - 1) as real * MIN_SLEEP + MIN_SLEEP == n as real * MIN_SLEEP;
    }
  }

  lemma AttemptsBounded(interval: real, timeout: real, times: seq<real>)
    requires Spaced(interval, timeout, times)
    ensures 1 + |times| <= MaxAttempts(timeout, interval)
  {
    if times != [] {
      var k := |times| - 1;
      assert times[k] < timeout;
      DivideStrictly(k as real, Gap(interval), timeout);
      assert Ceiling(timeout / Gap(interval)) as real >= timeout / Gap(interval);
    }
  }

  /** The bound is the least: attempts exactly one gap apart reach it. */
  lemma {:induction false} BoundIsReached(interval: real, timeout: real) returns (times: seq<real>)
    ensures Spaced(interval, timeout, times) && 1 + |times| == MaxAttempts(timeout, interval)
  {
    var g, n := Gap(interval), MaxAttempts(timeout, interval) - 1;
    times := seq(n, k requires 0 <= k < n => k as real * g);
    forall k | 0 <= k < n ensures times[k] < timeout {
      var q := timeout / g;
      assert q * g == timeout && k as real <= Ceiling(q) as real - 1.0 < q;
      assert (q - k as real) * g == timeout - k as real * g;
      assert (q - k as real) * g > 0.0;
    }
  }

  /** In seconds: attempt k + 1 starts before the timeout, and at least k intervals and k milliseconds in. */
  lemma SpacedInSeconds(interval: real, timeout: real, times: seq<real>, k: nat)
    requires Spaced(interval, timeout, times) && k < |times|
    ensures k as real * 0.001 <= times[k] < timeout && k as real * interval <= times[k]
  {
    TimesAtLeast(k as real, 0.001, Gap(interval));
    TimesAtLeast(k as real, interval, Gap(interval));
  }

  lemma TimesAtLeast(k: real, x: real, y: real)
    requires k >= 0.0 && x <= y
    ensures k * x <= k * y
  {
    assert k * y - k * x == k * (y - x);
  }

  lemma DivideStrictly(k: real, g: real, t: real)
    requires g > 0.0 && k * g < t
    ensures k < t / g
  {
    var q := t / g;
    assert q * g == t;
    assert (q - k) * g == q * g - k * g;
    Positive(q - k, g);
  }

  lemma Positive(x: real, g: real)
    requires g > 0.0 && x * g > 0.0
    ensures x > 0.0
  {
  }

  lemma {:induction false} DueBeforeYield(interval: real, timeout: real, times: seq<real>, k: nat)
    requires Spaced(interval, timeout, times) && k < |times|
    ensures Due(k, interval) <= times[k]
  {
    DueIsLinear(k, interval);
    if interval < Gap(interval) {
      assert k as real * interval <= k as real * Gap(interval);
    }
  }

  /**
   Run a generator dry with attempts that all fail: attempt k takes `work(k)`, at most `longest`.
   With exact sleeps it ends by the timeout plus one interval or one attempt, whichever is longer.
   */
  method Exhaust(gen: RetryGenerator, work: nat -> real, ghost longest: real) returns (attempts: nat)
    requires gen.Valid() && gen.progress.Fresh? && gen.clock.exact && gen.timeout >= 0.0
    requires forall k :: 0.0 <= work(k) <= longest
    modifies gen, gen.clock
    ensures gen.Valid() && gen.progress.Ended? && attempts == gen.Count() <= MaxAttempts(gen.timeout, gen.interval)
    ensures gen.clock.now <= gen.progress.start + gen.timeout + Max(gen.interval, longest + MIN_SLEEP)
  {
    attempts := 0;
    assert 0.0 <= work(0) <= longest;
    while true
      invariant gen.Valid() && !gen.progress.Ended? && gen.Count() == attempts
      invariant gen.progress.Timed? ==>
                  gen.clock.now <= gen.progress.start + gen.times[gen.progress.i - 1] + longest
      decreases MaxAttempts(gen.timeout, gen.interval) - attempts
    {
      if gen.progress.Timed? {
        DueBeforeYield(gen.interval, gen.timeout, gen.times, gen.progress.i - 1);
        assert gen.clock.now < gen.progress.start + gen.timeout + longest;
        assert Due(gen.progress.i, gen.interval) < gen.timeout + gen.interval;
      }
      var attempt := gen.Next(gen.clock.now, 0.0);
      gen.CountBounded();
      if attempt.None? {
        return;
      }
      attempts := attempts + 1;
      gen.clock.Spend(work(attempt.value));
    }
  }
}
