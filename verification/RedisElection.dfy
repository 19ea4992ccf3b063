/** The decisions a `RedisLock` takes from one probe. */
module RedisElection {
  import opened Basics

  datatype Mode = Exclusive | Pending | Shared

  /** `RedisLockHolder` */
  datatype Holder = Holder(id: string, mode: Mode, legacy: bool)

  // ---- String order and sorting ----

  /** Python's `a < b` on strings. */
  predicate StrLess(a: string, b: string) {
    if b == [] then false
    else if a == [] then true
    else if a[0] != b[0] then a[0] < b[0]
    else StrLess(a[1..], b[1..])
  }

  lemma {:induction false} StrTotal(a: string, b: string)
    ensures a == b || StrLess(a, b) || StrLess(b, a)
  {
    if a != [] && b != [] && a[0] == b[0] {
      StrTotal(a[1..], b[1..]);
      assert a == [a[0]] + a[1..] && b == [b[0]] + b[1..];
    }
  }

  lemma {:induction false} StrIrreflexive(a: string)
    ensures !StrLess(a, a)
  {
    if a != [] {
      StrIrreflexive(a[1..]);
    }
  }

  lemma {:induction false} StrTransitive(a: string, b: string, c: string)
    requires StrLess(a, b) && StrLess(b, c)
    ensures StrLess(a, c)
  {
    if a != [] && a[0] == b[0] == c[0] {
      StrTransitive(a[1..], b[1..], c[1..]);
    }
  }

  function Insert(x: string, sorted: seq<string>): seq<string> {
    if sorted == [] || !StrLess(sorted[0], x) then [x] + sorted else [sorted[0]] + Insert(x, sorted[1..])
  }

  /** `sorted(ids)` */
  function Sorted(ids: seq<string>): seq<string> {
    if ids == [] then [] else Insert(ids[0], Sorted(ids[1..]))
  }

  ghost predicate Least(x: string, ids: seq<string>) {
    x in ids && forall y | y in ids :: !StrLess(y, x)
  }

  lemma {:induction false} InsertKeeps(x: string, s: seq<string>)
    ensures multiset(Insert(x, s)) == multiset(s)[x := multiset(s)[x] + 1]
    ensures Insert(x, s) != [] && Insert(x, s)[0] == if s == [] || !StrLess(s[0], x) then x else s[0]
  {
    if s != [] && StrLess(s[0], x) {
      InsertKeeps(x, s[1..]);
      assert s == [s[0]] + s[1..];
    }
  }

  /** Sorting permutes, and puts a least element first. */
  lemma {:induction false} SortedHeadIsLeast(ids: seq<string>)
    ensures multiset(Sorted(ids)) == multiset(ids)
    ensures ids != [] ==> Sorted(ids) != [] && Least(Sorted(ids)[0], ids)
  {
    if ids != [] {
      var x, rest := ids[0], ids[1..];
      SortedHeadIsLeast(rest);
      InsertKeeps(x, Sorted(rest));
      assert ids == [x] + rest;
      if rest != [] {
        var r := Sorted(rest)[0];
        if !StrLess(r, x) {
          forall y | y in ids ensures !StrLess(y, x) {
            if StrLess(y, x) {
              StrIrreflexive(x);
              StrTotal(x, r);
              if x != r {
                StrTransitive(y, x, r);
              }
            }
          }
        } else {
          forall y | y in ids ensures !StrLess(y, r) {
            if y == x && StrLess(y, r) {
              StrTransitive(x, r, x);
              StrIrreflexive(x);
            }
          }
        }
      } else {
        StrIrreflexive(x);
      }
    }
  }

  lemma LeastIsUnique(x: string, y: string, ids: seq<string>)
    requires Least(x, ids) && Least(y, ids)
    ensures x == y
  {
    StrTotal(x, y);
  }

  // ---- Election ----

  predicate AnyMode(holders: seq<Holder>, mode: Mode) {
    exists h | h in holders :: h.mode == mode
  }

  function PendingIds(holders: seq<Holder>): seq<string> {
    if holders == [] then []
    else (if holders[0].mode == Pending then [holders[0].id] else []) + PendingIds(holders[1..])
  }

  /** `_holders_are_compatible` */
  predicate HoldersAreCompatible(writer: bool, holders: seq<Holder>) {
    !writer && forall h | h in holders :: h.mode == Shared
  }

  /** `_writer_is_elected` */
  predicate WriterIsElected(me: string, holders: seq<Holder>) {
    if AnyMode(holders, Exclusive) then false
    else
      var sorted := Sorted(PendingIds(holders));
      sorted != [] && sorted[0] == me
  }

  lemma {:induction false} PendingIdsAre(holders: seq<Holder>, x: string)
    ensures x in PendingIds(holders) <==> exists h | h in holders :: h.mode == Pending && h.id == x
  {
    if holders != [] {
      PendingIdsAre(holders[1..], x);
      assert holders == [holders[0]] + holders[1..];
    }
  }

  ghost predicate LeastPending(me: string, holders: seq<Holder>) {
    (exists h | h in holders :: h.mode == Pending && h.id == me) &&
    forall h | h in holders && h.mode == Pending :: !StrLess(h.id, me)
  }

  /** Being elected is being the least pending id while nobody is exclusive. */
  lemma ElectedIsLeastPending(me: string, holders: seq<Holder>)
    ensures WriterIsElected(me, holders) <==> !AnyMode(holders, Exclusive) && LeastPending(me, holders)
  {
    var ids := PendingIds(holders);
    SortedHeadIsLeast(ids);
    PendingIdsAre(holders, me);
    forall h | h in holders && h.mode == Pending ensures h.id in ids {
      PendingIdsAre(holders, h.id);
    }
    forall y | y in ids ensures exists h | h in holders :: h.mode == Pending && h.id == y {
      PendingIdsAre(holders, y);
    }
    if ids == [] {
      assert Sorted(ids) == [];
    } else {
      assert LeastPending(me, holders) ==> Least(me, ids);
      if Least(me, ids) {
        LeastIsUnique(me, Sorted(ids)[0], ids);
      }
    }
  }

  /** All contenders that saw the same records, in whatever order, agree on every candidate. */
  lemma ElectionIgnoresOrder(me: string, holders: seq<Holder>, other: seq<Holder>)
    requires multiset(holders) == multiset(other)
    ensures WriterIsElected(me, holders) == WriterIsElected(me, other)
    ensures forall writer :: HoldersAreCompatible(writer, holders) == HoldersAreCompatible(writer, other)
  {
    assert forall h :: h in holders <==> h in multiset(holders);
    assert forall h :: h in other <==> h in multiset(other);
    ElectedIsLeastPending(me, holders);
    ElectedIsLeastPending(me, other);
  }

  /** At most one id is elected, and one is exactly when somebody is pending and nobody exclusive. */
  lemma OneIsElected(holders: seq<Holder>) returns (winner: Option<string>)
    ensures winner.Some? <==> AnyMode(holders, Pending) && !AnyMode(holders, Exclusive)
    ensures forall x :: WriterIsElected(x, holders) <==> winner == Some(x)
    ensures winner.Some? ==> LeastPending(winner.value, holders)
  {
    var ids := PendingIds(holders);
    SortedHeadIsLeast(ids);
    if AnyMode(holders, Pending) && !AnyMode(holders, Exclusive) {
      var h :| h in holders && h.mode == Pending;
      PendingIdsAre(holders, h.id);
      winner := Some(Sorted(ids)[0]);
      ElectedIsLeastPending(winner.value, holders);
    } else {
      winner := None;
      forall x ensures !WriterIsElected(x, holders) {
        ElectedIsLeastPending(x, holders);
      }
    }
  }

  // ---- Resolution ----

  datatype Resolution =
    | Taken(promoted: bool) // the lock is held
    | Keep                  // stay subscribed as the elected writer and retry
    | BackOff               // unsubscribe and retry
    | Fail                  // unsubscribe and raise AlreadyLocked

  /** `_resolve_lock_holders` for a lock that is (not) elected already. */
  function Resolve(writer: bool, me: string, elected: bool, probe: Option<seq<Holder>>, failWhenLocked: bool)
    : Resolution
  {
    if probe.Some? && HoldersAreCompatible(writer, probe.value) then Taken(false)
    else if probe.Some? && writer && WriterIsElected(me, probe.value) then
      if failWhenLocked then Fail
      else if !AnyMode(probe.value, Shared) then Taken(true)
      else Keep
    else if probe.None? && elected then Keep
    else if failWhenLocked then Fail
    else BackOff
  }

  /**
   A probe leads to ownership exactly when a reader sees only readers, or a retrying writer is next and alone
   with other candidates.
   */
  lemma TakenExactlyWhen(writer: bool, me: string, elected: bool, probe: Option<seq<Holder>>, failWhenLocked: bool)
    ensures Resolve(writer, me, elected, probe, failWhenLocked).Taken? <==>
            probe.Some? &&
            (if writer
             then !failWhenLocked && LeastPending(me, probe.value) && forall h | h in probe.value :: h.mode == Pending
             else forall h | h in probe.value :: h.mode == Shared)
  {
    if probe.Some? {
      ElectedIsLeastPending(me, probe.value);
    }
  }

  /**
   A client stays subscribed without holding in two cases: a retrying writer that is next sees nobody exclusive but
   still a reader, or the probe was inconclusive and the client was elected before.
   */
  lemma KeepExactlyWhen(writer: bool, me: string, elected: bool, probe: Option<seq<Holder>>, failWhenLocked: bool)
    ensures Resolve(writer, me, elected, probe, failWhenLocked).Keep? <==>
            match probe
            case None => elected
            case Some(holders) =>
              writer && !failWhenLocked && LeastPending(me, holders) &&
              (forall h | h in holders :: h.mode != Exclusive) && exists h | h in holders :: h.mode == Shared
  {
    if probe.Some? {
      ElectedIsLeastPending(me, probe.value);
    }
  }

  /** It fails exactly under `fail_when_locked`, when the probe neither shows readers only to a reader nor is idle. */
  lemma FailExactlyWhen(writer: bool, me: string, elected: bool, probe: Option<seq<Holder>>, failWhenLocked: bool)
    ensures Resolve(writer, me, elected, probe, failWhenLocked).Fail? <==>
            failWhenLocked &&
            match probe
            case None => !elected
            case Some(holders) => writer || exists h | h in holders :: h.mode != Shared
  {
  }

  /**
   It gives up its subscription to retry exactly without `fail_when_locked`: after an inconclusive probe unless it
   was elected, as a reader that sees a writer, and as a writer that is not next or sees an exclusive holder.
   */
  lemma BackOffExactlyWhen(writer: bool, me: string, elected: bool, probe: Option<seq<Holder>>, failWhenLocked: bool)
    ensures Resolve(writer, me, elected, probe, failWhenLocked).BackOff? <==>
            !failWhenLocked &&
            match probe
            case None => !elected
            case Some(holders) =>
              if writer then !LeastPending(me, holders) || exists h | h in holders :: h.mode == Exclusive
              else exists h | h in holders :: h.mode != Shared
  {
    if probe.Some? {
      ElectedIsLeastPending(me, probe.value);
    }
  }

  /** Taking the lock turns the client's mode to exclusive exactly for a writer. */
  lemma PromotedExactlyWhen(writer: bool, me: string, elected: bool, probe: Option<seq<Holder>>, failWhenLocked: bool)
    requires Resolve(writer, me, elected, probe, failWhenLocked).Taken?
    ensures Resolve(writer, me, elected, probe, failWhenLocked).promoted <==> writer
  {
  }

  /** An inconclusive probe never grants the lock, and never costs an elected writer its place. */
  lemma InconclusiveProbeIsHarmless(writer: bool, me: string, elected: bool, failWhenLocked: bool)
    ensures !Resolve(writer, me, elected, None, failWhenLocked).Taken?
    ensures elected <==> Resolve(writer, me, elected, None, failWhenLocked).Keep?
  {
  }
}
