/**
 The `__cause__` links a failed PID publication leaves behind: in-place splicing of the cleanup
 errors between the publication error and its earlier causes.
 */
module CauseChains {

  class Exc {
    /** `__cause__` */
    var cause: Exc?

    constructor ()
      ensures cause == null
    {
      cause := null;
    }
  }

  /** Following causes from `e` visits exactly `s` and then ends. */
  ghost predicate IsChain(e: Exc?, s: seq<Exc>)
    reads s
  {
    (e == null <==> s == []) &&
    (s != [] ==> s[0] == e && s[|s| - 1].cause == null) &&
    forall i | 0 <= i < |s| - 1 :: s[i].cause == s[i + 1]
  }

  ghost predicate Disjoint(a: seq<Exc>, b: seq<Exc>) {
    forall x | x in a :: x !in b
  }

  /** A finite chain is determined by its first exception. */
  lemma {:induction false} ChainUnique(e: Exc?, s: seq<Exc>, t: seq<Exc>)
    requires IsChain(e, s) && IsChain(e, t)
    ensures s == t
    decreases |s|
  {
    if e != null {
      assert |s| > 1 ==> s[0].cause == s[0 + 1];
      assert |t| > 1 ==> t[0].cause == t[0 + 1];
    }
    if e != null && |s| > 1 {
      ChainUnique(s[1], s[1..], t[1..]);
      assert s == [s[0]] + s[1..] && t == [t[0]] + t[1..];
    }
  }

  lemma SuffixIsChain(e: Exc?, s: seq<Exc>, i: nat)
    requires IsChain(e, s) && i < |s|
    ensures IsChain(s[i], s[i..])
  {
  }

  /** A finite chain visits nothing twice. */
  lemma ChainHasNoRepeats(e: Exc?, s: seq<Exc>)
    requires IsChain(e, s)
    ensures forall i, j | 0 <= i < j < |s| :: s[i] != s[j]
  {
    forall i, j | 0 <= i < j < |s| ensures s[i] != s[j] {
      SuffixIsChain(e, s, i);
      SuffixIsChain(e, s, j);
      if s[i] == s[j] {
        ChainUnique(s[i], s[i..], s[j..]);
        assert false;
      }
    }
  }

  /** Chains that meet end in the same exception. */
  lemma MeetingChainsShareTail(d: Exc?, s: seq<Exc>, e: Exc?, t: seq<Exc>, i: nat, j: nat)
    requires IsChain(d, s) && IsChain(e, t) && i < |s| && j < |t| && s[i] == t[j]
    ensures s[|s| - 1] == t[|t| - 1]
  {
    SuffixIsChain(d, s, i);
    SuffixIsChain(e, t, j);
    ChainUnique(s[i], s[i..], t[j..]);
    assert s[|s| - 1] == s[i..][|s| - i - 1] && t[|t| - 1] == t[j..][|t| - j - 1];
  }

  /** Nobody in `ring` leads out of it or ends. */
  ghost predicate Ring(ring: set<Exc>)
    reads ring
  {
    forall x | x in ring :: x.cause != null && x.cause in ring
  }

  /** From inside a ring the walk along causes never ends. */
  lemma {:induction false} RingHasNoChain(e: Exc, s: seq<Exc>, ring: set<Exc>)
    requires e in ring && Ring(ring)
    ensures !IsChain(e, s)
    decreases |s|
  {
    if IsChain(e, s) {
      if |s| > 1 {
        assert s[0].cause == s[1];
        RingHasNoChain(s[1], s[1..], ring);
        SuffixIsChain(e, s, 1);
      }
      assert false;
    }
  }

  /** Where `n` steps along causes lead, as long as they stay among `within`. */
  ghost function Follow(e: Exc?, n: nat, within: set<Exc>): Exc?
    reads within
  {
    if n == 0 then e
    else
      var x := Follow(e, n - 1, within);
      if x in within then x.cause else null
  }

  /** A tail walk that starts in a ring finds a further cause after any number of steps: it never ends. */
  lemma {:induction false} TailWalkNeverEnds(cleanup: Exc, ring: set<Exc>, n: nat)
    requires cleanup in ring && Ring(ring)
    ensures Follow(cleanup, n, ring) in ring && Follow(cleanup, n, ring).cause != null
  {
    if n > 0 {
      TailWalkNeverEnds(cleanup, ring, n - 1);
    }
  }

  /**
   The end of `PidFileLock.acquire`: `error` is raised from `cleanup`, whose last cause is linked to
   the causes `error` already had. The result is a finite chain exactly when the two had nothing in common.
   */
  method Splice(error: Exc, cleanup: Exc, ghost ps: seq<Exc>, ghost cs: seq<Exc>)
    requires IsChain(error, ps) && IsChain(cleanup, cs)
    modifies ps, cs
    ensures Disjoint(ps, cs) ==> IsChain(error, [error] + cs + ps[1..])
    ensures !Disjoint(ps, cs) ==> forall s: seq<Exc> :: !IsChain(error, s)
  {
    ghost var last := |cs| - 1;
    ChainHasNoRepeats(error, ps);
    ChainHasNoRepeats(cleanup, cs);
    if !Disjoint(ps, cs) {
      TailIsShared(error, ps, cleanup, cs);
    }
    var publicationCause := error.cause;
    if publicationCause != null {
      var tail := cleanup;
      ghost var i := 0;
      while tail.cause != null
        invariant 0 <= i <= last && tail == cs[i] && (i < last ==> tail.cause == cs[i + 1])
        decreases last - i
      {
        tail := tail.cause;
        i := i + 1;
      }
      tail.cause := publicationCause;
    }
    error.cause := cleanup;
    forall k | 0 <= k < last && cs[k] != error ensures cs[k].cause == cs[k + 1] {
      assert old(cs[k].cause) == cs[k + 1];
    }
    forall k | 1 <= k < |ps| - 1 && ps[k] != cs[last] ensures ps[k].cause == ps[k + 1] {
      assert old(ps[k].cause) == ps[k + 1];
    }
    assert cs[last] != error ==> cs[last].cause == publicationCause;
    assert publicationCause == if |ps| > 1 then ps[1] else null;
    if Disjoint(ps, cs) {
      assert error in ps && error !in cs;
      assert forall k | 0 <= k < |cs| :: cs[k] in cs && cs[k] != error;
      assert forall k | 0 <= k < |ps| :: ps[k] in ps && ps[k] != cs[last];
      SplicedIsChain(error, ps, cs);
    } else {
      assert cs[last] == ps[|ps| - 1];
      SharedIsRing(error, ps, cs);
      forall s: seq<Exc> ensures !IsChain(error, s) {
        RingHasNoChain(error, s, set x | x in ps || x in cs);
      }
    }
  }

  /** An error and a cleanup error that one exception caused: splicing leaves a ring. */
  method SpliceSharedCause() returns (error: Exc, cleanup: Exc)
    ensures forall s: seq<Exc> :: !IsChain(error, s)
  {
    var root := new Exc();
    error := new Exc();
    cleanup := new Exc();
    error.cause, cleanup.cause := root, root;
    assert root in [error, root] && root in [cleanup, root];
    Splice(error, cleanup, [error, root], [cleanup, root]);
  }

  /** The links after splicing disjoint chains, put together. */
  lemma SplicedIsChain(error: Exc, ps: seq<Exc>, cs: seq<Exc>)
    requires ps != [] && cs != [] && ps[0] == error && error.cause == cs[0]
    requires forall k | 0 <= k < |cs| - 1 :: cs[k].cause == cs[k + 1]
    requires forall k | 1 <= k < |ps| - 1 :: ps[k].cause == ps[k + 1]
    requires cs[|cs| - 1].cause == if |ps| > 1 then ps[1] else null
    requires |ps| > 1 ==> ps[|ps| - 1].cause == null
    ensures IsChain(error, [error] + cs + ps[1..])
  {
    var s := [error] + cs + ps[1..];
    forall k | 0 <= k < |s| - 1 ensures s[k].cause == s[k + 1] {
      if 1 <= k < |cs| {
        assert s[k] == cs[k - 1] && s[k + 1] == cs[k - 1 + 1];
      } else if k > |cs| {
        assert s[k] == ps[k - |cs|] && s[k + 1] == ps[k - |cs| + 1];
      }
    }
  }

  /** The links after splicing chains that meet: every exception involved leads to another one. */
  lemma SharedIsRing(error: Exc, ps: seq<Exc>, cs: seq<Exc>)
    requires ps != [] && cs != [] && ps[0] == error && error.cause == cs[0]
    requires cs[|cs| - 1] == ps[|ps| - 1]
    requires forall k | 0 <= k < |cs| - 1 && cs[k] != error :: cs[k].cause == cs[k + 1]
    requires forall k | 1 <= k < |ps| - 1 && ps[k] != cs[|cs| - 1] :: ps[k].cause == ps[k + 1]
    requires cs[|cs| - 1] != error ==> |ps| > 1 && cs[|cs| - 1].cause == ps[1]
    ensures Ring(set x | x in ps || x in cs)
  {
    var ring := set x | x in ps || x in cs;
    forall x | x in ring ensures x.cause != null && x.cause in ring {
      if x != error && x != cs[|cs| - 1] {
        if x in cs {
          var k :| 0 <= k < |cs| && cs[k] == x;
          assert cs[k].cause == cs[k + 1];
        } else {
          var k :| 0 <= k < |ps| && ps[k] == x;
          assert ps[k].cause == ps[k + 1];
        }
      }
    }
  }

  lemma TailIsShared(d: Exc, s: seq<Exc>, e: Exc, t: seq<Exc>)
    requires IsChain(d, s) && IsChain(e, t) && !Disjoint(s, t)
    ensures s[|s| - 1] == t[|t| - 1]
  {
    var x :| x in s && x in t;
    var i :| 0 <= i < |s| && s[i] == x;
    var j :| 0 <= j < |t| && t[j] == x;
    MeetingChainsShareTail(d, s, e, t, i, j);
  }

  lemma Prepend(d: Exc, e: Exc, s: seq<Exc>)
    requires d.cause == e && IsChain(e, s)
    ensures IsChain(d, [d] + s)
  {
    var t := [d] + s;
    forall i | 0 <= i < |t| - 1 ensures t[i].cause == t[i + 1] {
      if i > 0 {
        assert s[i - 1].cause == s[i - 1 + 1];
      }
    }
  }

  /** Once `e` is caused by `first`, whose causes led to `e`, there is a ring. */
  lemma LinkedToItself(e: Exc, first: Exc, es: seq<Exc>) returns (ring: set<Exc>)
    requires e in es && e.cause == first && es[0] == first
    requires forall i, j | 0 <= i < j < |es| :: es[i] != es[j]
    requires forall i | 0 <= i < |es| - 1 && es[i] != e :: es[i].cause == es[i + 1]
    ensures e in ring && Ring(ring) && forall s: seq<Exc> :: !IsChain(e, s)
  {
    var k :| 0 <= k < |es| && es[k] == e;
    ring := set i | 0 <= i <= k :: es[i];
    forall x | x in ring ensures x.cause != null && x.cause in ring {
      var i :| 0 <= i <= k && es[i] == x;
      if i < k {
        assert x.cause == es[i + 1];
      } else {
        assert x.cause == es[0];
      }
    }
    forall s: seq<Exc> ensures !IsChain(e, s) {
      RingHasNoChain(e, s, ring);
    }
  }

  /** `_write_pid`: a failing close of the PID file becomes the cause of the publication error. */
  method RaiseFromClose(error: Exc, closeError: Exc?, ghost ps: seq<Exc>, ghost ks: seq<Exc>)
    requires IsChain(error, ps) && IsChain(closeError, ks)
    modifies error
    ensures error !in ks ==> IsChain(error, [error] + if closeError == null then ps[1..] else ks)
    ensures error in ks ==> forall s: seq<Exc> :: !IsChain(error, s)
    ensures error.cause == if closeError == null then old(error.cause) else closeError
  {
    ChainHasNoRepeats(error, ps);
    ChainHasNoRepeats(closeError, ks);
    if closeError != null {
      error.cause := closeError;
      if error in ks {
        var _ := LinkedToItself(error, closeError, ks);
      } else {
        Prepend(error, closeError, ks);
      }
    } else {
      assert [error] + ps[1..] == ps;
    }
  }

  /** The errors of a failed rollback, outermost first. */
  ghost function CleanupChain(rs: seq<Exc>, handleLeft: bool, es: seq<Exc>): seq<Exc> {
    if rs == [] then if handleLeft then es else []
    else if handleLeft && es != [] then [rs[0]] + es
    else rs
  }

  /** The rollback meets a ring: the release error was among what caused the close error that followed it. */
  ghost predicate ClosesRing(releaseError: Exc?, handleLeft: bool, es: seq<Exc>) {
    handleLeft && releaseError in es
  }

  /**
   `_rollback_failed_acquire`: the emergency close runs only if the release left the handle set, and
   then closes a ring exactly when the release error was among what caused the close error.
   */
  method RollbackErrors(releaseError: Exc?, handleLeft: bool, closeError: Exc?, ghost rs: seq<Exc>, ghost es: seq<Exc>)
    returns (cleanupError: Exc?, ghost ring: set<Exc>)
    requires IsChain(releaseError, rs) && IsChain(closeError, es)
    modifies if releaseError == null then {} else {releaseError}
    ensures !ClosesRing(releaseError, handleLeft, es) ==> IsChain(cleanupError, CleanupChain(rs, handleLeft, es))
    ensures ClosesRing(releaseError, handleLeft, es) ==>
              cleanupError == releaseError && cleanupError in ring && Ring(ring) &&
              forall s: seq<Exc> :: !IsChain(cleanupError, s)
    ensures cleanupError == if releaseError != null then releaseError else if handleLeft then closeError else null
    ensures handleLeft && closeError != null && !ClosesRing(releaseError, handleLeft, es) ==> IsChain(closeError, es)
    ensures releaseError != null ==>
              releaseError.cause == if handleLeft && closeError != null then closeError else old(releaseError.cause)
  {
    cleanupError, ring := releaseError, {};
    assert releaseError != null ==> releaseError in rs;
    if handleLeft && closeError != null {
      if cleanupError == null {
        cleanupError := closeError;
      } else {
        ChainHasNoRepeats(closeError, es);
        cleanupError.cause := closeError;
        if releaseError in es {
          ring := LinkedToItself(releaseError, closeError, es);
        } else {
          Prepend(cleanupError, closeError, es);
        }
      }
    }
  }

  /** A release error that the close error, raised after it, names as its cause: the cleanup error is a ring. */
  method ReleaseCausedClose() returns (cleanupError: Exc?)
    ensures forall s: seq<Exc> :: !IsChain(cleanupError, s)
  {
    var releaseError := new Exc();
    var closeError := new Exc();
    closeError.cause := releaseError;
    assert releaseError in [closeError, releaseError];
    ghost var ring;
    cleanupError, ring := RollbackErrors(releaseError, true, closeError, [releaseError], [closeError, releaseError]);
  }

  /** A publication error that the failing close of the PID file names as its cause: it is in a ring. */
  method CloseCausedByPublication() returns (error: Exc)
    ensures forall s: seq<Exc> :: !IsChain(error, s)
  {
    error := new Exc();
    var closeError := new Exc();
    closeError.cause := error;
    assert error in [closeError, error];
    RaiseFromClose(error, closeError, [error], [closeError, error]);
  }

  /**
   The guarded splice of `acquire`: without a cleanup error the publication error is raised as it is. The
   cleanup error is a finite chain, or it is in a ring and there is no cause to splice.
   */
  method AttachCleanup(error: Exc, cleanupError: Exc?, ghost ps: seq<Exc>, ghost cs: seq<Exc>, ghost ring: set<Exc>)
    requires IsChain(error, ps)
    requires IsChain(cleanupError, cs) || (cleanupError in ring && Ring(ring) && error.cause == null)
    modifies ps, cs
    ensures old(IsChain(cleanupError, cs)) && Disjoint(ps, cs) ==> IsChain(error, [error] + cs + ps[1..])
    ensures !(old(IsChain(cleanupError, cs)) && Disjoint(ps, cs)) ==> forall s: seq<Exc> :: !IsChain(error, s)
  {
    ghost var finite := IsChain(cleanupError, cs);
    assert |ps| > 1 ==> ps[0].cause == ps[0 + 1];
    if finite {
      ChainHasNoRepeats(cleanupError, cs);
    }
    if cleanupError == null {
      assert [error] + cs + ps[1..] == ps;
    } else if error.cause == null {
      assert ps == [error];
      error.cause := cleanupError;
      if finite && Disjoint(ps, cs) {
        assert error in ps;
        Prepend(error, cleanupError, cs);
      } else {
        NoWayOut(error, cleanupError, finite, ps, cs, ring);
      }
    } else {
      Splice(error, cleanupError, ps, cs);
    }
  }

  /** Caused by a ring, or by what already led to it, the error leads nowhere. */
  lemma NoWayOut(error: Exc, cleanupError: Exc, finite: bool, ps: seq<Exc>, cs: seq<Exc>, ring: set<Exc>)
    requires error.cause == cleanupError && ps == [error]
    requires if finite then
               error in cs && cs[0] == cleanupError &&
               (forall i, j | 0 <= i < j < |cs| :: cs[i] != cs[j]) &&
               forall i | 0 <= i < |cs| - 1 && cs[i] != error :: cs[i].cause == cs[i + 1]
             else cleanupError in ring && Ring(ring - {error}) && cleanupError != error
    ensures forall s: seq<Exc> :: !IsChain(error, s)
  {
    if finite {
      var _ := LinkedToItself(error, cleanupError, cs);
    } else {
      forall s: seq<Exc> ensures !IsChain(error, s) {
        RingHasNoChain(error, s, ring - {error} + {error});
      }
    }
  }

  /** As `IsChain`, with `c` for the cause of `x`. */
  ghost predicate IsChainOnce(e: Exc?, s: seq<Exc>, x: Exc, c: Exc?)
    reads s
  {
    (e == null <==> s == []) &&
    (s != [] ==> s[0] == e && (if s[|s| - 1] == x then c else s[|s| - 1].cause) == null) &&
    forall i | 0 <= i < |s| - 1 :: (if s[i] == x then c else s[i].cause) == s[i + 1]
  }

  /** The publication error's chain after the rollback, which may have made `es[0]` the cause of `r`. */
  lemma ChainAfterRollback(error: Exc, ps: seq<Exc>, r: Exc, was: Exc?, es: seq<Exc>) returns (qs: seq<Exc>)
    requires IsChainOnce(error, ps, r, was) && forall i, j | 0 <= i < j < |ps| :: ps[i] != ps[j]
    requires r.cause == was || r !in ps || (es != [] && r.cause == es[0] && IsChain(es[0], es))
    ensures IsChain(error, qs) && forall x | x in qs :: x in ps || x in es
    ensures if r in ps && r.cause != was then r in qs else qs == ps
  {
    qs := ps;
    if r in ps && r.cause != was {
      var k :| 0 <= k < |ps| && ps[k] == r;
      qs := ps[..k + 1] + es;
      assert qs[k] == r;
      forall i | 0 <= i < |qs| - 1 ensures qs[i].cause == qs[i + 1] {
        if i > k {
          assert qs[i] == es[i - k - 1] && qs[i + 1] == es[i - k - 1 + 1];
        }
      }
    }
  }

  lemma StillMeet(ps: seq<Exc>, qs: seq<Exc>, r: Exc, changed: bool, cs: seq<Exc>)
    requires (if r in ps && changed then r in qs else qs == ps) && r in cs
    ensures if Disjoint(ps, cs) then qs == ps else !Disjoint(qs, cs)
  {
  }

  /** The rollback, with the chains it leaves: `qs` of the publication error, `cs` of the cleanup error. */
  method RollBack(error: Exc, releaseError: Exc?, handleLeft: bool, closeError: Exc?,
                  ghost ps: seq<Exc>, ghost rs: seq<Exc>, ghost es: seq<Exc>)
    returns (cleanupError: Exc?, ghost qs: seq<Exc>, ghost cs: seq<Exc>, ghost ring: set<Exc>)
    requires IsChain(error, ps) && IsChain(releaseError, rs) && IsChain(closeError, es)
    requires ClosesRing(releaseError, handleLeft, es) ==> error.cause == null && error != releaseError
    modifies if releaseError == null then {} else {releaseError}
    ensures IsChain(error, qs) && cs == CleanupChain(rs, handleLeft, es)
    ensures forall x | x in qs :: x in ps || x in es
    ensures ClosesRing(releaseError, handleLeft, es) ==>
              error.cause == null && cleanupError in ring && Ring(ring) && !IsChain(cleanupError, cs)
    ensures !ClosesRing(releaseError, handleLeft, es) ==>
              IsChain(cleanupError, cs) && (if Disjoint(ps, cs) then qs == ps else !Disjoint(qs, cs))
  {
    cs, qs := CleanupChain(rs, handleLeft, es), ps;
    ChainHasNoRepeats(error, ps);
    OnlyLink(error, ps);
    if releaseError == null {
      cleanupError, ring := RollbackErrors(releaseError, handleLeft, closeError, rs, es);
    } else {
      ghost var was := releaseError.cause;
      cleanupError, ring := RollbackErrors(releaseError, handleLeft, closeError, rs, es);
      assert IsChainOnce(error, ps, releaseError, was);
      qs := ChainAfterRollback(error, ps, releaseError, was, es);
      StillMeet(ps, qs, releaseError, releaseError.cause != was, cs);
    }
  }

  lemma OnlyLink(error: Exc, ps: seq<Exc>)
    requires IsChain(error, ps)
    ensures error.cause == null ==> ps == [error]
  {
    assert |ps| > 1 ==> ps[0].cause == ps[0 + 1];
  }

  /**
   Rollback and re-raise, once the publication error has its own causes. Where the cleanup error closes a ring
   and the publication error has a cause, the tail walk of the code does not end. Otherwise the raised error
   leads through the cleanup errors to its earlier causes exactly when there is no ring and nothing in common.
   */
  method RollBackAndRaise(error: Exc, releaseError: Exc?, handleLeft: bool, closeError: Exc?,
                          ghost ps: seq<Exc>, ghost rs: seq<Exc>, ghost es: seq<Exc>)
    requires IsChain(error, ps) && IsChain(releaseError, rs) && IsChain(closeError, es)
    requires ClosesRing(releaseError, handleLeft, es) ==> error.cause == null && error != releaseError
    modifies ps, rs, es
    ensures var cs := CleanupChain(rs, handleLeft, es);
            if !ClosesRing(releaseError, handleLeft, es) && Disjoint(ps, cs) then IsChain(error, [error] + cs + ps[1..])
            else forall s: seq<Exc> :: !IsChain(error, s)
  {
    assert releaseError != null ==> releaseError in rs;
    CleanupFromBoth(rs, handleLeft, es);
    ghost var qs, cs, ring;
    var cleanupError;
    cleanupError, qs, cs, ring := RollBack(error, releaseError, handleLeft, closeError, ps, rs, es);
    assert forall i | 0 <= i < |qs| :: qs[i] in qs;
    assert forall i | 0 <= i < |cs| :: cs[i] in cs;
    AttachCleanup(error, cleanupError, qs, cs, ring);
  }

  lemma CleanupFromBoth(rs: seq<Exc>, handleLeft: bool, es: seq<Exc>)
    ensures forall x | x in CleanupChain(rs, handleLeft, es) :: x in rs || x in es
  {
  }

  /**
   Everything that happens to the links when publishing fails, for any mix of further failures. `rs` and `es`
   are the chains of the release and close errors once the publication error has been raised. The raised error
   leads to the cleanup errors, then to its own earlier causes, and ends, exactly when the cleanup closes no
   ring and shares nothing with the publication error's chain.
   */
  method FailPublication(error: Exc, pidCloseError: Exc?, releaseError: Exc?, handleLeft: bool, closeError: Exc?,
                         ghost ps: seq<Exc>, ghost ks: seq<Exc>, ghost rs: seq<Exc>, ghost es: seq<Exc>)
    requires IsChain(error, ps) && IsChain(pidCloseError, ks) && error !in ks
    requires var cause := if pidCloseError == null then error.cause else pidCloseError;
             IsChainOnce(releaseError, rs, error, cause) && IsChainOnce(closeError, es, error, cause) &&
             (ClosesRing(releaseError, handleLeft, es) ==> cause == null && error != releaseError)
    modifies ps, ks, rs, es
    ensures var earlier := if pidCloseError == null then ps[1..] else ks;
            var cs := CleanupChain(rs, handleLeft, es);
            if !ClosesRing(releaseError, handleLeft, es) && Disjoint([error] + earlier, cs)
            then IsChain(error, [error] + cs + earlier)
            else forall s: seq<Exc> :: !IsChain(error, s)
  {
    ghost var earlier := if pidCloseError == null then ps[1..] else ks;
    assert error in ps;
    RaiseFromClose(error, pidCloseError, ps, ks);
    RollBackAndRaise(error, releaseError, handleLeft, closeError, [error] + earlier, rs, es);
    assert ([error] + earlier)[1..] == earlier;
  }
}
