/** Writers against writers: the linearised model, and exactly what the split model adds to it. */
module RedisExclusion {
  import opened Basics
  import opened RedisElection
  import opened RedisProtocol

  /** Holders, and clients about to become holders, are one writer alone or readers only. */
  ghost predicate WritersAlone(roles: Roles, s: Channel) {
    forall c, d | c in roles && d in roles && c != d && Claims(roles, s, c) && Claims(roles, s, d) ::
      !roles[c] && !roles[d]
  }

  // ---- The split model ----

  /** The step makes a writer entitled while another writer has observed its win but not yet acted on it. */
  ghost predicate Overtakes(roles: Roles, s: Channel, l: Label) {
    l.ev.Probe? && l.ev.holders.Some? && l.who in roles && roles[l.who] &&
    LeastPending(l.who, l.ev.holders.value) && (forall h | h in l.ev.holders.value :: h.mode == Pending) &&
    exists d :: d in roles && d != l.who && roles[d] && Entitled(roles, s, d)
  }

  /**
   A step of the split model breaks the exclusion of writers exactly when it is the winning probe
   of a writer while another writer, necessarily of a larger id, stands between its own winning
   observation and its promotion.
   */
  lemma ExclusionBreaksExactlyWhen(roles: Roles, s: Channel, l: Label)
    requires Inv(roles, s) && WritersAlone(roles, s) && Enabled(roles, s, l)
    ensures !WritersAlone(roles, Apply(roles, s, l)) <==> Overtakes(roles, s, l)
    ensures Overtakes(roles, s, l) ==>
              exists d :: d in roles && roles[d] && Entitled(roles, s, d) && StrLess(l.who, d)
  {
    var s' := Apply(roles, s, l);
    StepKeepsInv(roles, s, l);
    if Overtakes(roles, s, l) {
      OvertakingBreaks(roles, s, l);
    } else {
      forall c, d | c in roles && d in roles && c != d && Claims(roles, s', c) && Claims(roles, s', d)
        ensures !roles[c] && !roles[d]
      {
        if roles[c] && roles[d] {
          OthersKeepWritersAlone(roles, s, l, c, d);
        }
      }
    }
  }

  lemma OvertakingBreaks(roles: Roles, s: Channel, l: Label)
    requires Inv(roles, s) && Enabled(roles, s, l) && Overtakes(roles, s, l)
    ensures !WritersAlone(roles, Apply(roles, s, l))
    ensures exists d :: d in roles && roles[d] && Entitled(roles, s, d) && StrLess(l.who, d)
  {
    var me, holders := l.who, l.ev.holders.value;
    var d :| d in roles && d != me && roles[d] && Entitled(roles, s, d);
    TakenExactlyWhen(true, me, s[me].elected, Some(holders), false);
    ClaimOfOthersUnchanged(roles, s, l, d);
    SnapshotShowsModes(s, holders);
    assert s[d].In?;
    StrTotal(me, d);
    assert Claims(roles, Apply(roles, s, l), me) && Claims(roles, Apply(roles, s, l), d);
  }

  /** Two writers that claim after a step which does not overtake are one and the same. */
  lemma OthersKeepWritersAlone(roles: Roles, s: Channel, l: Label, c: Id, d: Id)
    requires Inv(roles, s) && WritersAlone(roles, s) && Enabled(roles, s, l) && !Overtakes(roles, s, l)
    requires c in roles && d in roles && roles[c] && roles[d]
    requires Claims(roles, Apply(roles, s, l), c) && Claims(roles, Apply(roles, s, l), d)
    ensures c == d
  {
    if c != d {
      var me := l.who;
      var other := if me == c then d else c;
      ClaimOfOthersUnchanged(roles, s, l, other);
      if me != c && me != d {
        ClaimOfOthersUnchanged(roles, s, l, d);
      } else if !Claims(roles, s, me) {
        NewWriterClaimOvertakes(roles, s, l, other);
      }
      assert false;
    }
  }

  lemma NewWriterClaimOvertakes(roles: Roles, s: Channel, l: Label, other: Id)
    requires Inv(roles, s) && Enabled(roles, s, l) && roles[l.who]
    requires !Claims(roles, s, l.who) && Claims(roles, Apply(roles, s, l), l.who)
    requires other in roles && roles[other] && other != l.who && Claims(roles, s, other)
    ensures Overtakes(roles, s, l)
  {
    var me := l.who;
    match l.ev
    case Count =>
      OnlySubscriber(s, me, other);
    case Probe(holders) =>
      TakenExactlyWhen(true, me, s[me].elected, holders, false);
      SnapshotShowsModes(s, if holders.Some? then holders.value else []);
    case _ =>
  }

  /** The state of a run after `n` steps. */
  ghost function After(roles: Roles, s: Channel, run: seq<Label>, n: nat): Channel
    requires n <= |run| && Run(roles, s, run[..n]).Some?
  {
    Run(roles, s, run[..n]).value
  }

  lemma {:induction false} PrefixRuns(roles: Roles, s: Channel, run: seq<Label>, n: nat)
    requires Run(roles, s, run).Some? && n <= |run|
    ensures Run(roles, s, run[..n]).Some?
    ensures n < |run| ==> Enabled(roles, After(roles, s, run, n), run[n]) && Run(roles, s, run[..n + 1]).Some? &&
                          After(roles, s, run, n + 1) == Apply(roles, After(roles, s, run, n), run[n])
    decreases |run| - n
  {
    if n < |run| {
      PrefixRuns(roles, s, run, n + 1);
      assert run[..n + 1][..n] == run[..n];
    } else {
      assert run[..n] == run;
    }
  }

  /** Every state of the run keeps writers alone. */
  ghost predicate AlwaysAlone(roles: Roles, s: Channel, run: seq<Label>)
    requires forall n | 0 <= n <= |run| :: Run(roles, s, run[..n]).Some?
  {
    forall n | 0 <= n <= |run| :: WritersAlone(roles, After(roles, s, run, n))
  }

  ghost predicate NobodyOvertakes(roles: Roles, s: Channel, run: seq<Label>)
    requires forall n | 0 <= n <= |run| :: Run(roles, s, run[..n]).Some?
  {
    forall n | 0 <= n < |run| :: !Overtakes(roles, After(roles, s, run, n), run[n])
  }

  lemma {:induction false} AllPrefixesRun(roles: Roles, s: Channel, run: seq<Label>)
    requires Run(roles, s, run).Some?
    ensures forall n | 0 <= n <= |run| :: Run(roles, s, run[..n]).Some?
  {
    forall n | 0 <= n <= |run| ensures Run(roles, s, run[..n]).Some? {
      PrefixRuns(roles, s, run, n);
    }
  }

  lemma {:induction false} AloneStepExactlyWhen(roles: Roles, s: Channel, run: seq<Label>, n: nat)
    requires Init(roles, s) && Run(roles, s, run).Some? && n < |run|
    ensures Run(roles, s, run[..n]).Some? && Run(roles, s, run[..n + 1]).Some?
    ensures WritersAlone(roles, After(roles, s, run, n)) ==>
              (WritersAlone(roles, After(roles, s, run, n + 1)) <==> !Overtakes(roles, After(roles, s, run, n), run[n]))
  {
    PrefixRuns(roles, s, run, n);
    RunKeepsInv(roles, s, run[..n]);
    if WritersAlone(roles, After(roles, s, run, n)) {
      ExclusionBreaksExactlyWhen(roles, After(roles, s, run, n), run[n]);
    }
  }

  /** A run from the start keeps writers alone throughout exactly when none of its steps overtakes. */
  lemma {:induction false} RunStaysAloneExactlyWhen(roles: Roles, s: Channel, run: seq<Label>)
    requires Init(roles, s) && Run(roles, s, run).Some?
    ensures forall n | 0 <= n <= |run| :: Run(roles, s, run[..n]).Some?
    ensures AlwaysAlone(roles, s, run) <==> NobodyOvertakes(roles, s, run)
  {
    AllPrefixesRun(roles, s, run);
    if NobodyOvertakes(roles, s, run) {
      forall n | 0 <= n <= |run| ensures WritersAlone(roles, After(roles, s, run, n)) {
        NotOvertakenStaysAlone(roles, s, run, n);
      }
    }
    if AlwaysAlone(roles, s, run) {
      forall n | 0 <= n < |run| ensures !Overtakes(roles, After(roles, s, run, n), run[n]) {
        AloneStepExactlyWhen(roles, s, run, n);
        assert WritersAlone(roles, After(roles, s, run, n)) && WritersAlone(roles, After(roles, s, run, n + 1));
      }
    }
  }

  lemma {:induction false} NotOvertakenStaysAlone(roles: Roles, s: Channel, run: seq<Label>, n: nat)
    requires Init(roles, s) && Run(roles, s, run).Some? && n <= |run|
    requires forall k | 0 <= k <= |run| :: Run(roles, s, run[..k]).Some?
    requires NobodyOvertakes(roles, s, run)
    ensures WritersAlone(roles, After(roles, s, run, n))
  {
    if n == 0 {
      BeginsAlone(roles, s, run);
    } else {
      NotOvertakenStaysAlone(roles, s, run, n - 1);
      AloneStepExactlyWhen(roles, s, run, n - 1);
      assert !Overtakes(roles, After(roles, s, run, n - 1), run[n - 1]);
    }
  }

  lemma {:induction false} BeginsAlone(roles: Roles, s: Channel, run: seq<Label>)
    requires Init(roles, s)
    ensures Run(roles, s, run[..0]).Some? && WritersAlone(roles, After(roles, s, run, 0))
  {
    assert run[..0] == [];
    NobodyClaims(roles, s);
  }

  lemma NobodyClaims(roles: Roles, s: Channel)
    requires Init(roles, s)
    ensures WritersAlone(roles, s)
  {
  }

  /** A claimant needs nothing but its own decision to hold. */
  lemma ClaimantHolds(roles: Roles, s: Channel, c: Id) returns (run: seq<Label>, t: Channel)
    requires Reachable(roles, s) && c in roles && Claims(roles, s, c)
    ensures Run(roles, s, run) == Some(t) && Holds(t, c) && run in {[], [Label(c, Decide(false))]}
    ensures forall d | d in roles && d != c ::
              ClientOf(t, d) == ClientOf(s, d) && Claims(roles, t, d) == Claims(roles, s, d)
  {
    ReachableInv(roles, s);
    if Holds(s, c) {
      run, t := [], s;
    } else {
      var l := Label(c, Decide(false));
      t := Apply(roles, s, l);
      run := Step(roles, s, [], s, l, t);
      forall d | d in roles && d != c
        ensures ClientOf(t, d) == ClientOf(s, d) && Claims(roles, t, d) == Claims(roles, s, d)
      {
        ClaimOfOthersUnchanged(roles, s, l, d);
      }
    }
  }

  lemma {:induction false} ReachableFrom(roles: Roles, s: Channel, run: seq<Label>)
    requires Reachable(roles, s) && Run(roles, s, run).Some?
    ensures Reachable(roles, Run(roles, s, run).value)
  {
    var s0, before :| Init(roles, s0) && Run(roles, s0, before) == Some(s);
    RunConcat(roles, s0, before, run);
  }

  lemma HoldingWriterIsExclusive(roles: Roles, s: Channel, c: Id)
    requires Reachable(roles, s) && c in roles && roles[c] && Holds(s, c)
    ensures c in s && s[c].mode == Exclusive
  {
    ReachableInv(roles, s);
  }

  lemma WritersNotAlone(roles: Roles, s: Channel) returns (c: Id, d: Id)
    requires Reachable(roles, s) && !WritersAlone(roles, s)
    ensures c != d && c in roles && d in roles && roles[c] && roles[d] && Claims(roles, s, c) && Claims(roles, s, d)
  {
    ReachableInv(roles, s);
    c, d :| c in roles && d in roles && c != d && Claims(roles, s, c) && Claims(roles, s, d) && (roles[c] || roles[d]);
  }

  lemma {:induction false} BothClaimantsHold(roles: Roles, s: Channel, c: Id, d: Id)
    returns (run: seq<Label>, t: Channel)
    requires Reachable(roles, s) && c in roles && d in roles && c != d && Claims(roles, s, c) && Claims(roles, s, d)
    ensures forall l | l in run :: (l.who == c || l.who == d) && l.ev == Decide(false)
    ensures Run(roles, s, run) == Some(t) && Reachable(roles, t) && Holds(t, c) && Holds(t, d)
  {
    var first, mid := ClaimantHolds(roles, s, c);
    ReachableFrom(roles, s, first);
    var second;
    second, t := ClaimantHolds(roles, mid, d);
    ReachableFrom(roles, mid, second);
    RunConcat(roles, s, first, second);
    run := first + second;
  }

  /** Wherever writers are not alone, two of them hold exclusively once each has acted on what it saw. */
  lemma {:induction false} OverlapComesTrue(roles: Roles, s: Channel)
    returns (c: Id, d: Id, run: seq<Label>, t: Channel)
    requires Reachable(roles, s) && !WritersAlone(roles, s)
    ensures c != d && c in roles && d in roles && roles[c] && roles[d]
    ensures forall l | l in run :: (l.who == c || l.who == d) && l.ev == Decide(false)
    ensures Run(roles, s, run) == Some(t) && Holds(t, c) && Holds(t, d)
    ensures c in t && d in t && t[c].mode == t[d].mode == Exclusive
  {
    c, d := WritersNotAlone(roles, s);
    run, t := BothClaimantsHold(roles, s, c, d);
    HoldingWriterIsExclusive(roles, t, c);
    HoldingWriterIsExclusive(roles, t, d);
  }

  // ---- The linearised model ----

  /** Subscribing, leaving and seeing a crowd alone; every deciding observation together with its decision. */
  datatype Move =
    | Quiet(who: Id, ev: Event)
    | Grab(who: Id, fail: bool)
    | Judge(who: Id, holders: Option<seq<Holder>>, fail: bool)

  function Expand(m: Move): seq<Label> {
    match m
    case Quiet(c, ev) => [Label(c, ev)]
    case Grab(c, fail) => [Label(c, Count), Label(c, Decide(fail))]
    case Judge(c, holders, fail) => [Label(c, Probe(holders)), Label(c, Decide(fail))]
  }

  predicate IsLinear(s: Channel, m: Move) {
    match m
    case Quiet(_, ev) => ev.Subscribe? || ev.Leave? || (ev.Count? && |Subscribers(s)| != 1)
    case Grab(_, _) => |Subscribers(s)| == 1
    case Judge(_, _, _) => true
  }

  function LinearRun(roles: Roles, s: Channel, moves: seq<Move>): Option<Channel> {
    if moves == [] then Some(s)
    else
      var before := LinearRun(roles, s, moves[..|moves| - 1]);
      var m := moves[|moves| - 1];
      if before.Some? && IsLinear(before.value, m) then Run(roles, before.value, Expand(m)) else None
  }

  lemma {:induction false} RunConcat(roles: Roles, s: Channel, first: seq<Label>, second: seq<Label>)
    requires Run(roles, s, first).Some?
    ensures Run(roles, s, first + second) == Run(roles, Run(roles, s, first).value, second)
  {
    if second == [] {
      assert first + second == first;
    } else {
      var n := |second| - 1;
      RunConcat(roles, s, first, second[..n]);
      assert (first + second)[..|first| + n] == first + second[..n];
    }
  }

  /** Every linearised run is a run of the split model. */
  lemma {:induction false} LinearIsSplit(roles: Roles, s: Channel, moves: seq<Move>) returns (run: seq<Label>)
    requires LinearRun(roles, s, moves).Some?
    ensures Run(roles, s, run) == LinearRun(roles, s, moves)
  {
    run := [];
    if moves != [] {
      var n := |moves| - 1;
      var before := LinearIsSplit(roles, s, moves[..n]);
      RunConcat(roles, s, before, Expand(moves[n]));
      run := before + Expand(moves[n]);
    }
  }

  /** Between moves nobody has an unacted win. */
  ghost predicate AtRest(s: Channel) {
    forall c | c in s && s[c].In? :: s[c].view.Nothing? || s[c].view.Crowded?
  }

  lemma {:induction false} ExpandedRun(roles: Roles, s: Channel, a: Label, b: Label)
    ensures Run(roles, s, [a]) == if Enabled(roles, s, a) then Some(Apply(roles, s, a)) else None
    ensures Run(roles, s, [a, b]).Some? ==>
              Enabled(roles, s, a) && Enabled(roles, Apply(roles, s, a), b) &&
              Run(roles, s, [a, b]).value == Apply(roles, Apply(roles, s, a), b)
  {
    assert [a][..0] == [] && [a, b][..1] == [a];
  }

  lemma StepStaysAlone(roles: Roles, s: Channel, l: Label)
    requires Inv(roles, s) && WritersAlone(roles, s) && Enabled(roles, s, l) && !Overtakes(roles, s, l)
    ensures Inv(roles, Apply(roles, s, l)) && WritersAlone(roles, Apply(roles, s, l))
  {
    ExclusionBreaksExactlyWhen(roles, s, l);
    StepKeepsInv(roles, s, l);
  }

  lemma {:induction false} MoveKeepsAlone(roles: Roles, s: Channel, m: Move)
    requires Inv(roles, s) && WritersAlone(roles, s) && AtRest(s)
    requires IsLinear(s, m) && Run(roles, s, Expand(m)).Some?
    ensures var s' := Run(roles, s, Expand(m)).value; Inv(roles, s') && WritersAlone(roles, s') && AtRest(s')
  {
    match m
    case Quiet(c, ev) =>
      ExpandedRun(roles, s, Label(c, ev), Label(c, ev));
      StepStaysAlone(roles, s, Label(c, ev));
    case Grab(c, fail) =>
      TwoStepsKeepAlone(roles, s, Label(c, Count), fail);
    case Judge(c, holders, fail) =>
      TwoStepsKeepAlone(roles, s, Label(c, Probe(holders)), fail);
  }

  lemma {:induction false} TwoStepsKeepAlone(roles: Roles, s: Channel, l: Label, fail: bool)
    requires Inv(roles, s) && WritersAlone(roles, s) && AtRest(s) && (l.ev.Count? || l.ev.Probe?)
    requires Run(roles, s, [l, Label(l.who, Decide(fail))]).Some?
    ensures var s' := Run(roles, s, [l, Label(l.who, Decide(fail))]).value;
            Inv(roles, s') && WritersAlone(roles, s') && AtRest(s')
  {
    var decide := Label(l.who, Decide(fail));
    ExpandedRun(roles, s, l, decide);
    assert !Overtakes(roles, s, l);
    StepStaysAlone(roles, s, l);
    StepStaysAlone(roles, Apply(roles, s, l), decide);
  }

  lemma {:induction false} LinearRunKeepsAlone(roles: Roles, s: Channel, moves: seq<Move>)
    requires Init(roles, s) && LinearRun(roles, s, moves).Some?
    ensures var s' := LinearRun(roles, s, moves).value; Inv(roles, s') && WritersAlone(roles, s') && AtRest(s')
  {
    if moves != [] {
      var n := |moves| - 1;
      LinearRunKeepsAlone(roles, s, moves[..n]);
      MoveKeepsAlone(roles, LinearRun(roles, s, moves[..n]).value, moves[n]);
    }
  }

  function HoldersOf(s: Channel): set<Id> {
    set c | c in s && Holds(s, c)
  }

  /**
   In every linearised run the channel is held by readers only, or by one writer and nobody else,
   and the holders advertise accordingly.
   */
  lemma {:induction false} LinearExclusion(roles: Roles, s: Channel, moves: seq<Move>)
    requires Init(roles, s) && LinearRun(roles, s, moves).Some?
    ensures var s' := LinearRun(roles, s, moves).value;
            (forall c | c in HoldersOf(s') :: s'[c].mode == Shared) ||
            (exists w :: HoldersOf(s') == {w} && s'[w].mode == Exclusive)
  {
    LinearRunKeepsAlone(roles, s, moves);
    var s' := LinearRun(roles, s, moves).value;
    if w :| w in HoldersOf(s') && roles[w] {
      forall c | c in HoldersOf(s') ensures c == w {
        assert Claims(roles, s', c) && Claims(roles, s', w);
      }
      assert HoldersOf(s') == {w};
    }
  }

  // ---- The window is real ----

  const WAITING := In(Pending, false, Nothing, false)

  const TWO_WRITERS := [Holder("a", Pending, false), Holder("b", Pending, false)]

  lemma SmallerIdWins()
    ensures Resolve(true, "a", false, Some(TWO_WRITERS), false) == Taken(true)
  {
    StrIrreflexive("a");
    TakenExactlyWhen(true, "a", false, Some(TWO_WRITERS), false);
  }

  const TWO_ROLES: Roles := map["a" := true, "b" := true]

  function Two(a: Client, b: Client): Channel {
    map["a" := a, "b" := b]
  }

  ghost predicate Goes(s: Channel, l: Label, t: Channel) {
    Enabled(TWO_ROLES, s, l) && Apply(TWO_ROLES, s, l) == t
  }

  lemma BothSubscribe()
    ensures Goes(Two(Out, Out), Label("b", Subscribe), Two(Out, WAITING))
    ensures Goes(Two(Out, WAITING.(view := Alone)), Label("a", Subscribe), Two(WAITING, WAITING.(view := Alone)))
  {
  }

  lemma FirstIsAlone()
    ensures Goes(Two(Out, WAITING), Label("b", Count), Two(Out, WAITING.(view := Alone)))
  {
    assert Subscribers(Two(Out, WAITING)) == {"b"};
  }

  lemma SecondSeesACrowd()
    ensures var late := WAITING.(view := Alone);
            Goes(Two(WAITING, late), Label("a", Count), Two(WAITING.(view := Crowded), late))
  {
    assert Subscribers(Two(WAITING, WAITING.(view := Alone))) == {"a", "b"};
  }

  lemma SecondWins()
    ensures var late, probed := WAITING.(view := Alone), WAITING.(view := Probed(Some(TWO_WRITERS)));
            Goes(Two(WAITING.(view := Crowded), late), Label("a", Probe(Some(TWO_WRITERS))), Two(probed, late)) &&
            Goes(Two(probed, late), Label("a", Decide(false)), Two(In(Exclusive, true, Nothing, true), late))
  {
    SmallerIdWins();
    var s := Two(WAITING.(view := Crowded), WAITING.(view := Alone));
    assert TWO_WRITERS[0].id == "a" && TWO_WRITERS[1].id == "b";
    assert IsSnapshot(s, TWO_WRITERS);
  }

  lemma FirstActsLate()
    ensures var winner := In(Exclusive, true, Nothing, true);
            Goes(Two(winner, WAITING.(view := Alone)), Label("b", Decide(false)),
                 Two(winner, In(Exclusive, false, Nothing, true)))
  {
  }

  /** "b" subscribes, finds itself alone, and before it acts "a" subscribes and sees a crowd. */
  lemma LateWriterWaits() returns (run: seq<Label>)
    ensures Run(TWO_ROLES, Two(Out, Out), run) == Some(Two(WAITING.(view := Crowded), WAITING.(view := Alone)))
  {
    BothSubscribe();
    FirstIsAlone();
    SecondSeesACrowd();
    var s, late := Two(Out, Out), WAITING.(view := Alone);
    run := Step(TWO_ROLES, s, [], s, Label("b", Subscribe), Two(Out, WAITING));
    run := Step(TWO_ROLES, s, run, Two(Out, WAITING), Label("b", Count), Two(Out, late));
    run := Step(TWO_ROLES, s, run, Two(Out, late), Label("a", Subscribe), Two(WAITING, late));
    run := Step(TWO_ROLES, s, run, Two(WAITING, late), Label("a", Count), Two(WAITING.(view := Crowded), late));
  }

  /** A run of the split model in which two writers end up holding: one acts late on having been alone. */
  lemma LateWriterOverlaps() returns (roles: Roles, s: Channel, run: seq<Label>)
    ensures Init(roles, s) && Run(roles, s, run).Some?
    ensures roles == map["a" := true, "b" := true]
    ensures Holds(Run(roles, s, run).value, "a") && Holds(Run(roles, s, run).value, "b")
  {
    SecondWins();
    FirstActsLate();
    var late, winner := WAITING.(view := Alone), In(Exclusive, true, Nothing, true);
    var probed := WAITING.(view := Probed(Some(TWO_WRITERS)));
    roles, s := TWO_ROLES, Two(Out, Out);
    run := LateWriterWaits();
    run := Step(roles, s, run, Two(WAITING.(view := Crowded), late), Label("a", Probe(Some(TWO_WRITERS))),
                Two(probed, late));
    run := Step(roles, s, run, Two(probed, late), Label("a", Decide(false)), Two(winner, late));
    run := Step(roles, s, run, Two(winner, late), Label("b", Decide(false)),
                Two(winner, In(Exclusive, false, Nothing, true)));
  }

  // ---- A writer that waits for a reader ----

  const READING := In(Shared, false, Nothing, true)
  const ELECTED := In(Pending, true, Nothing, false)
  const MIXED_ROLES: Roles := map["a" := true, "b" := false]
  const MIXED := [Holder("a", Pending, false), Holder("b", Shared, false)]

  lemma {:induction false} WriterKeepsItsPlace()
    ensures Resolve(true, "a", false, Some(MIXED), false) == Keep
  {
    assert MIXED[0] in MIXED && MIXED[1] in MIXED;
    StrIrreflexive("a");
    KeepExactlyWhen(true, "a", false, Some(MIXED), false);
  }

  lemma {:induction false} WriterSeesReader()
    ensures var s := Two(WAITING.(view := Crowded), READING);
            Enabled(MIXED_ROLES, s, Label("a", Probe(Some(MIXED)))) &&
            Decided(true, "a", WAITING.(view := Probed(Some(MIXED))), false) == ELECTED
  {
    assert MIXED[0].id == "a" && MIXED[1].id == "b";
    WriterKeepsItsPlace();
  }

  lemma {:induction false} ReaderComesFirst() returns (run: seq<Label>)
    ensures Run(MIXED_ROLES, Two(Out, Out), run) == Some(Two(Out, READING))
  {
    var s := Two(Out, Out);
    var sole := In(Shared, false, Nothing, false);
    assert Subscribers(Two(Out, sole)) == {"b"};
    run := Step(MIXED_ROLES, s, [], s, Label("b", Subscribe), Two(Out, sole));
    run := Step(MIXED_ROLES, s, run, Two(Out, sole), Label("b", Count), Two(Out, sole.(view := Alone)));
    run := Step(MIXED_ROLES, s, run, Two(Out, sole.(view := Alone)), Label("b", Decide(false)), Two(Out, READING));
  }

  lemma {:induction false} WriterComesSecond() returns (run: seq<Label>)
    ensures Run(MIXED_ROLES, Two(Out, Out), run) == Some(Two(WAITING.(view := Crowded), READING))
  {
    var s := Two(Out, Out);
    assert Subscribers(Two(WAITING, READING)) == {"a", "b"};
    run := ReaderComesFirst();
    run := Step(MIXED_ROLES, s, run, Two(Out, READING), Label("a", Subscribe), Two(WAITING, READING));
    run := Step(MIXED_ROLES, s, run, Two(WAITING, READING), Label("a", Count), Two(WAITING.(view := Crowded), READING));
  }

  /** A run in which a reader holds, and a writer is elected by its probe. */
  lemma {:induction false} WriterIsElectedBehindReader() returns (s: Channel, run: seq<Label>)
    ensures Init(MIXED_ROLES, s) && Run(MIXED_ROLES, s, run) == Some(Two(ELECTED, READING))
  {
    var crowded, probed := WAITING.(view := Crowded), WAITING.(view := Probed(Some(MIXED)));
    s := Two(Out, Out);
    WriterSeesReader();
    run := WriterComesSecond();
    run := Step(MIXED_ROLES, s, run, Two(crowded, READING), Label("a", Probe(Some(MIXED))), Two(probed, READING));
    run := Step(MIXED_ROLES, s, run, Two(probed, READING), Label("a", Decide(false)), Two(ELECTED, READING));
  }

  /** Once that reader leaves, the elected writer finds itself alone and takes the lock. */
  lemma {:induction false} ElectedWriterFollowsReader()
    ensures Run(MIXED_ROLES, Two(ELECTED, READING), [Label("b", Leave), Label("a", Count), Label("a", Decide(true))])
            == Some(Two(In(Exclusive, true, Nothing, true), Out))
  {
    var s, alone := Two(ELECTED, READING), ELECTED.(view := Alone);
    assert Subscribers(Two(ELECTED, Out)) == {"a"};
    var run := Step(MIXED_ROLES, s, [], s, Label("b", Leave), Two(ELECTED, Out));
    run := Step(MIXED_ROLES, s, run, Two(ELECTED, Out), Label("a", Count), Two(alone, Out));
    run := Step(MIXED_ROLES, s, run, Two(alone, Out), Label("a", Decide(true)),
                Two(In(Exclusive, true, Nothing, true), Out));
    assert run == [Label("b", Leave), Label("a", Count), Label("a", Decide(true))];
  }

  lemma {:induction false} Step(roles: Roles, s: Channel, run: seq<Label>, mid: Channel, l: Label, next: Channel)
    returns (longer: seq<Label>)
    requires Run(roles, s, run) == Some(mid) && Enabled(roles, mid, l) && Apply(roles, mid, l) == next
    ensures longer == run + [l] && Run(roles, s, longer) == Some(next)
  {
    longer := run + [l];
    assert longer[..|run|] == run;
  }
}
