/**
 `RedisLock` holders on one channel. Observing and acting on the observation are separate steps of
 the split model; the linearised model takes them together. A conclusive probe is an exact snapshot
 of the subscribers and their modes at one instant, and any probe may be inconclusive.
 */
module RedisProtocol {
  import opened Basics
  import opened RedisElection

  type Id = string

  /** What a client has observed and not acted on yet. */
  datatype View = Nothing | Alone | Crowded | Probed(holders: Option<seq<Holder>>)

  /** A lock object on the channel: unsubscribed, or subscribed with its advertised mode. */
  datatype Client = Out | In(mode: Mode, elected: bool, view: View, holds: bool)

  /** Which clients are writers; fixed by their flags. */
  type Roles = map<Id, bool>

  type Channel = map<Id, Client>

  datatype Event =
    | Subscribe
    | Count
    | Probe(holders: Option<seq<Holder>>)
    | Decide(failWhenLocked: bool)
    | Leave // release, time-out, crash or kill: subscription and ownership go together

  datatype Label = Label(who: Id, ev: Event)

  function ClientOf(s: Channel, c: Id): Client {
    if c in s then s[c] else Out
  }

  function Subscribers(s: Channel): set<Id> {
    set c | c in s && s[c].In?
  }

  /** The records a conclusive probe collects, in some order. */
  predicate IsSnapshot(s: Channel, holders: seq<Holder>) {
    (forall i, j | 0 <= i < j < |holders| :: holders[i].id != holders[j].id) &&
    (forall h | h in holders :: h.id in s && s[h.id].In? && h.mode == s[h.id].mode && !h.legacy) &&
    (forall c | c in s && s[c].In? :: exists h | h in holders :: h.id == c)
  }

  function InitialMode(writer: bool): Mode {
    if writer then Pending else Shared
  }

  predicate Enabled(roles: Roles, s: Channel, l: Label) {
    l.who in roles && l.who in s &&
    var c := s[l.who];
    match l.ev
    case Subscribe => c.Out?
    case Count => c.In? && !c.holds && c.view.Nothing?
    case Probe(holders) => c.In? && c.view.Crowded? && (holders.Some? ==> IsSnapshot(s, holders.value))
    case Decide(_) => c.In? && (c.view.Alone? || c.view.Probed?)
    case Leave => c.In?
  }

  /** The client after acting on its view. */
  function Decided(writer: bool, me: Id, c: Client, failWhenLocked: bool): Client
    requires c.In? && (c.view.Alone? || c.view.Probed?)
  {
    if c.view.Alone? then In(if writer then Exclusive else c.mode, c.elected, Nothing, true)
    else
      match Resolve(writer, me, c.elected, c.view.holders, failWhenLocked)
      case Taken(promoted) => In(if promoted then Exclusive else c.mode, c.elected || promoted, Nothing, true)
      case Keep => In(c.mode, true, Nothing, false)
      case BackOff => Out
      case Fail => Out
  }

  function Apply(roles: Roles, s: Channel, l: Label): Channel
    requires Enabled(roles, s, l)
  {
    var c := s[l.who];
    var c' :=
      match l.ev
      case Subscribe => In(InitialMode(roles[l.who]), false, Nothing, false)
      case Count => c.(view := if |Subscribers(s)| == 1 then Alone else Crowded)
      case Probe(holders) => c.(view := Probed(holders))
      case Decide(fail) => Decided(roles[l.who], l.who, c, fail)
      case Leave => Out;
    s[l.who := c']
  }

  function Run(roles: Roles, s: Channel, run: seq<Label>): Option<Channel> {
    if run == [] then Some(s)
    else
      var before := Run(roles, s, run[..|run| - 1]);
      var l := run[|run| - 1];
      if before.Some? && Enabled(roles, before.value, l) then Some(Apply(roles, before.value, l)) else None
  }

  ghost predicate Init(roles: Roles, s: Channel) {
    s.Keys == roles.Keys && forall c | c in s :: s[c].Out?
  }

  ghost predicate Reachable(roles: Roles, s: Channel) {
    exists s0, run :: Init(roles, s0) && Run(roles, s0, run) == Some(s)
  }

  predicate Holds(s: Channel, c: Id) {
    ClientOf(s, c).In? && ClientOf(s, c).holds
  }

  /** Acting on its view would make this client a holder. */
  predicate Entitled(roles: Roles, s: Channel, c: Id) {
    c in roles &&
    var k := ClientOf(s, c);
    k.In? && !k.holds &&
    (k.view.Alone? || (k.view.Probed? && Resolve(roles[c], c, k.elected, k.view.holders, false).Taken?))
  }

  predicate Claims(roles: Roles, s: Channel, c: Id) {
    Holds(s, c) || Entitled(roles, s, c)
  }

  // ---- Advertised modes ----

  /** A subscribed reader advertises shared; a subscribed writer pending, or exclusive once it holds. */
  ghost predicate Truthful(roles: Roles, s: Channel) {
    s.Keys == roles.Keys &&
    forall c | c in s && s[c].In? ::
      if roles[c] then s[c].mode == if s[c].holds then Exclusive else Pending
      else s[c].mode == Shared && !s[c].elected
  }

  /** A writer's own probe shows it as pending, so it never looks compatible with itself being exclusive. */
  lemma StepKeepsTruthful(roles: Roles, s: Channel, l: Label)
    requires Truthful(roles, s) && Enabled(roles, s, l)
    requires Consistent(roles, s)
    ensures Truthful(roles, Apply(roles, s, l))
  {
  }

  /** Holders have acted on their view. */
  ghost predicate Consistent(roles: Roles, s: Channel) {
    forall c | c in s && s[c].In? && s[c].holds :: s[c].view.Nothing?
  }

  lemma StepKeepsConsistent(roles: Roles, s: Channel, l: Label)
    requires Consistent(roles, s) && Enabled(roles, s, l)
    ensures Consistent(roles, Apply(roles, s, l))
  {
  }

  // ---- Readers against writers ----

  ghost predicate NoReaderWithWriter(roles: Roles, s: Channel) {
    forall r, w | r in roles && w in roles && !roles[r] && roles[w] :: !(Claims(roles, s, r) && Claims(roles, s, w))
  }

  lemma OnlySubscriber(s: Channel, c: Id, d: Id)
    requires c in Subscribers(s) && d in Subscribers(s) && |Subscribers(s)| == 1
    ensures c == d
  {
    assert |Subscribers(s) - {c}| == 0;
    assert d !in Subscribers(s) - {c};
  }

  lemma ClaimOfOthersUnchanged(roles: Roles, s: Channel, l: Label, d: Id)
    requires Enabled(roles, s, l) && d != l.who
    ensures ClientOf(Apply(roles, s, l), d) == ClientOf(s, d)
    ensures Claims(roles, Apply(roles, s, l), d) == Claims(roles, s, d)
  {
  }

  lemma SnapshotShowsModes(s: Channel, holders: seq<Holder>)
    ensures IsSnapshot(s, holders) ==>
              forall c | c in s && s[c].In? :: exists h | h in holders :: h.id == c && h.mode == s[c].mode
  {
  }

  /** A client that starts to claim saw a channel without anybody of the other role. */
  lemma NewClaimSeesNoOpposite(roles: Roles, s: Channel, l: Label, d: Id)
    requires Truthful(roles, s) && Enabled(roles, s, l) && d in roles && roles[d] != roles[l.who]
    requires Claims(roles, Apply(roles, s, l), l.who) && !Claims(roles, s, l.who)
    ensures ClientOf(s, d).Out?
  {
    var me := l.who;
    match l.ev
    case Count =>
      if ClientOf(s, d).In? {
        OnlySubscriber(s, me, d);
      }
    case Probe(holders) =>
      TakenExactlyWhen(roles[me], me, s[me].elected, holders, false);
      SnapshotShowsModes(s, if holders.Some? then holders.value else []);
    case _ =>
  }

  lemma StepKeepsReadersApart(roles: Roles, s: Channel, l: Label)
    requires Truthful(roles, s) && Consistent(roles, s) && NoReaderWithWriter(roles, s) && Enabled(roles, s, l)
    ensures NoReaderWithWriter(roles, Apply(roles, s, l))
  {
    var s' := Apply(roles, s, l);
    forall r, w | r in roles && w in roles && !roles[r] && roles[w]
      ensures !(Claims(roles, s', r) && Claims(roles, s', w))
    {
      if Claims(roles, s', r) && Claims(roles, s', w) {
        var other := if l.who == r then w else r;
        if l.who == r || l.who == w {
          ClaimOfOthersUnchanged(roles, s, l, other);
          if !Claims(roles, s, l.who) {
            NewClaimSeesNoOpposite(roles, s, l, other);
          }
        } else {
          ClaimOfOthersUnchanged(roles, s, l, r);
          ClaimOfOthersUnchanged(roles, s, l, w);
        }
      }
    }
  }

  ghost predicate Inv(roles: Roles, s: Channel) {
    Truthful(roles, s) && Consistent(roles, s) && NoReaderWithWriter(roles, s)
  }

  lemma StepKeepsInv(roles: Roles, s: Channel, l: Label)
    requires Inv(roles, s) && Enabled(roles, s, l)
    ensures Inv(roles, Apply(roles, s, l))
  {
    StepKeepsTruthful(roles, s, l);
    StepKeepsConsistent(roles, s, l);
    StepKeepsReadersApart(roles, s, l);
  }

  lemma {:induction false} RunKeepsInv(roles: Roles, s: Channel, run: seq<Label>)
    requires Inv(roles, s) && Run(roles, s, run).Some?
    ensures Inv(roles, Run(roles, s, run).value)
  {
    if run != [] {
      RunKeepsInv(roles, s, run[..|run| - 1]);
      StepKeepsInv(roles, Run(roles, s, run[..|run| - 1]).value, run[|run| - 1]);
    }
  }

  lemma ReachableInv(roles: Roles, s: Channel)
    requires Reachable(roles, s)
    ensures Inv(roles, s)
  {
    var s0, run :| Init(roles, s0) && Run(roles, s0, run) == Some(s);
    RunKeepsInv(roles, s0, run);
  }

  /**
   In every run of the split model no reader and writer both hold or are both entitled to hold,
   however long either waits before acting on its snapshot.
   */
  lemma ReadersExcludeWriters(roles: Roles, s: Channel, r: Id, w: Id)
    requires Reachable(roles, s) && r in roles && w in roles && !roles[r] && roles[w]
    ensures !(Claims(roles, s, r) && Claims(roles, s, w))
  {
    ReachableInv(roles, s);
  }

  // ---- Readers drain ----

  function ClaimingReaders(roles: Roles, s: Channel): set<Id> {
    set r | r in roles && !roles[r] && Claims(roles, s, r)
  }

  lemma StepShrinksReaders(roles: Roles, s: Channel, l: Label, w: Id)
    requires Inv(roles, s) && Enabled(roles, s, l) && w in roles && roles[w] && ClientOf(s, w).In?
    ensures ClaimingReaders(roles, Apply(roles, s, l)) <= ClaimingReaders(roles, s)
  {
    forall r | r in ClaimingReaders(roles, Apply(roles, s, l)) ensures r in ClaimingReaders(roles, s) {
      if r == l.who {
        if !Claims(roles, s, r) {
          NewClaimSeesNoOpposite(roles, s, l, w);
        }
      } else {
        ClaimOfOthersUnchanged(roles, s, l, r);
      }
    }
  }

  /** The writer is subscribed in every state of the run. */
  ghost predicate StaysSubscribed(roles: Roles, s: Channel, run: seq<Label>, w: Id) {
    forall n | 0 <= n <= |run| :: Run(roles, s, run[..n]).Some? && ClientOf(Run(roles, s, run[..n]).value, w).In?
  }

  /** While a writer stays subscribed no reader gains the lock or the right to it. */
  lemma {:induction false} ReadersOnlyDrain(roles: Roles, s: Channel, run: seq<Label>, w: Id)
    requires Reachable(roles, s) && Run(roles, s, run).Some? && w in roles && roles[w]
    requires StaysSubscribed(roles, s, run, w)
    ensures ClaimingReaders(roles, Run(roles, s, run).value) <= ClaimingReaders(roles, s)
  {
    if run != [] {
      var n := |run| - 1;
      forall k | 0 <= k <= n ensures run[..n][..k] == run[..k] {}
      ReadersOnlyDrain(roles, s, run[..n], w);
      ReachableInv(roles, s);
      RunKeepsInv(roles, s, run[..n]);
      assert ClientOf(Run(roles, s, run[..n]).value, w).In?;
      StepShrinksReaders(roles, Run(roles, s, run[..n]).value, run[n], w);
    }
  }

  /** An elected writer facing an inconclusive probe stays subscribed, pending and elected, and does not hold. */
  lemma ElectedWriterStays(roles: Roles, s: Channel, w: Id, fail: bool)
    requires Reachable(roles, s) && w in roles && roles[w] && Enabled(roles, s, Label(w, Decide(fail)))
    requires s[w].elected && s[w].view == Probed(None)
    ensures Apply(roles, s, Label(w, Decide(fail))) == s[w := In(Pending, true, Nothing, false)]
  {
    ReachableInv(roles, s);
  }

  /**
   A retrying writer whose conclusive probe shows it next, nobody exclusive and some reader, stays subscribed as
   the elected writer, still advertising pending.
   */
  lemma {:induction false} SeeingReadersElects(roles: Roles, s: Channel, w: Id, holders: seq<Holder>)
    requires Reachable(roles, s) && w in roles && roles[w] && Enabled(roles, s, Label(w, Probe(Some(holders))))
    requires forall c | c in s && s[c].In? :: s[c].mode != Exclusive && (s[c].mode == Pending ==> !StrLess(c, w))
    requires exists c | c in s :: s[c].In? && s[c].mode == Shared
    ensures Run(roles, s, [Label(w, Probe(Some(holders))), Label(w, Decide(false))]) ==
            Some(s[w := In(Pending, true, Nothing, false)])
  {
    ReachableInv(roles, s);
    SnapshotShowsModes(s, holders);
    KeepExactlyWhen(true, w, s[w].elected, Some(holders), false);
    ProbeThenDecide(roles, s, w, holders);
  }

  lemma {:induction false} ProbeThenDecide(roles: Roles, s: Channel, w: Id, holders: seq<Holder>)
    requires Inv(roles, s) && w in roles && roles[w] && Enabled(roles, s, Label(w, Probe(Some(holders))))
    ensures Run(roles, s, [Label(w, Probe(Some(holders))), Label(w, Decide(false))]) ==
            Some(s[w := Decided(true, w, s[w].(view := Probed(Some(holders))), false)])
    ensures s[w].mode == Pending && !s[w].holds
  {
    var l, m := Label(w, Probe(Some(holders))), Label(w, Decide(false));
    var probed := s[w].(view := Probed(Some(holders)));
    RunOne(roles, s, l);
    assert [l, m][..1] == [l];
    assert s[w := probed][w := Decided(true, w, probed, false)] == s[w := Decided(true, w, probed, false)];
  }

  lemma {:induction false} RunOne(roles: Roles, s: Channel, l: Label)
    requires Enabled(roles, s, l)
    ensures Run(roles, s, [l]) == Some(Apply(roles, s, l))
  {
    assert [l][..0] == [];
  }

  /** Seeing an exclusive holder or a smaller candidate costs a retrying writer its subscription instead. */
  lemma {:induction false} SeeingBetterRetires(roles: Roles, s: Channel, w: Id, holders: seq<Holder>, c: Id)
    requires Reachable(roles, s) && w in roles && roles[w] && Enabled(roles, s, Label(w, Probe(Some(holders))))
    requires c in s && s[c].In? && (s[c].mode == Exclusive || (s[c].mode == Pending && StrLess(c, w)))
    ensures Run(roles, s, [Label(w, Probe(Some(holders))), Label(w, Decide(false))]) == Some(s[w := Out])
  {
    ReachableInv(roles, s);
    ProbeThenDecide(roles, s, w, holders);
    BetterIsSeen(s, holders, w, c);
    BackOffExactlyWhen(true, w, s[w].elected, Some(holders), false);
  }

  lemma {:induction false} BetterIsSeen(s: Channel, holders: seq<Holder>, w: Id, c: Id)
    requires IsSnapshot(s, holders)
    requires c in s && s[c].In? && (s[c].mode == Exclusive || (s[c].mode == Pending && StrLess(c, w)))
    ensures !LeastPending(w, holders) || exists h | h in holders :: h.mode == Exclusive
  {
    var h :| h in holders && h.id == c;
    assert h.mode == s[c].mode;
  }

  /**
   A waiting writer's conclusive probe gives it the lock exactly when the readers are gone and it is the least
   candidate.
   */
  lemma {:induction false} WriterTakesExactlyWhen(roles: Roles, s: Channel, w: Id, holders: seq<Holder>)
    requires Reachable(roles, s) && w in roles && roles[w] && Enabled(roles, s, Label(w, Probe(Some(holders))))
    ensures Entitled(roles, Apply(roles, s, Label(w, Probe(Some(holders)))), w) <==>
            forall c | c in s && s[c].In? :: s[c].mode == Pending && !StrLess(c, w)
  {
    ReachableInv(roles, s);
    TakenExactlyWhen(true, w, s[w].elected, Some(holders), false);
    SnapshotShowsModes(s, holders);
    assert s[w].In?;
  }

  /** Elected, subscribed, and not about to act on a list of holders. */
  ghost predicate Steady(s: Channel, w: Id) {
    var c := ClientOf(s, w);
    c.In? && c.elected && !(c.view.Probed? && c.view.holders.Some?)
  }

  /** No step of the writer in this run leaves the channel or gets a conclusive probe. */
  ghost predicate OnlyNoise(run: seq<Label>, w: Id) {
    forall l | l in run && l.who == w :: !l.ev.Leave? && (l.ev.Probe? ==> l.ev.holders.None?)
  }

  lemma StepKeepsSteady(roles: Roles, s: Channel, l: Label, w: Id)
    requires Enabled(roles, s, l) && w in roles && Steady(s, w)
    requires l.who == w ==> !l.ev.Leave? && (l.ev.Probe? ==> l.ev.holders.None?)
    ensures Steady(Apply(roles, s, l), w)
  {
  }

  /**
   However many probes are inconclusive and whatever the others do, an elected writer stays subscribed and
   elected, and the readers that hold or may proceed only become fewer.
   */
  lemma {:induction false} ElectedWriterDrainsReaders(roles: Roles, s: Channel, run: seq<Label>, w: Id)
    requires Reachable(roles, s) && Run(roles, s, run).Some? && w in roles && roles[w]
    requires Steady(s, w) && OnlyNoise(run, w)
    ensures Steady(Run(roles, s, run).value, w)
    ensures ClaimingReaders(roles, Run(roles, s, run).value) <= ClaimingReaders(roles, s)
  {
    if run != [] {
      var n := |run| - 1;
      ElectedWriterDrainsReaders(roles, s, run[..n], w);
      ReachableInv(roles, s);
      RunKeepsInv(roles, s, run[..n]);
      var before := Run(roles, s, run[..n]).value;
      assert run[n] in run;
      StepKeepsSteady(roles, before, run[n], w);
      StepShrinksReaders(roles, before, run[n], w);
    }
  }
}
