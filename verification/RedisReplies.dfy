/** What a holder answers to a ping, and that a probe reads it back. */
module RedisReplies {
  import opened Basics
  import Decimal
  import opened RedisElection
  import opened RedisProtocol
  import RedisProbe

  /** The value of a mode on the wire. */
  function WireName(mode: Mode): string {
    match mode
    case Exclusive => "exclusive"
    case Pending => "pending"
    case Shared => "shared"
  }

  /** The record `channel_handler` publishes. */
  function Reply(id: Id, mode: Mode): RedisProbe.Payload {
    RedisProbe.Mapping(Some(id), Some(WireName(mode)), Some(RedisProbe.REDIS_LOCK_PROTOCOL_VERSION))
  }

  /** Parsing a holder's reply gives back its id and its mode. */
  lemma ParseOfReply(id: Id, mode: Mode, legacyIndex: nat)
    ensures RedisProbe.ParseLockResponse(Reply(id, mode), legacyIndex) == Holder(id, mode, false)
  {
    WireNamesAreRead(WireName(mode));
  }

  lemma WireNamesAreRead(name: string)
    ensures forall mode :: RedisProbe.ModeNamed(name) == Some(mode) <==> name == WireName(mode)
  {
    assert |"exclusive"| == 9 && |"pending"| == 7 && |"shared"| == 6;
  }

  /** Nothing else is believed: whatever is no such reply counts as an exclusive legacy holder of a numbered id. */
  lemma {:induction false} OnlyRepliesAreBelieved(p: RedisProbe.Payload, legacyIndex: nat)
    ensures var h := RedisProbe.ParseLockResponse(p, legacyIndex);
            if exists id, mode :: p == Reply(id, mode) then p == Reply(h.id, h.mode) && !h.legacy
            else h == Holder("legacy-" + Decimal.Digits(legacyIndex), Exclusive, true)
  {
    if RedisProbe.IsRecord(p) {
      WireNamesAreRead(p.mode.value);
      assert p == Reply(p.holderId.value, RedisProbe.ModeNamed(p.mode.value).value);
    }
    if id, mode :| p == Reply(id, mode) {
      ParseOfReply(id, mode, legacyIndex);
    }
  }

  // ---- Probing a channel ----

  ghost predicate AnswerFrom(s: Channel, p: RedisProbe.Payload) {
    exists c | c in Subscribers(s) :: p == Reply(c, s[c].mode)
  }

  /** Only subscribers answer, each with the mode it has. */
  ghost predicate TruthfulAnswers(s: Channel, replies: seq<RedisProbe.Payload>) {
    forall p | p in replies :: AnswerFrom(s, p)
  }

  lemma AnswersAreRecords(s: Channel, replies: seq<RedisProbe.Payload>)
    requires TruthfulAnswers(s, replies)
    ensures forall p | p in replies :: RedisProbe.IsRecord(p)
    ensures RedisProbe.RecordIds(replies) == set c | c in Subscribers(s) && Reply(c, s[c].mode) in replies
  {
    forall p | p in replies
      ensures RedisProbe.IsRecord(p) && p.holderId.value in Subscribers(s) &&
              p == Reply(p.holderId.value, s[p.holderId.value].mode)
    {
      var c :| c in Subscribers(s) && p == Reply(c, s[c].mode);
      WireNamesAreRead(p.mode.value);
    }
    forall c | c in Subscribers(s) && Reply(c, s[c].mode) in replies ensures c in RedisProbe.RecordIds(replies) {
      assert Reply(c, s[c].mode).holderId.value == c;
    }
  }

  lemma {:induction false} LastModeIsTrue(s: Channel, replies: seq<RedisProbe.Payload>, c: Id)
    requires TruthfulAnswers(s, replies) && c in RedisProbe.RecordIds(replies)
    ensures c in Subscribers(s) && RedisProbe.LastMode(replies, c) == s[c].mode
  {
    var n := |replies| - 1;
    var p := replies[n];
    assert replies == replies[..n] + [p] && AnswerFrom(s, p);
    WireNamesAreRead(p.mode.value);
    if !(RedisProbe.IsRecord(p) && p.holderId.value == c) {
      RedisProbe.RecordIdsGrow(replies[..n], p);
      LastModeIsTrue(s, replies[..n], c);
    }
  }

  /** The records read from truthful replies are those who answered, once each, with the modes they have. */
  lemma {:induction false} RecordsAreTrue(s: Channel, replies: seq<RedisProbe.Payload>)
    requires TruthfulAnswers(s, replies)
    ensures RedisProbe.DistinctIds(RedisProbe.Dict(replies).0)
    ensures forall h :: h in RedisProbe.Dict(replies).0 <==>
              h.id in Subscribers(s) && Reply(h.id, s[h.id].mode) in replies && h == Holder(h.id, s[h.id].mode, false)
  {
    AnswersAreRecords(s, replies);
    RedisProbe.RecordsLeaveNoLegacy(replies);
    assert RedisProbe.LegacyIds(0) == {};
    RedisProbe.DictIds(replies);
    RedisProbe.DictHolds(replies);
    forall h ensures h in RedisProbe.Dict(replies).0 <==>
      h.id in Subscribers(s) && Reply(h.id, s[h.id].mode) in replies && h == Holder(h.id, s[h.id].mode, false)
    {
      assert h in RedisProbe.Dict(replies).0 <==> RedisProbe.Holds(replies, 0, h);
      if h.id in RedisProbe.RecordIds(replies) {
        LastModeIsTrue(s, replies, h.id);
      }
    }
  }

  /** As many records as subscribers, all true, are a snapshot. */
  lemma {:induction false} FullRecordsAreSnapshot(s: Channel, replies: seq<RedisProbe.Payload>)
    requires TruthfulAnswers(s, replies)
    ensures |RedisProbe.Dict(replies).0| == |Subscribers(s)| <==>
            forall c | c in Subscribers(s) :: Reply(c, s[c].mode) in replies
    ensures |RedisProbe.Dict(replies).0| == |Subscribers(s)| ==> IsSnapshot(s, RedisProbe.Dict(replies).0)
  {
    var holders := RedisProbe.Dict(replies).0;
    RecordsAreTrue(s, replies);
    RedisProbe.IdsCount(holders);
    assert RedisProbe.Ids(holders) <= Subscribers(s);
    assert |Subscribers(s) - RedisProbe.Ids(holders)| == |Subscribers(s)| - |RedisProbe.Ids(holders)|;
    if |holders| == |Subscribers(s)| {
      forall c | c in Subscribers(s)
        ensures Reply(c, s[c].mode) in replies && exists h | h in holders :: h.id == c
      {
        assert c in RedisProbe.Ids(holders);
      }
    } else if forall c | c in Subscribers(s) :: Reply(c, s[c].mode) in replies {
      forall c | c in Subscribers(s) ensures c in RedisProbe.Ids(holders) {
        assert Holder(c, s[c].mode, false) in holders;
      }
    }
  }

  /**
   A probe of an unchanging channel by one of its clients. It is conclusive exactly when every subscriber answered,
   and then its records are the snapshot that the channel's probe step shows.
   */
  method ProbeUnchanged(roles: Roles, s: Channel, me: Id, polls: seq<Option<RedisProbe.Payload>>)
    returns (holders: Option<seq<Holder>>)
    requires me in roles && ClientOf(s, me).In? && s[me].view.Crowded?
    requires TruthfulAnswers(s, RedisProbe.Heard(polls))
    ensures Enabled(roles, s, Label(me, Probe(holders)))
    ensures holders.Some? <==> forall c | c in Subscribers(s) :: Reply(c, s[c].mode) in RedisProbe.Heard(polls)
  {
    var expected := |Subscribers(s)|;
    assert me in Subscribers(s);
    var kill, responders, n;
    holders, kill, responders, n := RedisProbe.CollectLockHolders(polls, expected, expected);
    RedisProbe.HeardPrefix(polls, n);
    var heard := RedisProbe.Heard(polls[..n]);
    assert forall p | p in heard :: p in RedisProbe.Heard(polls);
    FullRecordsAreSnapshot(s, heard);
    EveryAnswerCounts(s, polls, n);
  }

  lemma {:induction false} EveryAnswerCounts(s: Channel, polls: seq<Option<RedisProbe.Payload>>, n: nat)
    requires TruthfulAnswers(s, RedisProbe.Heard(polls)) && RedisProbe.StopsAfter(polls, |Subscribers(s)|, n)
    requires RedisProbe.Heard(polls[..n]) <= RedisProbe.Heard(polls)
    ensures |RedisProbe.Dict(RedisProbe.Heard(polls[..n])).0| == |Subscribers(s)| <==>
            forall c | c in Subscribers(s) :: Reply(c, s[c].mode) in RedisProbe.Heard(polls)
  {
    var heard := RedisProbe.Heard(polls[..n]);
    assert forall p | p in heard :: p in RedisProbe.Heard(polls);
    FullRecordsAreSnapshot(s, heard);
    if n == |polls| {
      assert polls[..n] == polls;
    } else {
      NoMoreThanSubscribers(s, heard);
      assert RedisProbe.Answers(polls, n) >= |Subscribers(s)|;
    }
  }

  lemma {:induction false} NoMoreThanSubscribers(s: Channel, replies: seq<RedisProbe.Payload>)
    requires TruthfulAnswers(s, replies)
    ensures |RedisProbe.Dict(replies).0| <= |Subscribers(s)|
  {
    var holders := RedisProbe.Dict(replies).0;
    RecordsAreTrue(s, replies);
    RedisProbe.IdsCount(holders);
    assert RedisProbe.Ids(holders) <= Subscribers(s);
    assert |Subscribers(s) - RedisProbe.Ids(holders)| == |Subscribers(s)| - |RedisProbe.Ids(holders)|;
  }

  // ---- Holders of older releases ----

  /** This unreadable reply was given an id that no later record carries. */
  ghost predicate Stands(replies: seq<RedisProbe.Payload>, i: nat) {
    i < |replies| && !RedisProbe.IsRecord(replies[i]) &&
    forall j | i < j < |replies| && RedisProbe.IsRecord(replies[j]) ::
      replies[j].holderId.value != LegacyIdAt(replies, i)
  }

  ghost function LegacyIdAt(replies: seq<RedisProbe.Payload>, i: nat): string
    requires i <= |replies|
  {
    RedisProbe.LegacyId(RedisProbe.Dict(replies[..i]).1)
  }

  lemma {:induction false} LegacyIndexGrows(replies: seq<RedisProbe.Payload>, i: nat)
    requires i < |replies| && !RedisProbe.IsRecord(replies[i])
    ensures RedisProbe.Dict(replies[..i]).1 < RedisProbe.Dict(replies).1
  {
    var n := |replies| - 1;
    assert replies == replies[..n] + [replies[n]];
    RedisProbe.DictGrows(replies[..n], replies[n]);
    if i < n {
      LegacyIndexGrows(replies[..n], i);
      assert replies[..n][..i] == replies[..i];
    }
  }

  lemma StandsAfterOneMore(before: seq<RedisProbe.Payload>, p: RedisProbe.Payload, i: nat)
    requires i < |before|
    ensures LegacyIdAt(before + [p], i) == LegacyIdAt(before, i)
    ensures Stands(before + [p], i) <==>
            Stands(before, i) && !(RedisProbe.IsRecord(p) && p.holderId.value == LegacyIdAt(before, i))
  {
    var all := before + [p];
    assert all[..i] == before[..i];
    assert forall j | 0 <= j < |before| :: all[j] == before[j];
    assert all[|before|] == p;
  }

  ghost predicate HeldByLegacy(replies: seq<RedisProbe.Payload>, h: Holder) {
    exists i: nat :: Stands(replies, i) && h == Holder(LegacyIdAt(replies, i), Exclusive, true)
  }

  /** The legacy holders in the dictionary are the unreadable replies that stand. */
  lemma {:induction false} LegacyHoldersStand(replies: seq<RedisProbe.Payload>, h: Holder)
    ensures h in RedisProbe.Dict(replies).0 && h.legacy <==> HeldByLegacy(replies, h)
  {
    if replies != [] {
      var n := |replies| - 1;
      LegacyHoldersStand(replies[..n], h);
      assert replies == replies[..n] + [replies[n]];
      OneMoreHeld(replies[..n], replies[n], h);
    } else {
      assert forall i: nat :: !Stands(replies, i);
    }
  }

  lemma {:induction false} OneMoreHeld(before: seq<RedisProbe.Payload>, p: RedisProbe.Payload, h: Holder)
    requires h in RedisProbe.Dict(before).0 && h.legacy <==> HeldByLegacy(before, h)
    ensures h in RedisProbe.Dict(before + [p]).0 && h.legacy <==> HeldByLegacy(before + [p], h)
  {
    var (holders, k) := RedisProbe.Dict(before);
    assert before[..|before|] == before;
    RedisProbe.DictGrows(before, p);
    RedisProbe.DictIds(before);
    RedisProbe.PutFacts(holders, RedisProbe.ParseLockResponse(p, k));
    OneMoreStands(before, p, h);
  }

  lemma {:induction false} OneMoreStands(before: seq<RedisProbe.Payload>, p: RedisProbe.Payload, h: Holder)
    ensures var id := if RedisProbe.IsRecord(p) then p.holderId.value else LegacyIdAt(before, |before|);
            HeldByLegacy(before + [p], h) <==>
            (!RedisProbe.IsRecord(p) && h == Holder(id, Exclusive, true)) || (h.id != id && HeldByLegacy(before, h))
  {
    var all := before + [p];
    assert all[..|before|] == before && before[..|before|] == before;
    assert Stands(all, |before|) <==> !RedisProbe.IsRecord(p);
    forall i: nat | i < |before| && Stands(before, i)
      ensures !RedisProbe.IsRecord(p) ==> LegacyIdAt(before, i) != LegacyIdAt(before, |before|)
    {
      LegacyIndexGrows(before, i);
      if LegacyIdAt(before, i) == LegacyIdAt(before, |before|) {
        RedisProbe.LegacyIdsDiffer(RedisProbe.Dict(before[..i]).1, RedisProbe.Dict(before).1);
      }
    }
    forall i: nat | i < |before|
      ensures LegacyIdAt(all, i) == LegacyIdAt(before, i)
      ensures Stands(all, i) <==>
              Stands(before, i) && !(RedisProbe.IsRecord(p) && p.holderId.value == LegacyIdAt(before, i))
    {
      StandsAfterOneMore(before, p, i);
    }
  }

  /**
   A connection of an older release is spared exactly when some unreadable reply stands, so it is when one came and
   no record takes a reserved id.
   */
  lemma {:induction false} LegacyIsSparedExactlyWhen(channel: string, replies: seq<RedisProbe.Payload>)
    ensures !RedisProbe.Unavailable(channel, RedisProbe.Dict(replies).0, RedisProbe.LegacyClientName(channel)) <==>
            exists i: nat :: Stands(replies, i)
  {
    var holders := RedisProbe.Dict(replies).0;
    forall h: Holder
      ensures h in holders && h.legacy <==> HeldByLegacy(replies, h)
    {
      LegacyHoldersStand(replies, h);
    }
    if i: nat :| Stands(replies, i) {
      assert Holder(LegacyIdAt(replies, i), Exclusive, true) in holders;
    }
  }

  /** An older holder that answered is killed when a record with its id comes after it. */
  lemma {:induction false} AnsweredLegacyIsKilled(channel: string) returns (replies: seq<RedisProbe.Payload>)
    ensures replies == [RedisProbe.NotAMapping, Reply("legacy-0", Shared)]
    ensures RedisProbe.Unavailable(channel, RedisProbe.Dict(replies).0, RedisProbe.LegacyClientName(channel))
  {
    replies := [RedisProbe.NotAMapping, Reply("legacy-0", Shared)];
    assert replies[..0] == [];
    assert RedisProbe.LegacyId(0) == "legacy-0";
    ParseOfReply("legacy-0", Shared, 0);
    LegacyIsSparedExactlyWhen(channel, replies);
    assert forall i: nat | Stands(replies, i) :: i == 0;
  }
}
