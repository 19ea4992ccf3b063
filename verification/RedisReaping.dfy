/** Probing, reaping and probing again. */
module RedisReaping {
  import opened Basics
  import opened RedisElection
  import opened RedisProbe

  /** The subscribers that answered a probe, all of them current-protocol holders. */
  ghost predicate AnsweredBy(replies: seq<Payload>, who: set<string>) {
    (forall p | p in replies :: IsRecord(p)) && RecordIds(replies) == who
  }

  lemma {:induction false} RecordsMakeProtocolHolders(replies: seq<Payload>)
    requires forall p | p in replies :: IsRecord(p)
    ensures ProtocolIds(Dict(replies).0) == Ids(Dict(replies).0) == RecordIds(replies)
  {
    RecordsLeaveNoLegacy(replies);
    assert LegacyIds(0) == {};
    DictIds(replies);
    DictHolds(replies);
    forall h | h in Dict(replies).0 ensures !h.legacy {
      assert Holds(replies, 0, h);
    }
  }

  /** A probe sees no more ids than answered, and all of them when it runs out of time. */
  lemma {:induction false} RespondersAnswered(polls: seq<Option<Payload>>, n: nat, who: set<string>)
    requires n <= |polls| && AnsweredBy(Heard(polls), who)
    ensures var seen := Dict(Heard(polls[..n])).0;
            DistinctIds(seen) && |Ids(seen)| == |seen| && ProtocolIds(seen) == Ids(seen) <= who
    ensures n == |polls| ==> Ids(Dict(Heard(polls[..n])).0) == who
  {
    HeardPrefix(polls, n);
    var heard := Heard(polls[..n]);
    assert forall p | p in heard :: p in Heard(polls);
    RecordsMakeProtocolHolders(heard);
    DictIds(heard);
    IdsCount(Dict(heard).0);
    if n == |polls| {
      assert polls[..n] == polls;
    }
  }

  lemma SameSizeIsAll(some: set<string>, all: set<string>)
    requires some <= all
    ensures |some| <= |all| && (|some| == |all| <==> some == all)
  {
    assert |all - some| == |all| - |some|;
  }

  /** A probe of these subscribers collects exactly those who answered. */
  lemma {:induction false} ProbeFindsAnswered(polls: seq<Option<Payload>>, n: nat, subscribers: set<string>,
                                              answered: set<string>)
    requires AnsweredBy(Heard(polls), answered) && answered <= subscribers
    requires StopsAfter(polls, |subscribers|, n)
    ensures var seen := Dict(Heard(polls[..n])).0;
            ProtocolIds(seen) == Ids(seen) == answered && |seen| == |answered|
    ensures |answered| <= |subscribers| && (|answered| == |subscribers| <==> answered == subscribers)
  {
    RespondersAnswered(polls, n, answered);
    SameSizeIsAll(answered, subscribers);
    SameSizeIsAll(Ids(Dict(Heard(polls[..n])).0), answered);
    assert n < |polls| ==> Answers(polls, n) >= |subscribers|;
  }

  /** The subscribers whose connections were not killed. */
  ghost function Survivors(subscribers: map<string, nat>, killed: seq<nat>): set<string> {
    set h | h in subscribers && subscribers[h] !in killed
  }

  /** The killed connections are those of the silent subscribers. */
  ghost predicate KillsTheSilent(channel: string, clients: seq<Connection>, subscribers: map<string, nat>,
                                 answered: set<string>, killed: seq<nat>)
  {
    forall c | c in clients :: c.id in killed <==>
      exists h | h in subscribers && h !in answered :: c == Connection(subscribers[h], ClientName(channel, h))
  }

  lemma KilledAreSilent(channel: string, clients: seq<Connection>, subscribers: map<string, nat>,
                        answered: set<string>, killed: seq<nat>)
    requires OnlyCurrentHolders(channel, clients, subscribers)
    requires Survivors(subscribers, killed) == answered
    requires forall x | x in killed :: exists h | h in subscribers :: subscribers[h] == x
    ensures KillsTheSilent(channel, clients, subscribers, answered, killed)
  {
  }

  /** One probe, and the reaping it may lead to. */
  method ProbeAndReap(channel: string, clients: seq<Connection>, subscribers: map<string, nat>,
                      polls: seq<Option<Payload>>, ghost answered: set<string>)
    returns (first: Option<seq<Holder>>, killed: seq<nat>, left: nat)
    requires OnlyCurrentHolders(channel, clients, subscribers) && |subscribers| > 0
    requires AnsweredBy(Heard(polls), answered) && answered <= subscribers.Keys
    ensures first.Some? <==> answered == subscribers.Keys
    ensures KillsTheSilent(channel, clients, subscribers, answered, killed)
    ensures Survivors(subscribers, killed) == answered && left == |answered|
  {
    var kill, responders, n;
    first, kill, responders, n := CollectLockHolders(polls, |subscribers|, |subscribers|);
    ProbeFindsAnswered(polls, n, subscribers.Keys, answered);
    killed, left := [], |responders|;
    if kill {
      killed := KillUnavailableLocks(channel, clients, responders);
      SurvivorsAreResponders(channel, clients, subscribers, responders, killed);
    }
    KilledAreSilent(channel, clients, subscribers, answered, killed);
  }

  /** The survivors are as many as answered. */
  method ProbeAgain(again: seq<Option<Payload>>, ghost survivors: set<string>, expected: nat)
    returns (holders: Option<seq<Holder>>)
    requires expected == |survivors| > 0
    ensures AnsweredBy(Heard(again), survivors) ==>
              holders.Some? && DistinctIds(holders.value) && Ids(holders.value) == survivors
  {
    var kill, responders, n;
    holders, kill, responders, n := CollectLockHolders(again, expected, expected);
    if AnsweredBy(Heard(again), survivors) {
      AnsweredProbeIsConclusive(again, survivors, n);
    }
  }

  /**
   A probe of current-protocol holders whose membership only the reaping changes. If all answer, the probe is
   conclusive. Otherwise exactly the silent ones are killed, the prober, who answered itself, survives, and a
   following probe that all survivors answer is conclusive and lists exactly them.
   */
  method ProbeReapProbe(channel: string, clients: seq<Connection>, subscribers: map<string, nat>, me: string,
                        polls: seq<Option<Payload>>, ghost answered: set<string>, again: seq<Option<Payload>>)
    returns (first: Option<seq<Holder>>, killed: seq<nat>, second: Option<seq<Holder>>)
    requires OnlyCurrentHolders(channel, clients, subscribers)
    requires AnsweredBy(Heard(polls), answered) && answered <= subscribers.Keys && me in answered
    ensures first.Some? <==> answered == subscribers.Keys
    ensures KillsTheSilent(channel, clients, subscribers, answered, killed)
    ensures Survivors(subscribers, killed) == answered && me in Survivors(subscribers, killed)
    ensures AnsweredBy(Heard(again), Survivors(subscribers, killed)) ==>
              second.Some? && DistinctIds(second.value) && Ids(second.value) == Survivors(subscribers, killed)
  {
    assert me in subscribers;
    var left;
    first, killed, left := ProbeAndReap(channel, clients, subscribers, polls, answered);
    second := ProbeAgain(again, answered, left);
  }
}
