/** `_parse_lock_response`, `_collect_lock_holders` and `_kill_unavailable_locks`. */
module RedisProbe {
  import opened Basics
  import Decimal
  import opened RedisElection

  const REDIS_LOCK_PROTOCOL_VERSION := 1

  /** A decoded reply: a mapping whose entries may be missing or of another type, or anything else. */
  datatype Payload = Mapping(holderId: Option<string>, mode: Option<string>, protocol: Option<int>) | NotAMapping

  function ModeNamed(name: string): Option<Mode> {
    if name == "exclusive" then Some(Exclusive)
    else if name == "pending" then Some(Pending)
    else if name == "shared" then Some(Shared)
    else None
  }

  predicate IsRecord(p: Payload) {
    p.Mapping? && p.protocol == Some(REDIS_LOCK_PROTOCOL_VERSION) && p.holderId.Some? && p.mode.Some? &&
    ModeNamed(p.mode.value).Some?
  }

  function LegacyId(n: nat): string {
    "legacy-" + Decimal.Digits(n)
  }

  /** `_parse_lock_response` */
  function ParseLockResponse(p: Payload, legacyIndex: nat): Holder {
    if IsRecord(p) then Holder(p.holderId.value, ModeNamed(p.mode.value).value, false)
    else Holder(LegacyId(legacyIndex), Exclusive, true)
  }

  lemma LegacyIdsDiffer(m: nat, n: nat)
    requires LegacyId(m) == LegacyId(n)
    ensures m == n
  {
    assert LegacyId(m)[7..] == Decimal.Digits(m) && LegacyId(n)[7..] == Decimal.Digits(n);
    Decimal.ParseNatOfDigits(m);
    Decimal.ParseNatOfDigits(n);
  }

  // ---- The holder dictionary ----

  ghost predicate DistinctIds(holders: seq<Holder>) {
    forall i, j | 0 <= i < j < |holders| :: holders[i].id != holders[j].id
  }

  function Ids(holders: seq<Holder>): set<string> {
    set h | h in holders :: h.id
  }

  /** `holders[holder.holder_id] = holder`: an existing key keeps its place. */
  function Put(holders: seq<Holder>, h: Holder): seq<Holder> {
    if holders == [] then [h]
    else if holders[0].id == h.id then [h] + holders[1..]
    else [holders[0]] + Put(holders[1..], h)
  }

  lemma {:induction false} PutFacts(holders: seq<Holder>, h: Holder)
    requires DistinctIds(holders)
    ensures var after := Put(holders, h);
            DistinctIds(after) && Ids(after) == Ids(holders) + {h.id} &&
            |after| == (if h.id in Ids(holders) then |holders| else |holders| + 1) &&
            forall k :: k in after <==> k == h || (k in holders && k.id != h.id)
  {
    if holders != [] {
      var first, rest := holders[0], holders[1..];
      assert holders == [first] + rest;
      OneMoreId(first, rest);
      if first.id == h.id {
        OneMoreId(h, rest);
      } else {
        PutFacts(rest, h);
        OneMoreId(first, Put(rest, h));
      }
    }
  }

  lemma OneMoreId(first: Holder, rest: seq<Holder>)
    ensures Ids([first] + rest) == {first.id} + Ids(rest)
    ensures DistinctIds([first] + rest) <==> DistinctIds(rest) && first.id !in Ids(rest)
  {
    var all := [first] + rest;
    assert forall i | 0 <= i < |rest| :: rest[i] == all[i + 1];
    forall h | h in rest && DistinctIds(all) ensures h.id != first.id {
      var i :| 0 <= i < |rest| && rest[i] == h;
      assert all[i + 1].id != all[0].id;
    }
  }

  /** The dictionary and the number of legacy replies after consuming these replies. */
  function Dict(replies: seq<Payload>): (seq<Holder>, nat) {
    if replies == [] then ([], 0)
    else
      var (holders, legacyIndex) := Dict(replies[..|replies| - 1]);
      var h := ParseLockResponse(replies[|replies| - 1], legacyIndex);
      (Put(holders, h), legacyIndex + if h.legacy then 1 else 0)
  }

  function RecordIds(replies: seq<Payload>): set<string> {
    set p | p in replies && IsRecord(p) :: p.holderId.value
  }

  ghost function LegacyIds(n: nat): set<string> {
    set i | 0 <= i < n :: LegacyId(i)
  }

  lemma {:induction false} LegacyIdsCount(n: nat)
    ensures |LegacyIds(n)| == n
  {
    if n > 0 {
      LegacyIdsCount(n - 1);
      assert LegacyIds(n) == LegacyIds(n - 1) + {LegacyId(n - 1)};
      forall i | 0 <= i < n - 1 ensures LegacyId(i) != LegacyId(n - 1) {
        if LegacyId(i) == LegacyId(n - 1) {
          LegacyIdsDiffer(i, n - 1);
        }
      }
    }
  }

  lemma RecordIdsGrow(replies: seq<Payload>, p: Payload)
    ensures RecordIds(replies + [p]) == RecordIds(replies) + if IsRecord(p) then {p.holderId.value} else {}
  {
  }

  lemma LegacyIdsGrow(k: nat)
    ensures LegacyIds(k + 1) == LegacyIds(k) + {LegacyId(k)}
  {
  }

  lemma {:induction false} DictGrows(replies: seq<Payload>, p: Payload)
    ensures var (holders, k) := Dict(replies);
            Dict(replies + [p]) ==
              (Put(holders, ParseLockResponse(p, k)), k + if ParseLockResponse(p, k).legacy then 1 else 0)
  {
    assert (replies + [p])[..|replies|] == replies;
  }

  lemma {:induction false} DictIds(replies: seq<Payload>)
    ensures DistinctIds(Dict(replies).0)
    ensures Ids(Dict(replies).0) == RecordIds(replies) + LegacyIds(Dict(replies).1)
  {
    if replies != [] {
      var n := |replies| - 1;
      var before, p := replies[..n], replies[n];
      assert replies == before + [p];
      DictIds(before);
      DictGrows(before, p);
      var k := Dict(before).1;
      PutFacts(Dict(before).0, ParseLockResponse(p, k));
      RecordIdsGrow(before, p);
      LegacyIdsGrow(k);
    }
  }

  lemma {:induction false} IdsCount(holders: seq<Holder>)
    requires DistinctIds(holders)
    ensures |Ids(holders)| == |holders|
  {
    if holders != [] {
      var n := |holders| - 1;
      IdsCount(holders[..n]);
      assert holders == holders[..n] + [holders[n]];
      assert Ids(holders) == Ids(holders[..n]) + {holders[n].id};
      assert holders[n].id !in Ids(holders[..n]);
    }
  }

  /**
   The dictionary counts every record id and every legacy reply exactly when no record carries an
   id of the form reserved for the legacy replies seen.
   */
  lemma {:induction false} DictCountsExactlyWhen(replies: seq<Payload>)
    ensures var (holders, k) := Dict(replies);
            |holders| == |RecordIds(replies)| + k <==> RecordIds(replies) !! LegacyIds(k)
  {
    var (holders, k) := Dict(replies);
    var a, b := RecordIds(replies), LegacyIds(k);
    DictIds(replies);
    IdsCount(holders);
    LegacyIdsCount(k);
    assert |a + b| == |a| + |b| - |a * b|;
    NothingInCommon(a, b);
  }

  /** Such a record and one unreadable reply: two subscribers answer, one holder is counted. */
  lemma ReservedIdIsLost() returns (replies: seq<Payload>)
    ensures |replies| == 2 && RecordIds(replies) == {"legacy-0"} && Dict(replies).1 == 1
    ensures Dict(replies).0 == [Holder("legacy-0", Exclusive, true)]
  {
    var record := Mapping(Some("legacy-0"), Some("shared"), Some(REDIS_LOCK_PROTOCOL_VERSION));
    replies := [record, NotAMapping];
    assert LegacyId(0) == "legacy-0";
    DictGrows([], record);
    DictGrows([record], NotAMapping);
    assert [] + [record] == [record] && [record] + [NotAMapping] == replies;
    RecordIdsGrow([], record);
    RecordIdsGrow([record], NotAMapping);
  }

  lemma NothingInCommon(a: set<string>, b: set<string>)
    ensures |a * b| == 0 <==> a !! b
  {
    if a !! b {
      assert a * b == {};
    } else {
      var x :| x in a && x in b;
      assert x in a * b;
    }
  }

  /** The mode in the last record of an id. */
  ghost function LastMode(replies: seq<Payload>, id: string): Mode
    requires id in RecordIds(replies)
  {
    var n := |replies| - 1;
    if IsRecord(replies[n]) && replies[n].holderId.value == id then ModeNamed(replies[n].mode.value).value
    else
      RecordIdsGrow(replies[..n], replies[n]);
      assert replies == replies[..n] + [replies[n]];
      LastMode(replies[..n], id)
  }

  ghost predicate Holds(replies: seq<Payload>, k: nat, h: Holder) {
    (h.id in RecordIds(replies) && h == Holder(h.id, LastMode(replies, h.id), false)) ||
    (h.id in LegacyIds(k) && h == Holder(h.id, Exclusive, true))
  }

  lemma HoldsGrows(replies: seq<Payload>, k: nat, p: Payload, h: Holder)
    requires var x := ParseLockResponse(p, k);
             RecordIds(replies + [p]) !! LegacyIds(k + if x.legacy then 1 else 0)
    ensures var x := ParseLockResponse(p, k);
            Holds(replies + [p], k + if x.legacy then 1 else 0, h) <==> h == x || (Holds(replies, k, h) && h.id != x.id)
  {
    RecordIdsGrow(replies, p);
    LegacyIdsGrow(k);
    var all := replies + [p];
    assert all[..|all| - 1] == replies && all[|all| - 1] == p;
    if !IsRecord(p) && h.id == LegacyId(k) && h.id in LegacyIds(k) {
      var i :| 0 <= i < k && LegacyId(i) == LegacyId(k);
      LegacyIdsDiffer(i, k);
    }
  }

  /** One holder per record id, with its last mode, and one exclusive legacy holder per unreadable reply. */
  lemma {:induction false} DictHolds(replies: seq<Payload>)
    requires RecordIds(replies) !! LegacyIds(Dict(replies).1)
    ensures forall h :: h in Dict(replies).0 <==> Holds(replies, Dict(replies).1, h)
  {
    if replies != [] {
      var n := |replies| - 1;
      var before, p := replies[..n], replies[n];
      var k := Dict(before).1;
      assert replies == before + [p];
      DictGrows(before, p);
      RecordIdsGrow(before, p);
      LegacyIdsGrow(k);
      DictHolds(before);
      DictIds(before);
      PutFacts(Dict(before).0, ParseLockResponse(p, k));
      forall h ensures h in Dict(replies).0 <==> Holds(replies, Dict(replies).1, h) {
        HoldsGrows(before, k, p, h);
      }
    }
  }

  // ---- Collecting ----

  /** The replies among the first polls; None is a poll without a message. */
  function Heard(polls: seq<Option<Payload>>): seq<Payload> {
    if polls == [] then []
    else
      var last := polls[|polls| - 1];
      Heard(polls[..|polls| - 1]) + if last.Some? then [last.value] else []
  }

  /** How many holders have answered after `n` polls. */
  function Answers(polls: seq<Option<Payload>>, n: nat): nat
    requires n <= |polls|
  {
    |Dict(Heard(polls[..n])).0|
  }

  /** Before `n` polls not enough holders have answered. */
  ghost predicate TooFew(polls: seq<Option<Payload>>, expected: nat, n: nat)
    requires n <= |polls|
  {
    forall m: nat | m < n :: Answers(polls, m) < expected
  }

  /** After `n` polls the collection loop ends: enough holders answered for the first time, or time is up. */
  ghost predicate StopsAfter(polls: seq<Option<Payload>>, expected: nat, n: nat) {
    n <= |polls| && TooFew(polls, expected, n) &&
    (n < |polls| ==> Answers(polls, n) >= expected)
  }

  lemma HeardGrows(polls: seq<Option<Payload>>, n: nat)
    requires n < |polls|
    ensures polls[n].Some? ==> Heard(polls[..n + 1]) == Heard(polls[..n]) + [polls[n].value]
    ensures polls[n].None? ==> Heard(polls[..n + 1]) == Heard(polls[..n])
  {
    assert polls[..n + 1][..n] == polls[..n];
  }

  lemma AnswersGrow(polls: seq<Option<Payload>>, n: nat)
    requires n < |polls|
    ensures Answers(polls, n) <= Answers(polls, n + 1) <= Answers(polls, n) + 1
  {
    HeardGrows(polls, n);
    if polls[n].Some? {
      var before := Heard(polls[..n]);
      DictIds(before);
      DictGrows(before, polls[n].value);
      PutFacts(Dict(before).0, ParseLockResponse(polls[n].value, Dict(before).1));
    }
  }

  /** The dictionary and the number of legacy replies after one more poll. */
  function Polled(holders: seq<Holder>, k: nat, poll: Option<Payload>): (seq<Holder>, nat) {
    if poll.None? then (holders, k)
    else var h := ParseLockResponse(poll.value, k); (Put(holders, h), k + if h.legacy then 1 else 0)
  }

  lemma Consume(polls: seq<Option<Payload>>, n: nat, holders: seq<Holder>, k: nat)
    requires n < |polls| && (holders, k) == Dict(Heard(polls[..n]))
    ensures |holders| == Answers(polls, n) && Answers(polls, n + 1) <= Answers(polls, n) + 1
    ensures Dict(Heard(polls[..n + 1])) == Polled(holders, k, polls[n])
    ensures Answers(polls, n + 1) == |Polled(holders, k, polls[n]).0|
  {
    HeardGrows(polls, n);
    AnswersGrow(polls, n);
    if polls[n].Some? {
      DictGrows(Heard(polls[..n]), polls[n].value);
    }
  }

  /**
   `_collect_lock_holders`, given what each poll returns and the subscriber count read afterwards.
   A list is returned only for an unchanged count, and then it has exactly one entry per subscriber.
   `kill` tells that the responders are handed to the reaper.
   */
  method CollectLockHolders(polls: seq<Option<Payload>>, expected: nat, current: nat)
    returns (r: Option<seq<Holder>>, kill: bool, responders: seq<Holder>, consumed: nat)
    requires expected >= 1
    ensures StopsAfter(polls, expected, consumed) && responders == Dict(Heard(polls[..consumed])).0
    ensures r.Some? <==> current == expected && |responders| == expected
    ensures r.Some? ==> r.value == responders && DistinctIds(r.value)
    ensures kill <==> current == expected && |responders| < expected
  {
    responders, consumed := CollectReplies(polls, expected);
    DictIds(Heard(polls[..consumed]));
    kill := current == expected && |responders| < expected;
    r := if current != expected || kill then None else Some(responders);
  }

  /** The polling loop: it ends when enough holders answered or the polls are used up. */
  method CollectReplies(polls: seq<Option<Payload>>, expected: nat) returns (holders: seq<Holder>, consumed: nat)
    requires expected >= 1
    ensures StopsAfter(polls, expected, consumed) && holders == Dict(Heard(polls[..consumed])).0
    ensures |holders| <= expected
  {
    holders := [];
    var legacyIndex: nat := 0;
    consumed := 0;
    while consumed < |polls| && |holders| < expected
      invariant consumed <= |polls| && (holders, legacyIndex) == Dict(Heard(polls[..consumed]))
      invariant |holders| <= expected && TooFew(polls, expected, consumed)
    {
      var message := polls[consumed];
      Consume(polls, consumed, holders, legacyIndex);
      ghost var next := Polled(holders, legacyIndex, message);
      if message.Some? {
        var holder := ParseLockResponse(message.value, legacyIndex);
        holders := Put(holders, holder);
        legacyIndex := legacyIndex + if holder.legacy then 1 else 0;
      }
      assert (holders, legacyIndex) == next;
      consumed := consumed + 1;
    }
  }

  // ---- Reaping ----

  /** An entry of CLIENT LIST. */
  datatype Connection = Connection(id: nat, name: string)

  function LegacyClientName(channel: string): string {
    channel + "-lock"
  }

  /** `client_name` */
  function ClientName(channel: string, holderId: string): string {
    LegacyClientName(channel) + "-" + holderId
  }

  predicate StartsWith(text: string, prefix: string) {
    prefix <= text
  }

  predicate LegacyResponded(holders: seq<Holder>) {
    exists h | h in holders :: h.legacy
  }

  function ProtocolIds(holders: seq<Holder>): set<string> {
    set h | h in holders && !h.legacy :: h.id
  }

  /** The test of `_kill_unavailable_locks`. */
  predicate Unavailable(channel: string, holders: seq<Holder>, name: string) {
    var prefix := LegacyClientName(channel) + "-";
    (name == LegacyClientName(channel) && !LegacyResponded(holders)) ||
    (StartsWith(name, prefix) && name[|prefix|..] !in ProtocolIds(holders))
  }

  /** `_kill_unavailable_locks`: the ids it kills, in listing order. */
  method KillUnavailableLocks(channel: string, clients: seq<Connection>, holders: seq<Holder>)
    returns (killed: seq<nat>)
    ensures forall x :: x in killed <==>
              exists j | 0 <= j < |clients| :: clients[j].id == x && Unavailable(channel, holders, clients[j].name)
  {
    killed := [];
    for i := 0 to |clients|
      invariant forall x :: x in killed <==>
                  exists j | 0 <= j < i :: clients[j].id == x && Unavailable(channel, holders, clients[j].name)
    {
      if Unavailable(channel, holders, clients[i].name) {
        killed := killed + [clients[i].id];
      }
    }
  }

  /**
   The subscribers of a channel are current-protocol holders, one connection each; other connections are named
   differently.
   */
  ghost predicate OnlyCurrentHolders(channel: string, clients: seq<Connection>, subscribers: map<string, nat>) {
    (forall h | h in subscribers :: Connection(subscribers[h], ClientName(channel, h)) in clients) &&
    (forall i, j | 0 <= i < j < |clients| :: clients[i].id != clients[j].id) &&
    (forall c | c in clients ::
       (exists h | h in subscribers :: c == Connection(subscribers[h], ClientName(channel, h))) ||
       (c.name != LegacyClientName(channel) && !StartsWith(c.name, LegacyClientName(channel) + "-")))
  }

  lemma ClientNameMatches(channel: string, holders: seq<Holder>, h: string)
    ensures Unavailable(channel, holders, ClientName(channel, h)) <==> h !in ProtocolIds(holders)
  {
    var prefix := LegacyClientName(channel) + "-";
    assert ClientName(channel, h)[|prefix|..] == h;
    assert |ClientName(channel, h)| > |LegacyClientName(channel)|;
  }

  /** One reaping kills exactly the silent holders' connections: no responder, not the prober, and nobody else's. */
  lemma KillsExactlyTheSilent(channel: string, clients: seq<Connection>, subscribers: map<string, nat>,
                              responders: seq<Holder>, c: Connection)
    requires OnlyCurrentHolders(channel, clients, subscribers) && c in clients
    ensures Unavailable(channel, responders, c.name) <==>
            exists h | h in subscribers ::
              c == Connection(subscribers[h], ClientName(channel, h)) && h !in ProtocolIds(responders)
  {
    if h :| h in subscribers && c == Connection(subscribers[h], ClientName(channel, h)) {
      ClientNameMatches(channel, responders, h);
      forall k | k in subscribers && c == Connection(subscribers[k], ClientName(channel, k)) ensures k == h {
        var prefix := LegacyClientName(channel) + "-";
        assert ClientName(channel, k)[|prefix|..] == k && ClientName(channel, h)[|prefix|..] == h;
      }
    }
  }

  /** So after reaping, the subscribers left are the responders. */
  lemma SurvivorsAreResponders(channel: string, clients: seq<Connection>, subscribers: map<string, nat>,
                               responders: seq<Holder>, killed: seq<nat>)
    requires OnlyCurrentHolders(channel, clients, subscribers) && ProtocolIds(responders) <= subscribers.Keys
    requires forall x :: x in killed <==>
               exists j | 0 <= j < |clients| :: clients[j].id == x && Unavailable(channel, responders, clients[j].name)
    ensures (set h | h in subscribers && subscribers[h] !in killed) == ProtocolIds(responders)
  {
    forall h | h in subscribers ensures subscribers[h] in killed <==> h !in ProtocolIds(responders) {
      var c := Connection(subscribers[h], ClientName(channel, h));
      var i :| 0 <= i < |clients| && clients[i] == c;
      ClientNameMatches(channel, responders, h);
      forall j | 0 <= j < |clients| && clients[j].id == c.id ensures j == i {}
    }
  }

  lemma {:induction false} RecordsLeaveNoLegacy(replies: seq<Payload>)
    requires forall p | p in replies :: IsRecord(p)
    ensures Dict(replies).1 == 0
  {
    if replies != [] {
      var n := |replies| - 1;
      assert replies == replies[..n] + [replies[n]];
      RecordsLeaveNoLegacy(replies[..n]);
    }
  }

  lemma {:induction false} HeardPrefix(polls: seq<Option<Payload>>, n: nat)
    requires n <= |polls|
    ensures Heard(polls[..n]) <= Heard(polls)
  {
    if n < |polls| {
      var last := |polls| - 1;
      HeardPrefix(polls[..last], n);
      assert polls[..last][..n] == polls[..n];
    } else {
      assert polls[..n] == polls;
    }
  }

  /** A probe that every survivor answers, any number of times, is conclusive and lists exactly the survivors. */
  lemma {:induction false} AnsweredProbeIsConclusive(polls: seq<Option<Payload>>, survivors: set<string>, n: nat)
    requires (forall p | p in Heard(polls) :: IsRecord(p)) && RecordIds(Heard(polls)) == survivors
    requires StopsAfter(polls, |survivors|, n)
    ensures |Dict(Heard(polls[..n])).0| == |survivors| && Ids(Dict(Heard(polls[..n])).0) == survivors
  {
    var heard := Heard(polls[..n]);
    HeardPrefix(polls, n);
    assert forall p | p in heard :: p in Heard(polls);
    RecordsLeaveNoLegacy(heard);
    DictIds(heard);
    IdsCount(Dict(heard).0);
    assert Ids(Dict(heard).0) == RecordIds(heard) <= survivors;
    if n == |polls| {
      assert polls[..n] == polls;
    } else {
      assert |survivors - Ids(Dict(heard).0)| == |survivors| - |Ids(Dict(heard).0)|;
    }
  }
}
