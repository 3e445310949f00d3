/**
 * The parts of the Q-learning application (q-learner.cc) that are table
 * bookkeeping: the traffic name, port and table mappings, the three
 * Q-tables kept in step, and the per-neighbour, per-destination history of
 * packets sent.
 */
module QLearners {
  import opened Text
  import opened TrafficTypes
  import opened Bytes
  import Ipv4
  import Configuration
  import Time
  import QTables

  type Address = Ipv4.Address

  // -------------------------------------------------------------------------
  // Traffic mappings

  /** The UDP port of a named traffic class; any other name has port 0. */
  function TrafficPort(traffic: string): (port: nat)
    ensures port == Configuration.PortNumberTrafficA <==> traffic == "trafficA"
    ensures port == Configuration.PortNumberTrafficB <==> traffic == "trafficB"
    ensures port == Configuration.PortNumberTrafficC <==> traffic == "trafficC"
    ensures port == 0 <==> traffic !in {"trafficA", "trafficB", "trafficC"}
  {
    if traffic == "trafficA" then Configuration.PortNumberTrafficA
    else if traffic == "trafficB" then Configuration.PortNumberTrafficB
    else if traffic == "trafficC" then Configuration.PortNumberTrafficC
    else 0
  }

  /**
   * The traffic type named by the last '/'-separated segment (empty when the
   * name ends in '/'): voip or trafficA is A, video or trafficB is B, the
   * rest is C.
   */
  function TrafficTypeOf(traffic: string): (t: TrafficType)
    ensures t in {TrafficA, TrafficB, TrafficC}
  {
    var segment := Last(Split(traffic, "/"));
    if segment == "voip" || segment == "trafficA" then TrafficA
    else if segment == "video" || segment == "trafficB" then TrafficB
    else TrafficC
  }

  /** Every traffic type has its description; the fatal branch cannot be reached. */
  function TrafficString(t: TrafficType): (r: string)
    ensures |r| > 0
    ensures TableFor(t) == VideoTable <==> r == "VIDEO / TRAFFIC_B traffic"
    ensures TableFor(t) == VoipTable <==> r == "VOIP / TRAFFIC_A traffic"
  {
    match t
    case Other => "Unknown traffic type. (or aodv or icmp)"
    case Web => "WEB traffic"
    case Video | TrafficB => "VIDEO / TRAFFIC_B traffic"
    case Voip | TrafficA => "VOIP / TRAFFIC_A traffic"
    case Icmp => "ICMP traffic"
    case UdpEcho => "UDP ECHO traffic"
    case TrafficC => "OTHER / TRAFFIC_C traffic"
  }

  /** Which of the three Q-tables a traffic type is routed by. */
  datatype TableKind = General | VideoTable | VoipTable

  function TableFor(t: TrafficType): TableKind
  {
    if t in {Icmp, Web, Other, UdpEcho, TrafficC} then General
    else if t in {Video, TrafficB} then VideoTable
    else VoipTable
  }

  /** Types share the video or the voip table exactly when they share that description. */
  lemma DescriptionsDistinguishTypes(t: TrafficType, u: TrafficType)
    ensures TrafficString(t) == TrafficString(u) <==> t == u || TableFor(t) == TableFor(u) != General
  {
  }

  /**
   * A ported traffic name and its type agree: trafficA's packets go by the
   * voip table, trafficB's by the video table, trafficC's by the general one.
   */
  lemma PortAgreesWithTable(traffic: string)
    requires TrafficPort(traffic) != 0
    ensures TrafficPort(traffic) == Configuration.PortNumberTrafficA ==> TableFor(TrafficTypeOf(traffic)) == VoipTable
    ensures TrafficPort(traffic) == Configuration.PortNumberTrafficB ==> TableFor(TrafficTypeOf(traffic)) == VideoTable
    ensures TrafficPort(traffic) == Configuration.PortNumberTrafficC ==> TableFor(TrafficTypeOf(traffic)) == General
  {
    SplitWithout(traffic, '/');
  }

  /** A path ending in /voip or /video names the voip or video class, whatever comes before. */
  lemma TrafficTypeOfPath(dir: string, name: string)
    requires '/' !in name
    ensures name == "voip" ==> TrafficTypeOf(dir + "/" + name) == TrafficA
    ensures name == "video" ==> TrafficTypeOf(dir + "/" + name) == TrafficB
    ensures name !in {"voip", "video", "trafficA", "trafficB"} ==> TrafficTypeOf(dir + "/" + name) == TrafficC
  {
    LastSegment(dir, name);
  }

  lemma LastSegment(dir: string, name: string)
    requires '/' !in name
    ensures Last(Split(dir + "/" + name, "/")) == name
  {
    LastPiece(dir, '/', name);
  }

  // -------------------------------------------------------------------------
  // The history of packets sent via a neighbour towards a destination

  /** (time sent, packets sent so far, loss): the loss is carried, never computed here. */
  datatype SentRecord = SentRecord(ts: U64, count: U64, loss: real)

  const NoRecord := SentRecord(0, 0, 0.0)

  /** The scan for the newest record: a record replaces the current one only when strictly newer. */
  function MostRecent(list: seq<SentRecord>, acc: SentRecord): SentRecord
    decreases |list|
  {
    if list == [] then acc
    else MostRecent(list[1..], if list[0].ts > acc.ts then list[0] else acc)
  }

  /** The newest record: the start or a record of the list, and no record is newer. */
  lemma {:induction false} MostRecentIsNewest(list: seq<SentRecord>, acc: SentRecord)
    ensures var r := MostRecent(list, acc);
      (r == acc || r in list) && r.ts >= acc.ts && forall e :: e in list ==> e.ts <= r.ts
    decreases |list|
  {
    if list != [] {
      MostRecentIsNewest(list[1..], if list[0].ts > acc.ts then list[0] else acc);
      assert forall e :: e in list ==> e == list[0] || e in list[1..];
    }
  }

  /** The scan GetNumPktsSentViaNeighbToDst makes: the newest record strictly before `ts`. */
  function LatestBefore(list: seq<SentRecord>, ts: int, acc: SentRecord): SentRecord
    decreases |list|
  {
    if list == [] then acc
    else LatestBefore(list[1..], ts, if list[0].ts < ts && list[0].ts > acc.ts then list[0] else acc)
  }

  lemma {:induction false} LatestBeforeIsLatest(list: seq<SentRecord>, ts: int, acc: SentRecord)
    requires acc == NoRecord || acc.ts < ts
    ensures var r := LatestBefore(list, ts, acc);
      (r == acc || (r in list && r.ts < ts)) && r.ts >= acc.ts
      && forall e :: e in list && e.ts < ts ==> e.ts <= r.ts
    decreases |list|
  {
    if list != [] {
      LatestBeforeIsLatest(list[1..], ts, if list[0].ts < ts && list[0].ts > acc.ts then list[0] else acc);
      assert forall e :: e in list ==> e == list[0] || e in list[1..];
    }
  }

  /** The records at or after the cutoff, in order. */
  function Recent(list: seq<SentRecord>, cutoff: int): (r: seq<SentRecord>)
    ensures |r| <= |list|
    ensures forall e :: e in r ==> e in list && e.ts >= cutoff
  {
    if list == [] then []
    else (if list[0].ts >= cutoff then [list[0]] else []) + Recent(list[1..], cutoff)
  }

  /**
   * What cleaning leaves: the records at or after the cutoff, or, when every
   * record is older, the last one alone, so a non-empty history stays
   * non-empty.
   */
  function Cleaned(list: seq<SentRecord>, cutoff: int): (r: seq<SentRecord>)
    ensures list != [] ==> r != []
    ensures forall e :: e in r ==> e in list
  {
    var young := Recent(list, cutoff);
    if young != [] then young else if list == [] then [] else [list[|list| - 1]]
  }

  lemma {:induction false} RecentConcat(a: seq<SentRecord>, b: seq<SentRecord>, cutoff: int)
    ensures Recent(a + b, cutoff) == Recent(a, cutoff) + Recent(b, cutoff)
    decreases |a|
  {
    if a != [] {
      assert (a + b)[0] == a[0];
      assert (a + b)[1..] == a[1..] + b;
      RecentConcat(a[1..], b, cutoff);
    } else {
      assert a + b == b;
    }
  }

  lemma {:induction false} RecentOfRecent(list: seq<SentRecord>, cutoff: int)
    requires forall k :: 0 <= k < |list| ==> list[k].ts >= cutoff
    ensures Recent(list, cutoff) == list
    decreases |list|
  {
    if list != [] {
      RecentOfRecent(list[1..], cutoff);
    }
  }

  /** Erasing the first record older than the cutoff, from a list of two or more, changes nothing cleaning keeps. */
  lemma EraseFirstStale(list: seq<SentRecord>, i: nat, cutoff: int)
    requires i < |list| && |list| > 1 && list[i].ts < cutoff
    requires forall k :: 0 <= k < i ==> list[k].ts >= cutoff
    ensures Cleaned(list[..i] + list[i + 1..], cutoff) == Cleaned(list, cutoff)
  {
    var pre, post := list[..i], list[i + 1..];
    assert list == pre + ([list[i]] + post);
    RecentOfRecent(pre, cutoff);
    RecentConcat(pre, [list[i]] + post, cutoff);
    RecentConcat(pre, post, cutoff);
    assert Recent([list[i]] + post, cutoff) == Recent(post, cutoff) by {
      assert ([list[i]] + post)[1..] == post;
    }
    assert Recent(list, cutoff) == Recent(pre + post, cutoff);
  }

  /** Once no record is erasable, cleaning keeps the list as it is. */
  lemma CleanedFixpoint(list: seq<SentRecord>, cutoff: int)
    requires forall k :: 0 <= k < |list| ==> !(list[k].ts < cutoff && |list| != 1)
    ensures Cleaned(list, cutoff) == list
  {
    if |list| != 1 {
      RecentOfRecent(list, cutoff);
    } else {
      assert list[1..] == [];
    }
  }

  /** Five seconds, in nanoseconds. */
  const HistoryWindow := Time.Seconds(5)

  /**
   * The cutoff as written: Now() - Seconds(5) as a 64-bit unsigned value,
   * which wraps round to a huge value in the first five seconds.
   */
  function CutoffAsWritten(now: U64): (c: U64)
    ensures now >= HistoryWindow ==> c == now - HistoryWindow
    ensures now < HistoryWindow ==> c > now
  {
    (now - HistoryWindow) % 0x1_0000_0000_0000_0000
  }

  /** The cutoff intended: five seconds ago, and no earlier than time zero. */
  function Cutoff(now: U64): (c: U64)
    ensures c <= now && (now >= HistoryWindow ==> now - c == HistoryWindow)
  {
    if now >= HistoryWindow then now - HistoryWindow else 0
  }

  /**
   * In the first five seconds the wrapped cutoff throws away the whole
   * history but the newest record: at 2 s, a record from 1 s goes, and the
   * count sent before 1.5 s reads 0 instead of 1.
   */
  lemma CutoffWrapLosesHistory()
    ensures var list := [SentRecord(Time.Seconds(1), 1, 0.0), SentRecord(Time.Seconds(2), 2, 0.0)];
      Cleaned(list, CutoffAsWritten(Time.Seconds(2))) == [list[1]]
      && Cleaned(list, Cutoff(Time.Seconds(2))) == list
      && LatestBefore(Cleaned(list, CutoffAsWritten(Time.Seconds(2))), 1_500_000_000, NoRecord).count == 0
      && LatestBefore(Cleaned(list, Cutoff(Time.Seconds(2))), 1_500_000_000, NoRecord).count == 1
  {
    var list := [SentRecord(Time.Seconds(1), 1, 0.0), SentRecord(Time.Seconds(2), 2, 0.0)];
    assert list[1..][1..] == [];
    assert [list[1]][1..] == [];
  }

  /**
   * With the intended cutoff, a record sent now survives the cleaning that
   * follows it, and is the newest one kept.
   */
  lemma NewRecordSurvives(list: seq<SentRecord>, r: SentRecord, now: U64)
    requires r.ts == now
    ensures var kept := Cleaned(list + [r], Cutoff(now));
      kept != [] && kept[|kept| - 1] == r
  {
    RecentConcat(list, [r], Cutoff(now));
    assert [r][1..] == [];
  }

  // -------------------------------------------------------------------------
  // Scans over one history, as loops

  method FindMostRecent(list: seq<SentRecord>) returns (r: SentRecord)
    ensures r == MostRecent(list, NoRecord)
  {
    r := NoRecord;
    var i := 0;
    while i < |list|
      invariant 0 <= i <= |list|
      invariant MostRecent(list[i..], r) == MostRecent(list, NoRecord)
    {
      assert list[i..][1..] == list[i + 1..];
      if list[i].ts > r.ts {
        r := list[i];
      }
      i := i + 1;
    }
  }

  method FindLatestBefore(list: seq<SentRecord>, ts: int) returns (r: SentRecord)
    ensures r == LatestBefore(list, ts, NoRecord)
  {
    r := NoRecord;
    var i := 0;
    while i < |list|
      invariant 0 <= i <= |list|
      invariant LatestBefore(list[i..], ts, r) == LatestBefore(list, ts, NoRecord)
    {
      assert list[i..][1..] == list[i + 1..];
      if list[i].ts < ts && list[i].ts > r.ts {
        r := list[i];
      }
      i := i + 1;
    }
  }

  /** The cleaning loop: erase the first record older than the cutoff while more than one is left. */
  method CleanList(list0: seq<SentRecord>, cutoff: int) returns (list: seq<SentRecord>)
    ensures list == Cleaned(list0, cutoff)
  {
    list := list0;
    var done := false;
    while !done
      invariant Cleaned(list, cutoff) == Cleaned(list0, cutoff)
      invariant done ==> list == Cleaned(list, cutoff)
      decreases |list| + (if done then 0 else 1)
    {
      done := true;
      ghost var before := |list|;
      var i := 0;
      while i < |list|
        invariant 0 <= i <= |list|
        invariant done ==> |list| == before && forall k :: 0 <= k < i ==> !(list[k].ts < cutoff && |list| != 1)
        invariant !done ==> |list| < before
        invariant Cleaned(list, cutoff) == Cleaned(list0, cutoff)
      {
        if list[i].ts < cutoff && |list| != 1 {
          EraseFirstStale(list, i, cutoff);
          list := list[..i] + list[i + 1..];
          done := false;
          break;
        }
        i := i + 1;
      }
      if done {
        CleanedFixpoint(list, cutoff);
      }
    }
  }

  // -------------------------------------------------------------------------
  // The learner

  class QLearner {
    var qtable: QTables.QTable
    var qtableVoip: QTables.QTable
    var qtableVideo: QTables.QTable
    var sentStats: map<(Address, Address), seq<SentRecord>>

    /** Three separate tables for one node, each valid, all knowing the same destinations. */
    predicate Valid()
      reads this, qtable, qtableVoip, qtableVideo
    {
      qtable != qtableVoip && qtable != qtableVideo && qtableVoip != qtableVideo
      && qtable.Valid() && qtableVoip.Valid() && qtableVideo.Valid()
      && qtable.nodeip == qtableVoip.nodeip == qtableVideo.nodeip
      && qtable.qtable.Keys == qtableVoip.qtable.Keys == qtableVideo.qtable.Keys
    }

    constructor (neighbours: seq<Address>, nodeip: Address, unavail: seq<Address>)
      requires QTables.Distinct(neighbours)
      ensures Valid() && sentStats == map[]
      ensures fresh(qtable) && fresh(qtableVoip) && fresh(qtableVideo)
      ensures forall t :: t in {qtable, qtableVoip, qtableVideo} ==>
        t.nodeip == nodeip && t.neighbours == neighbours && t.destinations == neighbours && t.unavail == unavail
        && t.qtable.Keys == (set n | n in neighbours)
        && (forall n :: n in neighbours ==> t.qtable[n] == QTables.InitialRow(neighbours, n))
    {
      qtable := new QTables.QTable(neighbours, nodeip, unavail);
      qtableVoip := new QTables.QTable(neighbours, nodeip, unavail);
      qtableVideo := new QTables.QTable(neighbours, nodeip, unavail);
      sentStats := map[];
    }

    /** The table a traffic type is routed by. */
    function GetQTable(t: TrafficType): (table: QTables.QTable)
      reads this
      ensures TableFor(t) == General ==> table == qtable
      ensures TableFor(t) == VideoTable ==> table == qtableVideo
      ensures TableFor(t) == VoipTable ==> table == qtableVoip
    {
      match TableFor(t)
      case General => qtable
      case VideoTable => qtableVideo
      case VoipTable => qtableVoip
    }

    /** Adds the destination to all three tables; they agree on whether it was new. */
    method AddDestination(via: Address, dst: Address, t: int) returns (added: bool)
      requires Valid() && qtable.nodeip != dst
      modifies qtable, qtableVoip, qtableVideo
      ensures Valid()
      ensures added <==> dst !in old(qtable.qtable)
      ensures qtable.qtable.Keys == old(qtable.qtable.Keys) + {dst}
      ensures added ==> forall table :: table in {qtable, qtableVoip, qtableVideo} ==>
        table.qtable[dst] == QTables.DestinationRow(table.neighbours, via, t)
      ensures qtable.neighbours == old(qtable.neighbours) && qtable.unavail == old(qtable.unavail)
      ensures qtableVoip.neighbours == old(qtableVoip.neighbours) && qtableVoip.unavail == old(qtableVoip.unavail)
      ensures qtableVideo.neighbours == old(qtableVideo.neighbours) && qtableVideo.unavail == old(qtableVideo.unavail)
      ensures !added ==> qtable.qtable == old(qtable.qtable) && qtable.destinations == old(qtable.destinations)
      ensures !added ==> qtableVoip.qtable == old(qtableVoip.qtable) && qtableVoip.destinations == old(qtableVoip.destinations)
      ensures !added ==> qtableVideo.qtable == old(qtableVideo.qtable) && qtableVideo.destinations == old(qtableVideo.destinations)
      ensures added ==> qtable.qtable == old(qtable.qtable)[dst := QTables.DestinationRow(qtable.neighbours, via, t)]
                        && qtable.destinations == old(qtable.destinations) + [dst]
      ensures added ==> qtableVoip.qtable == old(qtableVoip.qtable)[dst := QTables.DestinationRow(qtableVoip.neighbours, via, t)]
                        && qtableVoip.destinations == old(qtableVoip.destinations) + [dst]
      ensures added ==> qtableVideo.qtable == old(qtableVideo.qtable)[dst := QTables.DestinationRow(qtableVideo.neighbours, via, t)]
                        && qtableVideo.destinations == old(qtableVideo.destinations) + [dst]
    {
      var regular := qtable.AddDestination(via, dst, t);
      var voip := qtableVoip.AddDestination(via, dst, t);
      var video := qtableVideo.AddDestination(via, dst, t);
      added := regular && voip && video;
    }

    /** Known in one table exactly when known in the others. */
    method CheckDestinationKnown(dst: Address) returns (known: bool)
      requires Valid()
      ensures known <==> dst == qtable.nodeip || dst in qtable.qtable
      ensures known <==> dst == qtableVoip.nodeip || dst in qtableVoip.qtable
    {
      var regular := qtable.CheckDestinationKnown(dst);
      var voip := qtableVoip.CheckDestinationKnown(dst);
      var video := qtableVideo.CheckDestinationKnown(dst);
      known := regular && voip && video;
    }

    /** The history for (via, dst), which a lookup creates empty. */
    function History(via: Address, dst: Address): seq<SentRecord>
      reads this
    {
      if (via, dst) in sentStats then sentStats[(via, dst)] else []
    }

    /**
     * Records a packet sent now via `via` towards `dst`: the newest record's
     * count plus one (64-bit), its loss carried over; then records older than
     * five seconds are cleaned away.
     */
    method RoutingPacketViaNeighbToDst(via: Address, dst: Address, now: U64)
      modifies this
      ensures qtable == old(qtable) && qtableVoip == old(qtableVoip) && qtableVideo == old(qtableVideo)
      ensures var newest := MostRecent(old(History(via, dst)), NoRecord);
        sentStats == old(sentStats)[(via, dst) :=
          Cleaned(old(History(via, dst)) + [SentRecord(now, (newest.count + 1) % 0x1_0000_0000_0000_0000, newest.loss)],
                  Cutoff(now))]
    {
      var list := History(via, dst);
      var newest := FindMostRecent(list);
      var record := SentRecord(now, (newest.count + 1) % 0x1_0000_0000_0000_0000, newest.loss);
      sentStats := sentStats[(via, dst) := list + [record]];
      CleanTheNumPktsTimestampMap(Cutoff(now), via, dst);
    }

    /** Erases records older than the cutoff, never the last one left. */
    method CleanTheNumPktsTimestampMap(cutoff: U64, via: Address, dst: Address)
      modifies this
      ensures qtable == old(qtable) && qtableVoip == old(qtableVoip) && qtableVideo == old(qtableVideo)
      ensures sentStats == old(sentStats)[(via, dst) := Cleaned(old(History(via, dst)), cutoff)]
    {
      var list := CleanList(History(via, dst), cutoff);
      sentStats := sentStats[(via, dst) := list];
    }

    /** The count of the newest record strictly before `ts`, or 0. */
    method GetNumPktsSentViaNeighbToDst(ts: U64, via: Address, dst: Address) returns (n: U64)
      modifies this
      ensures qtable == old(qtable) && qtableVoip == old(qtableVoip) && qtableVideo == old(qtableVideo)
      ensures sentStats == old(sentStats)[(via, dst) := old(History(via, dst))]
      ensures n == LatestBefore(History(via, dst), ts, NoRecord).count
    {
      var list := History(via, dst);
      sentStats := sentStats[(via, dst) := list];
      var r := FindLatestBefore(list, ts);
      n := r.count;
    }
  }
}
