/**
 * The packet table (packettable.cc): per packet uid, whether the packet is
 * in a queue, when it entered it, how long it last stayed, and how many
 * times it was enqueued. Times are simulator times in nanoseconds.
 */
module PacketTables {
  import opened Bytes
  import Wrappers

  /** PacketState: NONE = 200, ENQUEUED = 300, DEQUEUED = 500. */
  datatype PacketState = Unqueued | Enqueued | Dequeued

  function StateCode(s: PacketState): (n: nat)
    ensures n in {200, 300, 500}
  {
    match s
    case Unqueued => 200
    case Enqueued => 300
    case Dequeued => 500
  }

  datatype Entry = Entry(enqueuedAt: int, lastQueueTime: int, state: PacketState, timesEnqueued: nat)

  /** A packet is unqueued exactly when it was never enqueued. */
  predicate Consistent(e: Entry)
  {
    e.state == Unqueued <==> e.timesEnqueued == 0
  }

  /** The entry constructor: created at `now`, never queued. */
  function NewEntry(now: int): (e: Entry)
    ensures Consistent(e) && e.timesEnqueued == 0 && e.lastQueueTime == 0 && e.state == Unqueued
    ensures e.enqueuedAt == now
  {
    Entry(now, 0, Unqueued, 0)
  }

  /** Enqueue: only a packet not in a queue may enter one; the count goes up by one. */
  function Enqueue(e: Entry, now: int): (r: Entry)
    requires e.state != Enqueued
    ensures r.state == Enqueued && r.timesEnqueued == e.timesEnqueued + 1 && r.timesEnqueued >= 1
    ensures r.enqueuedAt == now && r.lastQueueTime == e.lastQueueTime
  {
    e.(timesEnqueued := e.timesEnqueued + 1, enqueuedAt := now, state := Enqueued)
  }

  /** Dequeue: only a queued packet may leave; it records how long it stayed. */
  function Dequeue(e: Entry, now: int): (r: Entry)
    requires e.state == Enqueued
    ensures r.state == Dequeued && r.timesEnqueued == e.timesEnqueued
    ensures r.lastQueueTime == now - e.enqueuedAt && r.enqueuedAt == 0
    ensures now >= e.enqueuedAt ==> r.lastQueueTime >= 0
  {
    e.(lastQueueTime := now - e.enqueuedAt, state := Dequeued, enqueuedAt := 0)
  }

  /** Enqueue and Dequeue keep an entry consistent. */
  lemma TransitionsKeepConsistent(e: Entry, now: int)
    requires Consistent(e)
    ensures e.state != Enqueued ==> Consistent(Enqueue(e, now))
    ensures e.state == Enqueued ==> Consistent(Dequeue(e, now))
  {
  }

  // -------------------------------------------------------------------------
  // The table as a value: the operations as steps over the map

  datatype Op =
    | EnqueueOp(uid: U64, now: int)
    | DequeueOp(uid: U64, now: int)
    | QueryOp(uid: U64, now: int)

  datatype Error =
    | NeverQueued        // NS_FATAL_ERROR in DequeuePacket
    | WrongState         // a violated NS_ASSERT in Enqueue or Dequeue

  /** The entry `m_packet_info[uid]` finds: the stored one, or a new one. */
  function Lookup(m: map<U64, Entry>, uid: U64, now: int): (e: Entry)
    ensures uid in m ==> e == m[uid]
    ensures uid !in m ==> e.timesEnqueued == 0 && e.lastQueueTime == 0 && e.state == Unqueued
  {
    if uid in m then m[uid] else NewEntry(now)
  }

  /**
   * One operation on the table. Every operation but a failing dequeue leaves
   * the uid in the table; no other entry changes.
   */
  function Step(m: map<U64, Entry>, op: Op): (r: Wrappers.Result<map<U64, Entry>, Error>)
    ensures op.DequeueOp? && op.uid !in m ==> r == Wrappers.Err(NeverQueued)
    ensures r.Ok? ==> r.value.Keys == m.Keys + {op.uid}
    ensures r.Ok? ==> forall u :: u in m && u != op.uid ==> r.value[u] == m[u]
    ensures op.QueryOp? ==> r.Ok? && r.value[op.uid] == Lookup(m, op.uid, op.now)
  {
    var e := Lookup(m, op.uid, op.now);
    match op
    case EnqueueOp(uid, now) =>
      if e.state == Enqueued then Wrappers.Err(WrongState) else Wrappers.Ok(m[uid := Enqueue(e, now)])
    case DequeueOp(uid, now) =>
      if uid !in m then Wrappers.Err(NeverQueued)
      else if e.state != Enqueued then Wrappers.Err(WrongState)
      else Wrappers.Ok(m[uid := Dequeue(e, now)])
    case QueryOp(uid, now) =>
      Wrappers.Ok(m[uid := e])
  }

  /** A sequence of operations, stopping at the first error. */
  function Run(m: map<U64, Entry>, ops: seq<Op>): Wrappers.Result<map<U64, Entry>, Error>
    decreases |ops|
  {
    if ops == [] then Wrappers.Ok(m)
    else
      match Step(m, ops[0])
      case Err(e) => Wrappers.Err(e)
      case Ok(m1) => Run(m1, ops[1..])
  }

  function TimesSeen(m: map<U64, Entry>, uid: U64): nat
  {
    if uid in m then m[uid].timesEnqueued else 0
  }

  function CountEnqueues(ops: seq<Op>, uid: U64): nat
  {
    if ops == [] then 0
    else (if ops[0].EnqueueOp? && ops[0].uid == uid then 1 else 0) + CountEnqueues(ops[1..], uid)
  }

  predicate AllConsistent(m: map<U64, Entry>)
  {
    forall u :: u in m ==> Consistent(m[u])
  }

  lemma StepTimesSeen(m: map<U64, Entry>, op: Op, uid: U64)
    requires Step(m, op).Ok?
    ensures TimesSeen(Step(m, op).value, uid)
            == TimesSeen(m, uid) + (if op.EnqueueOp? && op.uid == uid then 1 else 0)
    ensures AllConsistent(m) ==> AllConsistent(Step(m, op).value)
  {
  }

  /** The number of times a packet was seen is the number of times it was enqueued. */
  lemma {:induction false} TimesSeenCountsEnqueues(m: map<U64, Entry>, ops: seq<Op>, uid: U64)
    requires Run(m, ops).Ok?
    ensures TimesSeen(Run(m, ops).value, uid) == TimesSeen(m, uid) + CountEnqueues(ops, uid)
    decreases |ops|
  {
    if ops != [] {
      StepTimesSeen(m, ops[0], uid);
      TimesSeenCountsEnqueues(Step(m, ops[0]).value, ops[1..], uid);
    }
  }

  /** Every entry stays consistent: a packet is unqueued exactly while its count is zero. */
  lemma {:induction false} RunKeepsConsistent(m: map<U64, Entry>, ops: seq<Op>)
    requires AllConsistent(m) && Run(m, ops).Ok?
    ensures AllConsistent(Run(m, ops).value)
    decreases |ops|
  {
    if ops != [] {
      StepTimesSeen(m, ops[0], ops[0].uid);
      RunKeepsConsistent(Step(m, ops[0]).value, ops[1..]);
    }
  }

  // -------------------------------------------------------------------------
  // The table as the simulator holds it

  class PacketTable {
    var packetInfo: map<U64, Entry>

    constructor ()
      ensures packetInfo == map[]
    {
      packetInfo := map[];
    }

    /** Creates the entry if the uid is new, then enqueues it. */
    method EnqueuePacket(packetUid: U64, now: int)
      requires packetUid in packetInfo ==> packetInfo[packetUid].state != Enqueued
      modifies this
      ensures Step(old(packetInfo), EnqueueOp(packetUid, now)) == Wrappers.Ok(packetInfo)
    {
      if packetUid !in packetInfo {
        packetInfo := packetInfo[packetUid := NewEntry(now)];
      }
      assert packetInfo[packetUid] == Lookup(old(packetInfo), packetUid, now);
      packetInfo := packetInfo[packetUid := Enqueue(packetInfo[packetUid], now)];
      assert packetInfo == old(packetInfo)[packetUid := Enqueue(Lookup(old(packetInfo), packetUid, now), now)];
    }

    /** Dequeues a known packet; an unknown uid is a fatal error and changes nothing. */
    method DequeuePacket(packetUid: U64, now: int) returns (r: Wrappers.Result<(), Error>)
      requires packetUid in packetInfo ==> packetInfo[packetUid].state == Enqueued
      modifies this
      ensures packetUid !in old(packetInfo) ==> r == Wrappers.Err(NeverQueued) && packetInfo == old(packetInfo)
      ensures packetUid in old(packetInfo) ==>
        r.Ok? && Step(old(packetInfo), DequeueOp(packetUid, now)) == Wrappers.Ok(packetInfo)
    {
      if packetUid !in packetInfo {
        return Wrappers.Err(NeverQueued);
      }
      packetInfo := packetInfo[packetUid := Dequeue(packetInfo[packetUid], now)];
      r := Wrappers.Ok(());
    }

    /** The last queue time; an unknown uid gets a new entry, whose queue time is 0. */
    method GetPacketQueueTime(packetUid: U64, now: int) returns (t: int)
      modifies this
      ensures Step(old(packetInfo), QueryOp(packetUid, now)) == Wrappers.Ok(packetInfo)
      ensures t == packetInfo[packetUid].lastQueueTime
      ensures packetUid !in old(packetInfo) ==> t == 0
    {
      if packetUid !in packetInfo {
        packetInfo := packetInfo[packetUid := NewEntry(now)];
      }
      assert packetInfo == old(packetInfo)[packetUid := Lookup(old(packetInfo), packetUid, now)];
      t := packetInfo[packetUid].lastQueueTime;
    }

    /** The times seen; an unknown uid gets a new entry, seen 0 times. */
    method GetNumberOfTimesSeen(packetUid: U64, now: int) returns (n: nat)
      modifies this
      ensures Step(old(packetInfo), QueryOp(packetUid, now)) == Wrappers.Ok(packetInfo)
      ensures n == TimesSeen(packetInfo, packetUid)
      ensures packetUid !in old(packetInfo) ==> n == 0
    {
      if packetUid !in packetInfo {
        packetInfo := packetInfo[packetUid := NewEntry(now)];
      }
      assert packetInfo == old(packetInfo)[packetUid := Lookup(old(packetInfo), packetUid, now)];
      n := packetInfo[packetUid].timesEnqueued;
    }
  }
}
