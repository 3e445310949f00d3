/**
 * The packet tags the learners attach to packets (thomas-packet-tags.h).
 * A tag is written into and read from a TagBuffer that holds exactly its
 * serialised size, so reading never runs short.
 */
module PacketTags {
  import opened Bytes
  import Ipv4
  import Configuration

  /** uint64_t(-1), the default of every time and estimate field. */
  const U64Max: U64 := 0xFFFF_FFFF_FFFF_FFFF

  // -------------------------------------------------------------------------
  // Wire layouts

  /** A flag written with WriteU8; ReadU8 gives it back as "non-zero". */
  function EncodeFlag(b: bool): (buf: seq<Byte>)
    ensures |buf| == 1 && (buf[0] != 0 <==> b)
  {
    [BoolByte(b)]
  }

  /** Two 8-byte integers, as the two precursor tags write them. */
  function EncodePair(first: U64, second: U64): (buf: seq<Byte>)
    ensures |buf| == 16
  {
    Pow256Widths();
    LittleEndian(first, 8) + LittleEndian(second, 8)
  }

  function DecodePair(buf: seq<Byte>): (r: (U64, U64))
    requires |buf| >= 16
  {
    Pow256Widths();
    (FromLittleEndian(buf[..8]), FromLittleEndian(buf[8..16]))
  }

  lemma PairRoundTrip(first: U64, second: U64, rest: seq<Byte>)
    ensures DecodePair(EncodePair(first, second) + rest) == (first, second)
  {
    Pow256Widths();
    var buf := EncodePair(first, second) + rest;
    assert buf[..8] == LittleEndian(first, 8);
    assert buf[8..16] == LittleEndian(second, 8);
    LittleEndianRoundTrip(first, 8);
    LittleEndianRoundTrip(second, 8);
  }

  datatype QLrnInfo = QLrnInfo(time: U64, prevHop: Ipv4.Address, maintenance: bool, usableDelay: bool)

  /** QLrnInfoTag's layout: the time, the previous hop's four bytes, the two flags. */
  function EncodeQLrnInfo(x: QLrnInfo): (buf: seq<Byte>)
    ensures |buf| == 8 + 4 + 1 + 1
  {
    Pow256Widths();
    LittleEndian(x.time, 8) + Ipv4.Serialize(x.prevHop) + EncodeFlag(x.maintenance) + EncodeFlag(x.usableDelay)
  }

  function DecodeQLrnInfo(buf: seq<Byte>): QLrnInfo
    requires |buf| >= 14
  {
    Pow256Widths();
    QLrnInfo(FromLittleEndian(buf[..8]), Ipv4.Deserialize(buf[8..12]), buf[12] != 0, buf[13] != 0)
  }

  lemma QLrnInfoRoundTrip(x: QLrnInfo, rest: seq<Byte>)
    ensures DecodeQLrnInfo(EncodeQLrnInfo(x) + rest) == x
  {
    Pow256Widths();
    var buf := EncodeQLrnInfo(x) + rest;
    assert buf[..8] == LittleEndian(x.time, 8);
    assert buf[8..12] == Ipv4.Serialize(x.prevHop);
    LittleEndianRoundTrip(x.time, 8);
  }

  datatype TimeSent = TimeSent(sentTime: U64, initialEstim: U64, prevHop: Ipv4.Address)

  /** PacketTimeSentTag's layout: sent time, initial estimate, then the previous hop. */
  function EncodeTimeSent(x: TimeSent): (buf: seq<Byte>)
    ensures |buf| == 8 + 4 + 8
  {
    Pow256Widths();
    LittleEndian(x.sentTime, 8) + LittleEndian(x.initialEstim, 8) + Ipv4.Serialize(x.prevHop)
  }

  function DecodeTimeSent(buf: seq<Byte>): TimeSent
    requires |buf| >= 20
  {
    Pow256Widths();
    TimeSent(FromLittleEndian(buf[..8]), FromLittleEndian(buf[8..16]), Ipv4.Deserialize(buf[16..20]))
  }

  lemma TimeSentRoundTrip(x: TimeSent, rest: seq<Byte>)
    ensures DecodeTimeSent(EncodeTimeSent(x) + rest) == x
  {
    TimeSentSlices(x, rest);
    DecodeTimeSentFields(EncodeTimeSent(x) + rest, x);
  }

  /** Where each field sits in an encoded PacketTimeSentTag. */
  lemma TimeSentSlices(x: TimeSent, rest: seq<Byte>)
    ensures var buf := EncodeTimeSent(x) + rest;
      |buf| >= 20
      && buf[..8] == LittleEndian(x.sentTime, 8)
      && buf[8..16] == LittleEndian(x.initialEstim, 8)
      && buf[16..20] == Ipv4.Serialize(x.prevHop)
  {
    Pow256Widths();
    var buf := EncodeTimeSent(x) + rest;
    assert buf[..8] == LittleEndian(x.sentTime, 8);
    assert buf[8..16] == LittleEndian(x.initialEstim, 8);
    assert buf[16..20] == Ipv4.Serialize(x.prevHop);
  }

  /** A buffer holding each field's bytes in its place decodes to those fields. */
  lemma DecodeTimeSentFields(buf: seq<Byte>, x: TimeSent)
    requires |buf| >= 20
    requires buf[..8] == LittleEndian(x.sentTime, 8) && buf[8..16] == LittleEndian(x.initialEstim, 8)
    requires buf[16..20] == Ipv4.Serialize(x.prevHop)
    ensures DecodeTimeSent(buf) == x
  {
    LittleEndianRoundTrip(x.sentTime, 8);
    LittleEndianRoundTrip(x.initialEstim, 8);
  }

  datatype PortNr = PortNr(port: U16, learning: bool, packetNumber: U64)

  /** PortNrTag's layout: the port (2 bytes), the learning flag, the packet number (8 bytes). */
  function EncodePortNr(x: PortNr): (buf: seq<Byte>)
    ensures |buf| == 2 + 1 + 8
  {
    Pow256Widths();
    LittleEndian(x.port, 2) + EncodeFlag(x.learning) + LittleEndian(x.packetNumber, 8)
  }

  function DecodePortNr(buf: seq<Byte>): PortNr
    requires |buf| >= 11
  {
    Pow256Widths();
    PortNr(FromLittleEndian(buf[..2]), buf[2] != 0, FromLittleEndian(buf[3..11]))
  }

  lemma PortNrRoundTrip(x: PortNr, rest: seq<Byte>)
    ensures DecodePortNr(EncodePortNr(x) + rest) == x
  {
    Pow256Widths();
    var buf := EncodePortNr(x) + rest;
    assert buf[..2] == LittleEndian(x.port, 2);
    assert buf[3..11] == LittleEndian(x.packetNumber, 8);
    LittleEndianRoundTrip(x.port, 2);
    LittleEndianRoundTrip(x.packetNumber, 8);
  }

  // -------------------------------------------------------------------------
  // The tags

  class RandomDecisionTag {
    var randomNextHop: bool

    constructor (random: bool := false)
      ensures randomNextHop == random
    {
      randomNextHop := random;
    }

    function GetSerializedSize(): (size: nat)
      ensures forall b: bool :: |EncodeFlag(b)| == size
    { 1 }

    method Serialize() returns (buf: seq<Byte>)
      ensures buf == EncodeFlag(randomNextHop) && |buf| == GetSerializedSize()
    {
      buf := [BoolByte(randomNextHop)];
    }

    method Deserialize(buf: seq<Byte>)
      requires |buf| >= GetSerializedSize()
      modifies this
      ensures randomNextHop <==> buf[0] != 0
    {
      randomNextHop := buf[0] != 0;
    }
  }

  class QLrnInfoTag {
    var time: U64
    var prevHop: Ipv4.Address
    var maintenance: bool
    var usableDelay: bool

    function Info(): QLrnInfo
      reads this
    {
      QLrnInfo(time, prevHop, maintenance, usableDelay)
    }

    constructor (o: U64 := U64Max, prev: Ipv4.Address := Configuration.UninitializedQInfoTagAddress,
                 maint: bool := false, usable: bool := true)
      ensures Info() == QLrnInfo(o, prev, maint, usable)
    {
      time := o;
      prevHop := prev;
      maintenance := maint;
      usableDelay := usable;
    }

    /** The bytes written, with the address taking its four serialised bytes. */
    function GetSerializedSize(): (size: nat)
      ensures forall x: QLrnInfo :: |EncodeQLrnInfo(x)| == size
    { 8 + 4 + 1 + 1 }

    method Serialize() returns (buf: seq<Byte>)
      ensures buf == EncodeQLrnInfo(Info()) && |buf| == GetSerializedSize()
    {
      Pow256Widths();
      buf := LittleEndian(time, 8);
      buf := buf + Ipv4.Serialize(prevHop);
      buf := buf + [BoolByte(maintenance)];
      buf := buf + [BoolByte(usableDelay)];
    }

    method Deserialize(buf: seq<Byte>)
      requires |buf| >= GetSerializedSize()
      modifies this
      ensures Info() == DecodeQLrnInfo(buf)
    {
      Pow256Widths();
      time := FromLittleEndian(buf[..8]);
      prevHop := Ipv4.Deserialize(buf[8..12]);
      maintenance := buf[12] != 0;
      usableDelay := buf[13] != 0;
    }
  }

  class PacketTimeSentTagPrecursorCT {
    var estimTypeC: U64
    var sentTimeAtSrc: U64

    constructor (p: U64 := U64Max, q: U64 := U64Max)
      ensures estimTypeC == p && sentTimeAtSrc == q
    {
      estimTypeC := p;
      sentTimeAtSrc := q;
    }

    function GetSerializedSize(): (size: nat)
      ensures forall first: U64, second: U64 :: |EncodePair(first, second)| == size
    { 8 + 8 }

    method Serialize() returns (buf: seq<Byte>)
      ensures buf == EncodePair(estimTypeC, sentTimeAtSrc) && |buf| == GetSerializedSize()
    {
      Pow256Widths();
      buf := LittleEndian(estimTypeC, 8);
      buf := buf + LittleEndian(sentTimeAtSrc, 8);
    }

    method Deserialize(buf: seq<Byte>)
      requires |buf| >= GetSerializedSize()
      modifies this
      ensures (estimTypeC, sentTimeAtSrc) == DecodePair(buf)
    {
      Pow256Widths();
      estimTypeC := FromLittleEndian(buf[..8]);
      sentTimeAtSrc := FromLittleEndian(buf[8..16]);
    }
  }

  class PacketTimeSentTagPrecursorAB {
    var estimTypeA: U64
    var estimTypeB: U64

    constructor (p: U64 := U64Max, q: U64 := U64Max)
      ensures estimTypeA == p && estimTypeB == q
    {
      estimTypeA := p;
      estimTypeB := q;
    }

    function GetSerializedSize(): (size: nat)
      ensures forall first: U64, second: U64 :: |EncodePair(first, second)| == size
    { 8 + 8 }

    method Serialize() returns (buf: seq<Byte>)
      ensures buf == EncodePair(estimTypeA, estimTypeB) && |buf| == GetSerializedSize()
    {
      Pow256Widths();
      buf := LittleEndian(estimTypeA, 8);
      buf := buf + LittleEndian(estimTypeB, 8);
    }

    method Deserialize(buf: seq<Byte>)
      requires |buf| >= GetSerializedSize()
      modifies this
      ensures (estimTypeA, estimTypeB) == DecodePair(buf)
    {
      Pow256Widths();
      estimTypeA := FromLittleEndian(buf[..8]);
      estimTypeB := FromLittleEndian(buf[8..16]);
    }
  }

  class PacketLossTrackingSentTimeQInfo {
    var sentTime: U64

    constructor (p: U64 := U64Max)
      ensures sentTime == p
    {
      sentTime := p;
    }

    function GetSerializedSize(): (size: nat)
      ensures forall t: nat :: t < Pow256(8) ==> |LittleEndian(t, 8)| == size
      ensures Pow256(size) == U64Max + 1
    {
      Pow256Widths();
      8
    }

    method Serialize() returns (buf: seq<Byte>)
      ensures FromLittleEndian(buf) == sentTime && |buf| == GetSerializedSize()
    {
      Pow256Widths();
      buf := LittleEndian(sentTime, 8);
      LittleEndianRoundTrip(sentTime, 8);
    }

    method Deserialize(buf: seq<Byte>)
      requires |buf| >= GetSerializedSize()
      modifies this
      ensures sentTime == FromLittleEndian(buf[..8])
    {
      Pow256Widths();
      sentTime := FromLittleEndian(buf[..8]);
    }
  }

  class PacketTimeSentTag {
    var sentTime: U64
    var initialEstim: U64
    var prevHop: Ipv4.Address

    function Sent(): TimeSent
      reads this
    {
      TimeSent(sentTime, initialEstim, prevHop)
    }

    constructor (p: U64 := U64Max, q: U64 := U64Max,
                 ip: Ipv4.Address := Configuration.UninitializedPacketTimeSentAddress)
      ensures Sent() == TimeSent(p, q, ip)
    {
      sentTime := p;
      initialEstim := q;
      prevHop := ip;
    }

    /** The bytes written, with the address taking its four serialised bytes. */
    function GetSerializedSize(): (size: nat)
      ensures forall x: TimeSent :: |EncodeTimeSent(x)| == size
    { 8 + 4 + 8 }

    method Serialize() returns (buf: seq<Byte>)
      ensures buf == EncodeTimeSent(Sent()) && |buf| == GetSerializedSize()
    {
      Pow256Widths();
      buf := LittleEndian(sentTime, 8);
      buf := buf + LittleEndian(initialEstim, 8);
      buf := buf + Ipv4.Serialize(prevHop);
    }

    method Deserialize(buf: seq<Byte>)
      requires |buf| >= GetSerializedSize()
      modifies this
      ensures Sent() == DecodeTimeSent(buf)
    {
      Pow256Widths();
      sentTime := FromLittleEndian(buf[..8]);
      initialEstim := FromLittleEndian(buf[8..16]);
      prevHop := Ipv4.Deserialize(buf[16..20]);
    }
  }

  class QRoutedTrafficPacketTag {
    var qRouted: bool

    constructor (routed: bool := false)
      ensures qRouted == routed
    {
      qRouted := routed;
    }

    function GetSerializedSize(): (size: nat)
      ensures forall b: bool :: |EncodeFlag(b)| == size
    { 1 }

    method Serialize() returns (buf: seq<Byte>)
      ensures buf == EncodeFlag(qRouted) && |buf| == GetSerializedSize()
    {
      buf := [BoolByte(qRouted)];
    }

    method Deserialize(buf: seq<Byte>)
      requires |buf| >= GetSerializedSize()
      modifies this
      ensures qRouted <==> buf[0] != 0
    {
      qRouted := buf[0] != 0;
    }
  }

  class PortNrTag {
    var port: U16
    var learning: bool
    var packetNumber: U64

    function Value(): PortNr
      reads this
    {
      PortNr(port, learning, packetNumber)
    }

    constructor (p: U16 := 0, lrn: bool := false, pktNumber: U64 := 0)
      ensures Value() == PortNr(p, lrn, pktNumber)
    {
      port := p;
      learning := lrn;
      packetNumber := pktNumber;
    }

    function GetSerializedSize(): (size: nat)
      ensures forall x: PortNr :: |EncodePortNr(x)| == size
    { 2 + 1 + 8 }

    method Serialize() returns (buf: seq<Byte>)
      ensures buf == EncodePortNr(Value()) && |buf| == GetSerializedSize()
    {
      Pow256Widths();
      buf := LittleEndian(port, 2);
      buf := buf + [BoolByte(learning)];
      buf := buf + LittleEndian(packetNumber, 8);
    }

    method Deserialize(buf: seq<Byte>)
      requires |buf| >= GetSerializedSize()
      modifies this
      ensures Value() == DecodePortNr(buf)
    {
      Pow256Widths();
      port := FromLittleEndian(buf[..2]);
      learning := buf[2] != 0;
      packetNumber := FromLittleEndian(buf[3..11]);
    }
  }

  class DropPacketTag {
    var drop: bool

    constructor (d: bool := false)
      ensures drop == d
    {
      drop := d;
    }

    function GetSerializedSize(): (size: nat)
      ensures forall b: bool :: |EncodeFlag(b)| == size
    { 1 }

    method Serialize() returns (buf: seq<Byte>)
      ensures buf == EncodeFlag(drop) && |buf| == GetSerializedSize()
    {
      buf := [BoolByte(drop)];
    }

    method Deserialize(buf: seq<Byte>)
      requires |buf| >= GetSerializedSize()
      modifies this
      ensures drop <==> buf[0] != 0
    {
      drop := buf[0] != 0;
    }
  }
}
