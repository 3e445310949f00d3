/**
 * The header of Q-learning information packets (qlrn-header.cc): the time
 * a packet was received, its id, the sender's estimate, the destination,
 * the traffic type and whether the sender has converged, in 30 bytes.
 */
module QLrnHeaders {
  import opened Bytes
  import opened Wrappers
  import opened TrafficTypes
  import Ipv4
  import Configuration

  /** What the header carries on the wire: all of it but the local validity flag. */
  datatype QLrnFields = QLrnFields(
    time: U64, packetId: U64, nextEstim: U64, dst: Ipv4.Address, trafficType: TrafficType, converged: bool)

  /** GetSerializedSize: three 8-byte integers, a 4-byte address and two single bytes. */
  const SerializedSize := 8 + 8 + 8 + 1 + 4 + 1

  /** Serialize's layout: time, packet id and estimate (8 bytes each), the address, the type, the flag. */
  function Encode(f: QLrnFields): (buf: seq<Byte>)
    ensures |buf| == SerializedSize
  {
    Pow256Widths();
    LittleEndian(f.time, 8) + LittleEndian(f.packetId, 8) + LittleEndian(f.nextEstim, 8)
    + Ipv4.Serialize(f.dst) + [Code(f.trafficType), BoolByte(f.converged)]
  }

  /**
   * What Deserialize reads from a buffer that holds a whole header: the
   * fields, and whether the type byte named a traffic type. With an unknown
   * type byte the previous traffic type stays.
   */
  function Decode(buf: seq<Byte>, previousType: TrafficType): (r: (QLrnFields, bool))
    requires |buf| >= SerializedSize
    ensures r.1 <==> buf[28] <= 8
    ensures r.1 ==> Code(r.0.trafficType) == buf[28]
    ensures !r.1 ==> r.0.trafficType == previousType
    ensures r.0.converged <==> buf[29] != 0
  {
    Pow256Widths();
    var t := FromCode(buf[28]);
    (QLrnFields(FromLittleEndian(buf[..8]), FromLittleEndian(buf[8..16]), FromLittleEndian(buf[16..24]),
                Ipv4.Deserialize(buf[24..28]), if t.Some? then t.value else previousType, buf[29] != 0),
     t.Some?)
  }

  /** Deserialize after Serialize restores every field and accepts the type. */
  lemma RoundTrip(f: QLrnFields, rest: seq<Byte>, previousType: TrafficType)
    ensures Decode(Encode(f) + rest, previousType) == (f, true)
  {
    Pow256Widths();
    var buf := Encode(f) + rest;
    assert buf[..8] == LittleEndian(f.time, 8);
    assert buf[8..16] == LittleEndian(f.packetId, 8);
    assert buf[16..24] == LittleEndian(f.nextEstim, 8);
    assert buf[24..28] == Ipv4.Serialize(f.dst);
    LittleEndianRoundTrip(f.time, 8);
    LittleEndianRoundTrip(f.packetId, 8);
    LittleEndianRoundTrip(f.nextEstim, 8);
    FromCodeOfCode(f.trafficType);
  }

  /** A header whose type byte is known and whose flag byte is 0 or 1 is re-encoded byte for byte. */
  lemma EncodeDecode(buf: seq<Byte>, previousType: TrafficType)
    requires |buf| >= SerializedSize && buf[28] <= 8 && buf[29] <= 1
    ensures Encode(Decode(buf, previousType).0) == buf[..SerializedSize]
  {
    LittleEndianOfValue(buf[..8]);
    LittleEndianOfValue(buf[8..16]);
    LittleEndianOfValue(buf[16..24]);
    assert buf[..SerializedSize] == buf[..8] + buf[8..16] + buf[16..24] + buf[24..28] + [buf[28], buf[29]];
  }

  class QLrnHeader {
    var packetId: U64
    var time: U64
    var nextEstim: U64
    var converged: bool
    var dst: Ipv4.Address
    var trafficType: TrafficType
    var valid: bool

    function Fields(): QLrnFields
      reads this
    {
      QLrnFields(time, packetId, nextEstim, dst, trafficType, converged)
    }

    /** The constructor with its default arguments. */
    constructor (packetUid: U64 := 0, timeAsInt: U64 := 0, estim: U64 := 0, senderConverged: bool := false,
                 packetDst: Ipv4.Address := Configuration.UninitializedQLrnHeaderAddress,
                 t: TrafficType := Other, isValid: bool := true)
      ensures Fields() == QLrnFields(timeAsInt, packetUid, estim, packetDst, t, senderConverged)
      ensures valid == isValid
    {
      packetId := packetUid;
      time := timeAsInt;
      nextEstim := estim;
      converged := senderConverged;
      dst := packetDst;
      trafficType := t;
      valid := isValid;
    }

    function GetSerializedSize(): (size: nat)
      ensures forall f: QLrnFields :: |Encode(f)| == size
    {
      SerializedSize
    }

    /** Writes the fields in wire order. */
    method Serialize() returns (buf: seq<Byte>)
      ensures buf == Encode(Fields()) && |buf| == GetSerializedSize()
    {
      Pow256Widths();
      buf := LittleEndian(time, 8);
      buf := buf + LittleEndian(packetId, 8);
      buf := buf + LittleEndian(nextEstim, 8);
      buf := buf + Ipv4.Serialize(dst);
      buf := buf + [Code(trafficType)];
      buf := buf + [BoolByte(converged)];
    }

    /**
     * Reads a header from the remaining bytes `start`. A short buffer marks
     * the header invalid and consumes nothing; otherwise all 30 bytes are
     * read, and an unknown type byte marks the header invalid. Nothing sets
     * the header valid again.
     */
    method Deserialize(start: seq<Byte>) returns (consumed: nat)
      modifies this
      ensures |start| < SerializedSize ==> consumed == 0 && !valid && Fields() == old(Fields())
      ensures |start| >= SerializedSize ==>
        var (f, known) := Decode(start, old(trafficType));
        consumed == SerializedSize && Fields() == f && valid == (old(valid) && known)
    {
      if |start| < SerializedSize {
        valid := false;
        return 0;
      }
      Pow256Widths();
      time := FromLittleEndian(start[..8]);
      packetId := FromLittleEndian(start[8..16]);
      nextEstim := FromLittleEndian(start[16..24]);
      dst := Ipv4.Deserialize(start[24..28]);
      var t := FromCode(start[28]);
      if t.Some? {
        trafficType := t.value;
      } else {
        valid := false;
      }
      converged := start[29] != 0;
      consumed := SerializedSize;
    }
  }
}
