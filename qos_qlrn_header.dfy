/**
 * The QoS variant of the Q-learning information header
 * (qos-qlrn-header.cc): the plain header's fields plus the observed delay,
 * the observed loss and the number of packets received from the previous
 * hop, in 44 bytes.
 */
module QoSQLrnHeaders {
  import opened Bytes
  import opened Wrappers
  import opened TrafficTypes
  import Ipv4
  import Configuration

  datatype QoSQLrnFields = QoSQLrnFields(
    time: U64, packetId: U64, nextEstim: U64, realDelay: U64, dst: Ipv4.Address,
    trafficType: TrafficType, converged: bool, realLoss: U16, numPktsRecv: U32)

  /** GetSerializedSize: four 8-byte integers, a byte, a 4-byte address, a byte, 2 and 4 bytes. */
  const SerializedSize := 8 + 8 + 8 + 8 + 1 + 4 + 1 + 2 + 4

  /** Serialize's layout: the four 8-byte integers, the address, type, flag, loss (2 bytes), count (4 bytes). */
  function Encode(f: QoSQLrnFields): (buf: seq<Byte>)
    ensures |buf| == SerializedSize
  {
    Pow256Widths();
    LittleEndian(f.time, 8) + LittleEndian(f.packetId, 8) + LittleEndian(f.nextEstim, 8)
    + LittleEndian(f.realDelay, 8) + Ipv4.Serialize(f.dst) + [Code(f.trafficType), BoolByte(f.converged)]
    + LittleEndian(f.realLoss, 2) + LittleEndian(f.numPktsRecv, 4)
  }

  /**
   * What Deserialize reads from a buffer that holds a whole header, and
   * whether the type byte named a traffic type; with an unknown type byte
   * the previous traffic type stays.
   */
  function Decode(buf: seq<Byte>, previousType: TrafficType): (r: (QoSQLrnFields, bool))
    requires |buf| >= SerializedSize
    ensures r.1 <==> buf[36] <= 8
    ensures r.1 ==> Code(r.0.trafficType) == buf[36]
    ensures !r.1 ==> r.0.trafficType == previousType
    ensures r.0.converged <==> buf[37] != 0
  {
    Pow256Widths();
    var t := FromCode(buf[36]);
    (QoSQLrnFields(FromLittleEndian(buf[..8]), FromLittleEndian(buf[8..16]), FromLittleEndian(buf[16..24]),
                   FromLittleEndian(buf[24..32]), Ipv4.Deserialize(buf[32..36]),
                   if t.Some? then t.value else previousType, buf[37] != 0,
                   FromLittleEndian(buf[38..40]), FromLittleEndian(buf[40..44])),
     t.Some?)
  }

  /** Deserialize after Serialize restores every field and accepts the type. */
  lemma RoundTrip(f: QoSQLrnFields, rest: seq<Byte>, previousType: TrafficType)
    ensures Decode(Encode(f) + rest, previousType) == (f, true)
  {
    EncodeSlices(f, rest);
    DecodeFields(Encode(f) + rest, f, previousType);
  }

  /** Where each field sits in an encoded header. */
  lemma EncodeSlices(f: QoSQLrnFields, rest: seq<Byte>)
    ensures var buf := Encode(f) + rest;
      |buf| >= SerializedSize
      && buf[..8] == LittleEndian(f.time, 8)
      && buf[8..16] == LittleEndian(f.packetId, 8)
      && buf[16..24] == LittleEndian(f.nextEstim, 8)
      && buf[24..32] == LittleEndian(f.realDelay, 8)
      && buf[32..36] == Ipv4.Serialize(f.dst)
      && buf[36] == Code(f.trafficType) && buf[37] == BoolByte(f.converged)
      && buf[38..40] == LittleEndian(f.realLoss, 2)
      && buf[40..44] == LittleEndian(f.numPktsRecv, 4)
  {
    Pow256Widths();
    var buf := Encode(f) + rest;
    assert buf[..8] == LittleEndian(f.time, 8);
    assert buf[8..16] == LittleEndian(f.packetId, 8);
    assert buf[16..24] == LittleEndian(f.nextEstim, 8);
    assert buf[24..32] == LittleEndian(f.realDelay, 8);
    assert buf[32..36] == Ipv4.Serialize(f.dst);
    assert buf[38..40] == LittleEndian(f.realLoss, 2);
    assert buf[40..44] == LittleEndian(f.numPktsRecv, 4);
  }

  /** A buffer holding each field's bytes in its place decodes to those fields. */
  lemma DecodeFields(buf: seq<Byte>, f: QoSQLrnFields, previousType: TrafficType)
    requires |buf| >= SerializedSize
    requires buf[..8] == LittleEndian(f.time, 8) && buf[8..16] == LittleEndian(f.packetId, 8)
    requires buf[16..24] == LittleEndian(f.nextEstim, 8) && buf[24..32] == LittleEndian(f.realDelay, 8)
    requires buf[32..36] == Ipv4.Serialize(f.dst)
    requires buf[36] == Code(f.trafficType) && buf[37] == BoolByte(f.converged)
    requires buf[38..40] == LittleEndian(f.realLoss, 2) && buf[40..44] == LittleEndian(f.numPktsRecv, 4)
    ensures Decode(buf, previousType) == (f, true)
  {
    Pow256Widths();
    LittleEndianRoundTrip(f.time, 8);
    LittleEndianRoundTrip(f.packetId, 8);
    LittleEndianRoundTrip(f.nextEstim, 8);
    LittleEndianRoundTrip(f.realDelay, 8);
    LittleEndianRoundTrip(f.realLoss, 2);
    LittleEndianRoundTrip(f.numPktsRecv, 4);
    FromCodeOfCode(f.trafficType);
  }

  /** A header whose type byte is known and whose flag byte is 0 or 1 is re-encoded byte for byte. */
  lemma EncodeDecode(buf: seq<Byte>, previousType: TrafficType)
    requires |buf| >= SerializedSize && buf[36] <= 8 && buf[37] <= 1
    ensures Encode(Decode(buf, previousType).0) == buf[..SerializedSize]
  {
    var f := Decode(buf, previousType).0;
    assert LittleEndian(f.time, 8) == buf[..8] by { LittleEndianOfValue(buf[..8]); }
    assert LittleEndian(f.packetId, 8) == buf[8..16] by { LittleEndianOfValue(buf[8..16]); }
    assert LittleEndian(f.nextEstim, 8) == buf[16..24] by { LittleEndianOfValue(buf[16..24]); }
    assert LittleEndian(f.realDelay, 8) == buf[24..32] by { LittleEndianOfValue(buf[24..32]); }
    assert LittleEndian(f.realLoss, 2) == buf[38..40] by { LittleEndianOfValue(buf[38..40]); }
    assert LittleEndian(f.numPktsRecv, 4) == buf[40..44] by { LittleEndianOfValue(buf[40..44]); }
    assert [Code(f.trafficType), BoolByte(f.converged)] == [buf[36], buf[37]];
    Layout(buf);
  }

  /** A header's bytes are the concatenation of its fields' bytes. */
  lemma Layout(buf: seq<Byte>)
    requires |buf| >= SerializedSize
    ensures buf[..SerializedSize] == buf[..8] + buf[8..16] + buf[16..24] + buf[24..32] + buf[32..36]
                                     + [buf[36], buf[37]] + buf[38..40] + buf[40..44]
  {
  }

  class QoSQLrnHeader {
    var packetId: U64
    var time: U64
    var nextEstim: U64
    var realDelay: U64
    var converged: bool
    var dst: Ipv4.Address
    var realLoss: U16
    var numPktsRecv: U32
    var trafficType: TrafficType
    var valid: bool

    function Fields(): QoSQLrnFields
      reads this
    {
      QoSQLrnFields(time, packetId, nextEstim, realDelay, dst, trafficType, converged, realLoss, numPktsRecv)
    }

    /** The constructor with its default arguments. */
    constructor (packetUid: U64 := 0, timeAsInt: U64 := 0, estim: U64 := 0, delay: U64 := 0,
                 senderConverged: bool := false,
                 packetDst: Ipv4.Address := Configuration.UninitializedQLrnHeaderAddress,
                 loss: U16 := 0, numPkts: U32 := 0, t: TrafficType := Other, isValid: bool := true)
      ensures Fields() == QoSQLrnFields(timeAsInt, packetUid, estim, delay, packetDst, t, senderConverged, loss, numPkts)
      ensures valid == isValid
    {
      packetId := packetUid;
      time := timeAsInt;
      nextEstim := estim;
      realDelay := delay;
      converged := senderConverged;
      dst := packetDst;
      realLoss := loss;
      numPktsRecv := numPkts;
      trafficType := t;
      valid := isValid;
    }

    function GetSerializedSize(): (size: nat)
      ensures forall f: QoSQLrnFields :: |Encode(f)| == size
    {
      SerializedSize
    }

    method Serialize() returns (buf: seq<Byte>)
      ensures buf == Encode(Fields()) && |buf| == GetSerializedSize()
    {
      Pow256Widths();
      buf := LittleEndian(time, 8);
      buf := buf + LittleEndian(packetId, 8);
      buf := buf + LittleEndian(nextEstim, 8);
      buf := buf + LittleEndian(realDelay, 8);
      buf := buf + Ipv4.Serialize(dst);
      buf := buf + [Code(trafficType)];
      buf := buf + [BoolByte(converged)];
      buf := buf + LittleEndian(realLoss, 2);
      buf := buf + LittleEndian(numPktsRecv, 4);
    }

    /**
     * Reads a header from the remaining bytes `start`: a short buffer marks
     * the header invalid and consumes nothing; otherwise 44 bytes are read
     * and an unknown type byte marks the header invalid.
     */
    method Deserialize(start: seq<Byte>) returns (consumed: nat)
      modifies this
      ensures |start| < SerializedSize ==> consumed == 0 && !valid && Fields() == old(Fields())
      ensures |start| >= SerializedSize ==>
        var (f, known) := Decode(start, old(trafficType));
        consumed == SerializedSize && Fields() == f && valid == (old(valid) && known)
    {
      if |start| < SerializedSize {
        valid := false;
        return 0;
      }
      Pow256Widths();
      ghost var d := Decode(start, trafficType);
      time := FromLittleEndian(start[..8]);
      packetId := FromLittleEndian(start[8..16]);
      nextEstim := FromLittleEndian(start[16..24]);
      realDelay := FromLittleEndian(start[24..32]);
      dst := Ipv4.Deserialize(start[32..36]);
      var t := FromCode(start[36]);
      if t.Some? {
        trafficType := t.value;
      } else {
        valid := false;
      }
      converged := start[37] != 0;
      realLoss := FromLittleEndian(start[38..40]);
      numPktsRecv := FromLittleEndian(start[40..44]);
      consumed := SerializedSize;
      assert Fields() == d.0;
    }
  }
}
