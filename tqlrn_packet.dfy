/**
 * The tqlrn routing protocol's packet headers (tqlrn-packet.cc): a one-byte
 * message type header and the HELLO header that carries a request id.
 */
module TqlrnPackets {
  import opened Bytes
  import opened Wrappers
  import Ipv4

  datatype MessageType = Hello | HelloAck

  /** The type's byte; decoding it gives the type back. */
  function MessageCode(t: MessageType): (b: Byte)
    ensures MessageTypeFromCode(b) == Some(t)
  {
    match t
    case Hello => 1
    case HelloAck => 2
  }

  /** Only the bytes 1 and 2 name a message type. */
  function MessageTypeFromCode(b: int): (r: Option<MessageType>)
    ensures r.Some? <==> b == 1 || b == 2
  {
    if b == 1 then Some(Hello) else if b == 2 then Some(HelloAck) else None
  }

  class TypeHeader {
    var messageType: MessageType
    var valid: bool

    constructor (t: MessageType := Hello)
      ensures messageType == t && valid
    {
      messageType := t;
      valid := true;
    }

    /** The one byte that carries either message type. */
    function GetSerializedSize(): (size: nat)
      ensures forall t: MessageType :: |[MessageCode(t)]| == size
    {
      1
    }

    method Serialize() returns (buf: seq<Byte>)
      ensures buf == [MessageCode(messageType)] && |buf| == GetSerializedSize()
    {
      buf := [MessageCode(messageType)];
    }

    /**
     * Reads the type byte: the header becomes valid, unless the byte is
     * neither 1 nor 2, in which case it is invalid and keeps its old type.
     */
    method Deserialize(start: seq<Byte>) returns (consumed: nat)
      requires |start| >= 1
      modifies this
      ensures consumed == GetSerializedSize()
      ensures valid <==> MessageTypeFromCode(start[0]).Some?
      ensures valid ==> messageType == MessageTypeFromCode(start[0]).value
      ensures !valid ==> messageType == old(messageType)
    {
      var t := MessageTypeFromCode(start[0]);
      valid := true;
      if t.Some? {
        messageType := t.value;
      } else {
        valid := false;
      }
      consumed := 1;
    }

    /** operator==: the same type and the same validity. */
    predicate Equals(o: TypeHeader): (eq: bool)
      reads this, o
      ensures eq <==> MessageCode(messageType) == MessageCode(o.messageType) && valid == o.valid
    {
      messageType == o.messageType && valid == o.valid
    }
  }

  /** A valid type header read back from its own bytes is equal to it. */
  method TypeHeaderRoundTrip(h: TypeHeader) returns (copy: TypeHeader)
    requires h.valid
    ensures fresh(copy) && copy.Equals(h)
  {
    var buf := h.Serialize();
    copy := new TypeHeader(HelloAck);
    var consumed := copy.Deserialize(buf);
  }

  /** WriteHtonU32 of the request id: the HELLO header's only serialised field. */
  function EncodeHello(requestId: U32): (buf: seq<Byte>)
    ensures FromBigEndian(buf) == requestId
  {
    BigEndianRoundTrip(requestId, 4);
    Pow256Widths();
    BigEndian(requestId, 4)
  }

  /** The serialised size HelloHeader declares. */
  const HelloSerializedSizeAsWritten := 0

  /** The declared size is not the size written, so Deserialize's own size check always fails. */
  lemma HelloSizeMismatch(requestId: U32)
    ensures |EncodeHello(requestId)| == 4 != HelloSerializedSizeAsWritten
  {
    Pow256Widths();
  }

  /** The size HelloHeader writes and reads. */
  const HelloSerializedSize := 4

  /** With the size corrected, the bytes written are exactly the bytes read back. */
  lemma HelloRoundTrip(requestId: U32, rest: seq<Byte>)
    ensures |EncodeHello(requestId)| == HelloSerializedSize
    ensures FromBigEndian((EncodeHello(requestId) + rest)[..HelloSerializedSize]) == requestId
  {
    Pow256Widths();
    assert (EncodeHello(requestId) + rest)[..HelloSerializedSize] == EncodeHello(requestId);
  }

  class HelloHeader {
    var requestId: U32
    var dst: Ipv4.Address
    var origin: Ipv4.Address

    constructor (id: U32 := 0, destination: Ipv4.Address := Ipv4.Uninitialized,
                 originator: Ipv4.Address := Ipv4.Uninitialized)
      ensures requestId == id && dst == destination && origin == originator
    {
      requestId := id;
      dst := destination;
      origin := originator;
    }

    /** The size, corrected to the four bytes that Serialize writes for any request id. */
    function GetSerializedSize(): (size: nat)
      ensures forall id: U32 :: |EncodeHello(id)| == size
    {
      Pow256Widths();
      HelloSerializedSize
    }

    method Serialize() returns (buf: seq<Byte>)
      ensures buf == EncodeHello(requestId) && |buf| == GetSerializedSize()
    {
      Pow256Widths();
      buf := BigEndian(requestId, 4);
    }

    /** Reads the request id in network order; the addresses are not on the wire and stay. */
    method Deserialize(start: seq<Byte>) returns (consumed: nat)
      requires |start| >= HelloSerializedSize
      modifies this
      ensures requestId == FromBigEndian(start[..4]) && consumed == GetSerializedSize()
      ensures dst == old(dst) && origin == old(origin)
    {
      Pow256Widths();
      requestId := FromBigEndian(start[..4]);
      consumed := 4;
    }

    /** operator==: the same request id, destination and origin. */
    predicate Equals(o: HelloHeader): (eq: bool)
      reads this, o
      ensures eq <==> EncodeHello(requestId) == EncodeHello(o.requestId) && dst == o.dst && origin == o.origin
    {
      requestId == o.requestId && dst == o.dst && origin == o.origin
    }
  }

  /**
   * A HELLO header read back from its own bytes, into a header that already
   * holds the same addresses, is equal to it.
   */
  method HelloHeaderRoundTrip(h: HelloHeader) returns (copy: HelloHeader)
    ensures fresh(copy) && copy.Equals(h)
  {
    var buf := h.Serialize();
    copy := new HelloHeader(0, h.dst, h.origin);
    var consumed := copy.Deserialize(buf);
    BigEndianRoundTrip(h.requestId, 4);
    assert buf[..4] == buf;
  }
}
