/**
 * Octets and the fixed-width integer layouts the headers and tags use:
 * ns-3's Buffer::Iterator and TagBuffer write U16/U32/U64 least significant
 * byte first, and WriteHtonU32 / Ipv4Address::Serialize write network
 * (big-endian) order.
 */
module Bytes {
  type Byte = x: int | 0 <= x < 0x100
  type U16 = x: int | 0 <= x < 0x1_0000
  type U32 = x: int | 0 <= x < 0x1_0000_0000
  type U64 = x: int | 0 <= x < 0x1_0000_0000_0000_0000

  function Pow256(n: nat): (p: nat)
    ensures p >= 1
  {
    if n == 0 then 1 else 256 * Pow256(n - 1)
  }

  lemma Pow256Widths()
    ensures Pow256(1) == 0x100 && Pow256(2) == 0x1_0000
    ensures Pow256(4) == 0x1_0000_0000 && Pow256(8) == 0x1_0000_0000_0000_0000
  {
  }

  /** The `n` bytes of `v`, least significant first. */
  function LittleEndian(v: nat, n: nat): (bytes: seq<Byte>)
    requires v < Pow256(n)
    ensures |bytes| == n
  {
    if n == 0 then [] else [v % 256] + LittleEndian(v / 256, n - 1)
  }

  /** The value of bytes stored least significant first. */
  function FromLittleEndian(bytes: seq<Byte>): (v: nat)
    ensures v < Pow256(|bytes|)
  {
    if |bytes| == 0 then 0
    else
      var rest := FromLittleEndian(bytes[1..]);
      assert bytes[0] + 256 * rest <= 255 + 256 * (Pow256(|bytes| - 1) - 1);
      bytes[0] + 256 * rest
  }

  /** Reading back what was written gives the value. */
  lemma {:induction false} LittleEndianRoundTrip(v: nat, n: nat)
    requires v < Pow256(n)
    ensures FromLittleEndian(LittleEndian(v, n)) == v
    decreases n
  {
    if n > 0 {
      LittleEndianRoundTrip(v / 256, n - 1);
      assert LittleEndian(v, n)[1..] == LittleEndian(v / 256, n - 1);
    }
  }

  /** Writing back what was read gives the bytes. */
  lemma {:induction false} LittleEndianOfValue(bytes: seq<Byte>)
    ensures LittleEndian(FromLittleEndian(bytes), |bytes|) == bytes
    decreases |bytes|
  {
    if |bytes| > 0 {
      LittleEndianOfValue(bytes[1..]);
      var v := FromLittleEndian(bytes);
      assert v % 256 == bytes[0] && v / 256 == FromLittleEndian(bytes[1..]);
      assert bytes == [bytes[0]] + bytes[1..];
    }
  }

  /** The `n` bytes of `v`, most significant first (network order). */
  function BigEndian(v: nat, n: nat): (bytes: seq<Byte>)
    requires v < Pow256(n)
    ensures |bytes| == n
  {
    if n == 0 then [] else BigEndian(v / 256, n - 1) + [v % 256]
  }

  /** The value of bytes stored most significant first. */
  function FromBigEndian(bytes: seq<Byte>): (v: nat)
    ensures v < Pow256(|bytes|)
  {
    if |bytes| == 0 then 0
    else
      var rest := FromBigEndian(bytes[..|bytes| - 1]);
      assert 256 * rest + bytes[|bytes| - 1] <= 256 * (Pow256(|bytes| - 1) - 1) + 255;
      256 * rest + bytes[|bytes| - 1]
  }

  lemma {:induction false} BigEndianRoundTrip(v: nat, n: nat)
    requires v < Pow256(n)
    ensures FromBigEndian(BigEndian(v, n)) == v
    decreases n
  {
    if n > 0 {
      BigEndianRoundTrip(v / 256, n - 1);
      var b := BigEndian(v, n);
      assert b[..|b| - 1] == BigEndian(v / 256, n - 1);
    }
  }

  /** Fields written one after another are read back one after another. */
  lemma LittleEndianPrefix(v: nat, n: nat, rest: seq<Byte>)
    requires v < Pow256(n)
    ensures (LittleEndian(v, n) + rest)[..n] == LittleEndian(v, n)
    ensures (LittleEndian(v, n) + rest)[n..] == rest
  {
  }

  /** A boolean written as one byte; reading it back, any non-zero byte is true. */
  function BoolByte(b: bool): Byte
  {
    if b then 1 else 0
  }
}
