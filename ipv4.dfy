/**
 * IPv4 addresses as ns-3's Ipv4Address holds them, with the dotted-quad
 * text that C++ streams print and the Python scripts read back.
 */
module Ipv4 {
  import opened Bytes
  import opened Text
  import opened Wrappers

  datatype Address = Address(a: Byte, b: Byte, c: Byte, d: Byte)

  /** Ipv4Address(): the "uninitialised" address 102.102.102.102. */
  const Uninitialized := Address(102, 102, 102, 102)

  /** Ipv4Address::Serialize: the four octets in network order. */
  function Serialize(x: Address): (buf: seq<Byte>)
    ensures |buf| == 4 && FromBigEndian(buf) == ((x.a * 256 + x.b) * 256 + x.c) * 256 + x.d
  {
    assert [x.a][..0] == [];
    assert FromBigEndian([x.a]) == x.a;
    assert [x.a, x.b][..1] == [x.a];
    assert FromBigEndian([x.a, x.b]) == x.a * 256 + x.b;
    assert [x.a, x.b, x.c][..2] == [x.a, x.b];
    assert FromBigEndian([x.a, x.b, x.c]) == (x.a * 256 + x.b) * 256 + x.c;
    assert [x.a, x.b, x.c, x.d][..3] == [x.a, x.b, x.c];
    [x.a, x.b, x.c, x.d]
  }

  /** Ipv4Address::Deserialize: the address whose serialisation is those four bytes. */
  function Deserialize(buf: seq<Byte>): (x: Address)
    requires |buf| == 4
    ensures Serialize(x) == buf
  {
    Address(buf[0], buf[1], buf[2], buf[3])
  }

  /** The dotted quad "a.b.c.d" that `operator<<` prints. */
  function ToString(x: Address): string
  {
    Join([NatToString(x.a), NatToString(x.b), NatToString(x.c), NatToString(x.d)], ".")
  }

  /** The printed form uses only digits and dots. */
  predicate DottedDecimal(s: string)
  {
    forall i :: 0 <= i < |s| ==> IsDigit(s[i]) || s[i] == '.'
  }

  lemma {:induction false} JoinDottedDecimal(parts: seq<string>)
    requires |parts| >= 1
    requires forall i :: 0 <= i < |parts| ==> AllDigits(parts[i])
    ensures DottedDecimal(Join(parts, "."))
    decreases |parts|
  {
    if |parts| > 1 {
      JoinDottedDecimal(parts[1..]);
    }
  }

  lemma ToStringDottedDecimal(x: Address)
    ensures DottedDecimal(ToString(x))
    ensures |ToString(x)| > 0
  {
    JoinDottedDecimal([NatToString(x.a), NatToString(x.b), NatToString(x.c), NatToString(x.d)]);
  }

  /** Splitting the printed address on '.' gives the four numerals. */
  lemma SplitToString(x: Address)
    ensures Split(ToString(x), ".") ==
      [NatToString(x.a), NatToString(x.b), NatToString(x.c), NatToString(x.d)]
  {
    var parts := [NatToString(x.a), NatToString(x.b), NatToString(x.c), NatToString(x.d)];
    forall i | 0 <= i < |parts|
      ensures '.' !in parts[i]
    {
      assert AllDigits(parts[i]);
    }
    SplitJoin(parts, '.');
  }

  /** Python's `int(addr.split('.')[-1])`: the last octet of a printed address. */
  lemma LastOctetOfToString(x: Address)
    ensures PyInt(Last(Split(ToString(x), "."))) == Some(x.d as int)
  {
    SplitToString(x);
    PyIntOfNatToString(x.d);
  }

  /** Distinct addresses print differently. */
  lemma ToStringInjective(x: Address, y: Address)
    requires ToString(x) == ToString(y)
    ensures x == y
  {
    SplitToString(x);
    SplitToString(y);
    NatToStringValue(x.a);
    NatToStringValue(y.a);
    NatToStringValue(x.b);
    NatToStringValue(y.b);
    NatToStringValue(x.c);
    NatToStringValue(y.c);
    NatToStringValue(x.d);
    NatToStringValue(y.d);
  }
}
