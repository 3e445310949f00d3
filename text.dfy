/**
 * Strings as the analysis scripts and the test harness see them: Python's
 * str.split, `in`, int() and float(), and C++'s std::string::find,
 * std::stoi and std::stof. Characters are compared as they are; there is
 * no locale, no Unicode whitespace and no case folding.
 */
module Text {
  import opened Wrappers

  /** Python's `line[:-1]`: the line without its final character. */
  function DropLast(s: string): (r: string)
    ensures |s| > 0 ==> s == r + [s[|s| - 1]]
    ensures |s| == 0 ==> r == ""
  {
    if |s| == 0 then s else s[..|s| - 1]
  }

  /** Python's `parts[-1]`. */
  function Last<T>(parts: seq<T>): T
    requires |parts| > 0
  {
    parts[|parts| - 1]
  }

  // ---------------------------------------------------------------------
  // Searching

  /** `sub` occurs in `s` starting at index `k`. */
  predicate At(s: string, k: nat, sub: string)
  {
    k + |sub| <= |s| && s[k..k + |sub|] == sub
  }

  /** std::string::find: the first index at which `sub` occurs. */
  function Find(s: string, sub: string): (r: Option<nat>)
    ensures r.Some? ==> At(s, r.value, sub)
    ensures r.Some? ==> forall k: nat :: k < r.value ==> !At(s, k, sub)
    ensures r.None? ==> forall k: nat :: !At(s, k, sub)
    decreases |s|
  {
    if |sub| > |s| then None
    else if s[..|sub|] == sub then Some(0)
    else
      AtTail(s, sub);
      match Find(s[1..], sub)
      case None => None
      case Some(k) => Some(k + 1)
  }

  lemma AtTail(s: string, sub: string)
    requires |s| > 0
    ensures forall k: nat :: k >= 1 ==> (At(s, k, sub) <==> At(s[1..], k - 1, sub))
  {
    forall k: nat | k >= 1
      ensures At(s, k, sub) <==> At(s[1..], k - 1, sub)
    {
      if k + |sub| <= |s| {
        var left, right := s[k..k + |sub|], s[1..][k - 1..k - 1 + |sub|];
        assert |left| == |right|;
        forall j | 0 <= j < |sub|
          ensures left[j] == right[j]
        {
          assert left[j] == s[k + j];
          assert right[j] == s[1..][k - 1 + j];
        }
        assert left == right;
      }
    }
  }

  /** Python's `sub in s`. */
  predicate Contains(s: string, sub: string)
  {
    exists k :: 0 <= k <= |s| - |sub| && At(s, k, sub)
  }

  /** `sub in s` exactly when find locates it. */
  lemma ContainsFind(s: string, sub: string)
    ensures Contains(s, sub) <==> Find(s, sub).Some?
  {
  }

  lemma NotContainsChar(s: string, c: char)
    requires c !in s
    ensures !Contains(s, [c])
  {
    forall k: nat | k + 1 <= |s|
      ensures !At(s, k, [c])
    {
      assert s[k..k + 1] == [s[k]];
    }
  }

  lemma ContainsChar(s: string, c: char)
    requires c in s
    ensures Contains(s, [c])
  {
    var k :| 0 <= k < |s| && s[k] == c;
    assert s[k..k + 1] == [c];
    assert At(s, k, [c]);
  }

  // ---------------------------------------------------------------------
  // Splitting

  /**
   * Python's `s.split(sep)` for a non-empty separator: scanning from the
   * left, every non-overlapping occurrence of `sep` ends one piece.
   */
  function Split(s: string, sep: string): (parts: seq<string>)
    requires |sep| > 0
    ensures |parts| >= 1
    decreases |s|
  {
    if |s| < |sep| then [s]
    else if s[..|sep|] == sep then [""] + Split(s[|sep|..], sep)
    else
      var rest := Split(s[1..], sep);
      [[s[0]] + rest[0]] + rest[1..]
  }

  /** Python's `sep.join(parts)`. */
  function Join(parts: seq<string>, sep: string): string
    requires |parts| >= 1
  {
    if |parts| == 1 then parts[0] else parts[0] + sep + Join(parts[1..], sep)
  }

  /** A character found in no piece and not in the separator is not in the joined string. */
  lemma {:induction false} JoinExcludes(parts: seq<string>, sep: string, c: char)
    requires |parts| >= 1 && c !in sep
    requires forall i :: 0 <= i < |parts| ==> c !in parts[i]
    ensures c !in Join(parts, sep)
    decreases |parts|
  {
    if |parts| > 1 {
      JoinExcludes(parts[1..], sep, c);
    }
  }

  /** Splitting loses nothing: joining the pieces gives the string back. */
  lemma {:induction false} JoinSplit(s: string, sep: string)
    requires |sep| > 0
    ensures Join(Split(s, sep), sep) == s
    decreases |s|
  {
    if |s| < |sep| {
      assert Split(s, sep) == [s];
    } else if s[..|sep|] == sep {
      var rest := Split(s[|sep|..], sep);
      assert Split(s, sep) == [""] + rest;
      assert ([""] + rest)[1..] == rest;
      JoinSplit(s[|sep|..], sep);
      assert Join([""] + rest, sep) == "" + sep + s[|sep|..];
      assert s == sep + s[|sep|..];
    } else {
      var rest := Split(s[1..], sep);
      assert Split(s, sep) == [[s[0]] + rest[0]] + rest[1..];
      JoinSplit(s[1..], sep);
      JoinExtendFirst(s[0], rest, sep);
      assert s == [s[0]] + s[1..];
    }
  }

  /** Putting a character in front of the first piece puts it in front of the joined string. */
  lemma JoinExtendFirst(c: char, parts: seq<string>, sep: string)
    requires |parts| >= 1
    ensures Join([[c] + parts[0]] + parts[1..], sep) == [c] + Join(parts, sep)
  {
    var ext := [[c] + parts[0]] + parts[1..];
    if |parts| > 1 {
      assert ext[1..] == parts[1..];
      assert Join(ext, sep) == ([c] + parts[0]) + sep + Join(parts[1..], sep);
    }
  }

  /** A piece without the separator character is split off whole. */
  lemma {:induction false} SplitAfterPiece(a: string, c: char, b: string)
    requires c !in a
    ensures Split(a + [c] + b, [c]) == [a] + Split(b, [c])
    decreases |a|
  {
    var s := a + [c] + b;
    if |a| == 0 {
      assert s[..1] == [c];
      assert s[1..] == b;
    } else {
      assert s[..1] == [a[0]];
      assert s[1..] == a[1..] + [c] + b;
      SplitAfterPiece(a[1..], c, b);
      assert [a[0]] + a[1..] == a;
    }
  }

  /** After the last separator character comes the last piece. */
  lemma {:induction false} LastPiece(s: string, c: char, name: string)
    requires c !in name
    ensures var parts := Split(s + [c] + name, [c]); |parts| >= 2 && Last(parts) == name
    decreases |s|
  {
    var t := s + [c] + name;
    if |s| == 0 {
      assert t[..1] == [c];
      assert t[1..] == name;
      SplitWithout(name, c);
    } else {
      assert t[1..] == s[1..] + [c] + name;
      assert t[..1] == [s[0]];
      LastPiece(s[1..], c, name);
    }
  }

  /** A string without the separator character is a single piece. */
  lemma {:induction false} SplitWithout(a: string, c: char)
    requires c !in a
    ensures Split(a, [c]) == [a]
    decreases |a|
  {
    if |a| > 0 {
      assert a[..1] == [a[0]];
      SplitWithout(a[1..], c);
      assert [a[0]] + a[1..] == a;
    }
  }

  /** For a one-character separator, splitting undoes joining. */
  lemma {:induction false} SplitJoin(parts: seq<string>, c: char)
    requires |parts| >= 1
    requires forall i :: 0 <= i < |parts| ==> c !in parts[i]
    ensures Split(Join(parts, [c]), [c]) == parts
    decreases |parts|
  {
    if |parts| == 1 {
      SplitWithout(parts[0], c);
    } else {
      SplitJoin(parts[1..], c);
      SplitAfterPiece(parts[0], c, Join(parts[1..], [c]));
      assert parts == [parts[0]] + parts[1..];
    }
  }

  // ---------------------------------------------------------------------
  // Decimal numerals

  predicate IsDigit(c: char) { '0' <= c <= '9' }

  predicate AllDigits(s: string) { forall i :: 0 <= i < |s| ==> IsDigit(s[i]) }

  function DigitValue(c: char): nat
    requires IsDigit(c)
  {
    (c as int) - ('0' as int)
  }

  function DigitChar(d: nat): (c: char)
    requires d < 10
    ensures IsDigit(c) && DigitValue(c) == d
  {
    (('0' as int) + d) as char
  }

  /** The value of a string of decimal digits, most significant first. */
  function DigitsValue(s: string): nat
    requires AllDigits(s)
    decreases |s|
  {
    if |s| == 0 then 0 else 10 * DigitsValue(s[..|s| - 1]) + DigitValue(s[|s| - 1])
  }

  /** The decimal numeral of `n`, as C++ streams and Python's str() print it. */
  function NatToString(n: nat): (s: string)
    ensures |s| >= 1 && AllDigits(s)
    decreases n
  {
    if n < 10 then [DigitChar(n)] else NatToString(n / 10) + [DigitChar(n % 10)]
  }

  /** Printing a number and reading the digits back gives the number. */
  lemma {:induction false} NatToStringValue(n: nat)
    ensures DigitsValue(NatToString(n)) == n
    decreases n
  {
    if n >= 10 {
      NatToStringValue(n / 10);
      var s := NatToString(n);
      assert s[..|s| - 1] == NatToString(n / 10);
    }
  }

  /** The longest prefix of decimal digits. */
  function DigitPrefix(s: string): (d: string)
    ensures AllDigits(d) && d <= s
    ensures |d| < |s| ==> !IsDigit(s[|d|])
    decreases |s|
  {
    if |s| > 0 && IsDigit(s[0]) then [s[0]] + DigitPrefix(s[1..]) else ""
  }

  lemma {:induction false} DigitPrefixOfDigits(d: string, rest: string)
    requires AllDigits(d)
    requires |rest| > 0 ==> !IsDigit(rest[0])
    ensures DigitPrefix(d + rest) == d
    decreases |d|
  {
    if |d| > 0 {
      assert (d + rest)[1..] == d[1..] + rest;
      DigitPrefixOfDigits(d[1..], rest);
      assert [d[0]] + d[1..] == d;
    }
  }

  // ---------------------------------------------------------------------
  // Conversions

  /** The whitespace that C's isspace and Python's str.strip() agree on. */
  predicate IsSpace(c: char)
  {
    c == ' ' || c == '\t' || c == '\n' || c == '\r' || c == '\U{0b}' || c == '\U{0c}'
  }

  function TrimLeft(s: string): string
    decreases |s|
  {
    if |s| > 0 && IsSpace(s[0]) then TrimLeft(s[1..]) else s
  }

  function TrimRight(s: string): string
    decreases |s|
  {
    if |s| > 0 && IsSpace(s[|s| - 1]) then TrimRight(s[..|s| - 1]) else s
  }

  /** Python's s.strip(). */
  function Strip(s: string): string
  {
    TrimRight(TrimLeft(s))
  }

  lemma StripDigits(d: string)
    requires AllDigits(d)
    ensures Strip(d) == d
  {
    if |d| > 0 {
      assert !IsSpace(d[0]);
      assert !IsSpace(d[|d| - 1]);
    }
  }

  /** A sign, if any, and what follows it. */
  function SplitSign(t: string): (bool, string)
  {
    if |t| > 0 && (t[0] == '-' || t[0] == '+') then (t[0] == '-', t[1..]) else (false, t)
  }

  function Signed(negative: bool, v: nat): int
  {
    if negative then -(v as int) else v as int
  }

  /**
   * Python's int(s): surrounding whitespace, an optional sign, and one or
   * more decimal digits; anything else raises ValueError (None here).
   */
  function PyInt(s: string): Option<int>
  {
    var sign := SplitSign(Strip(s));
    var negative, u := sign.0, sign.1;
    if |u| > 0 && AllDigits(u) then Some(Signed(negative, DigitsValue(u))) else None
  }

  lemma PyIntOfDigits(s: string)
    requires |s| > 0 && AllDigits(s)
    ensures PyInt(s) == Some(DigitsValue(s))
  {
    StripDigits(s);
    assert !(s[0] == '-' || s[0] == '+');
    assert SplitSign(s) == (false, s);
    assert SplitSign(Strip(s)) == (false, s);
  }

  /** int(str(n)) == n for the numerals this project prints. */
  lemma PyIntOfNatToString(n: nat)
    ensures PyInt(NatToString(n)) == Some(n)
  {
    PyIntOfDigits(NatToString(n));
    NatToStringValue(n);
  }

  /**
   * std::stoi: leading whitespace, an optional sign and the longest run of
   * digits; no digit throws invalid_argument and a value outside the
   * 32-bit int range throws out_of_range (None for both).
   */
  function Stoi(s: string): (r: Option<int>)
    ensures r.Some? ==> -0x8000_0000 <= r.value <= 0x7fff_ffff
  {
    var sign := SplitSign(TrimLeft(s));
    var negative, u := sign.0, sign.1;
    var d := DigitPrefix(u);
    if |d| == 0 then None
    else
      var v := Signed(negative, DigitsValue(d));
      if -0x8000_0000 <= v <= 0x7fff_ffff then Some(v) else None
  }

  /** std::stoi reads back a printed number and stops at the first non-digit. */
  lemma StoiOfNatToString(n: nat, rest: string)
    requires n <= 0x7fff_ffff
    requires |rest| > 0 ==> !IsDigit(rest[0])
    ensures Stoi(NatToString(n) + rest) == Some(n)
  {
    var s := NatToString(n);
    assert (s + rest)[0] == s[0];
    assert TrimLeft(s + rest) == s + rest;
    assert SplitSign(s + rest) == (false, s + rest);
    DigitPrefixOfDigits(s, rest);
    NatToStringValue(n);
  }

  /** The exact value of `intPart.fracPart`. */
  function DecimalValue(intPart: string, fracPart: string): real
    requires AllDigits(intPart) && AllDigits(fracPart)
  {
    DigitsValue(intPart) as real + DigitsValue(fracPart) as real / Pow10(|fracPart|) as real
  }

  function Pow10(k: nat): (p: nat)
    ensures p >= 1
  {
    if k == 0 then 1 else 10 * Pow10(k - 1)
  }

  /**
   * A decimal numeral at the start of `u`: digits, then optionally a point
   * and more digits, with at least one digit overall. Returns its exact value
   * and its length.
   */
  function DecimalPrefix(u: string): (r: Option<(real, nat)>)
    ensures r.Some? ==> 0 < r.value.1 <= |u|
  {
    var i := DigitPrefix(u);
    if |i| < |u| && u[|i|] == '.' then
      var f := DigitPrefix(u[|i| + 1..]);
      if |i| + |f| == 0 then None else Some((DecimalValue(i, f), |i| + 1 + |f|))
    else if |i| == 0 then None
    else Some((DecimalValue(i, ""), |i|))
  }

  /**
   * Python's float(s) on plain decimal numerals with surrounding whitespace;
   * anything else raises ValueError (None here).
   */
  function PyFloat(s: string): Option<real>
  {
    var sign := SplitSign(Strip(s));
    var negative, u := sign.0, sign.1;
    match DecimalPrefix(u)
    case Some((v, len)) => if len == |u| then Some(if negative then -v else v) else None
    case None => None
  }

  /** float() of a printed whole number is that number. */
  lemma PyFloatOfNatToString(n: nat)
    ensures PyFloat(NatToString(n)) == Some(n as real)
  {
    PyFloatOfDigits(NatToString(n));
    NatToStringValue(n);
  }

  lemma PyFloatOfDigits(s: string)
    requires |s| > 0 && AllDigits(s)
    ensures PyFloat(s) == Some(DigitsValue(s) as real)
  {
    StripDigits(s);
    assert SplitSign(s) == (false, s);
    DigitPrefixOfDigits(s, "");
    assert s + "" == s;
    assert DigitPrefix(s) == s;
    assert DigitsValue("") == 0 && Pow10(0) == 1;
    assert DecimalValue(s, "") == DigitsValue(s) as real;
    assert DecimalPrefix(s) == Some((DigitsValue(s) as real, |s|));
    assert SplitSign(Strip(s)) == (false, s);
  }

  /**
   * std::stof on plain decimal numerals: leading whitespace, an optional
   * sign and the longest decimal prefix; no numeral throws (None here).
   */
  function Stof(s: string): Option<real>
  {
    var sign := SplitSign(TrimLeft(s));
    var negative, u := sign.0, sign.1;
    match DecimalPrefix(u)
    case Some((v, _)) => Some(if negative then -v else v)
    case None => None
  }

  /** std::stof reads a printed whole number and ignores what follows it. */
  lemma StofOfNatToString(n: nat, rest: string)
    requires |rest| > 0 ==> !IsDigit(rest[0]) && rest[0] != '.'
    ensures Stof(NatToString(n) + rest) == Some(n as real)
  {
    var s := NatToString(n);
    assert (s + rest)[0] == s[0];
    assert TrimLeft(s + rest) == s + rest;
    assert SplitSign(s + rest) == (false, s + rest);
    DigitPrefixOfDigits(s, rest);
    NatToStringValue(n);
  }
}
