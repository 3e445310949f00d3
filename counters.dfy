/**
 * The counter lines of an ALGORITHM_OUTPUT file, as the analysis scripts
 * read them: `TAG:   n0/n1/.../nk/`, one value per node, and the delay
 * line `... was +<ms>ms.`.
 */
module Counters {
  import opened Wrappers
  import opened Text
  import opened Traces

  /** `line.split(tag)[1]`: the text after the first occurrence of `tag`. */
  function After(line: string, tag: string): (r: Result<string, PyError>)
    requires |tag| > 0
    ensures r.Err? <==> |Split(line, tag)| < 2
  {
    var parts := Split(line, tag);
    if |parts| < 2 then Err(IndexError) else Ok(parts[1])
  }

  /** `int()` of each item in turn; an item that is not an integer raises ValueError. */
  function Ints(items: seq<string>): (r: Result<seq<int>, PyError>)
    ensures r.Ok? <==> forall i :: 0 <= i < |items| ==> PyInt(items[i]).Some?
    ensures r.Ok? ==> (|r.value| == |items|
      && forall i :: 0 <= i < |items| ==> PyInt(items[i]) == Some(r.value[i]))
    ensures r.Err? ==> r.error == ValueError
    decreases |items|
  {
    if items == [] then Ok([])
    else
      var prefix := items[..|items| - 1];
      assert forall i :: 0 <= i < |prefix| ==> prefix[i] == items[i];
      match Ints(prefix)
      case Err(x) => Err(x)
      case Ok(vs) =>
        match PyInt(items[|items| - 1])
        case None => Err(ValueError)
        case Some(v) => Ok(vs + [v])
  }

  /** The pieces of `text.split('/')` without the last one. */
  function Pieces(text: string): seq<string>
  {
    var pieces := Split(text, "/");
    pieces[..|pieces| - 1]
  }

  /** `[int(i) for i in text.split('/')[:-1]]`: the piece after the trailing slash is dropped. */
  function Values(text: string): Result<seq<int>, PyError>
  {
    Ints(Pieces(text))
  }

  function Sum(vs: seq<int>): int
    decreases |vs|
  {
    if vs == [] then 0 else Sum(vs[..|vs| - 1]) + vs[|vs| - 1]
  }

  /** The decimal numerals of some counters. */
  function Numerals(ns: seq<nat>): (r: seq<string>)
    ensures |r| == |ns|
  {
    seq(|ns|, i requires 0 <= i < |ns| => NatToString(ns[i]))
  }

  /**
   * How the simulator prints a counter list: each value followed by a
   * slash, then whatever ends the line (nothing once the script has cut the
   * newline off).
   */
  function CounterList(ns: seq<nat>, end: string): string
  {
    Join(Numerals(ns) + [end], "/")
  }

  /** A printed counter list holds digits, slashes and its ending only. */
  lemma CounterListExcludes(ns: seq<nat>, end: string, c: char)
    requires !IsDigit(c) && c != '/' && c !in end
    ensures c !in CounterList(ns, end)
  {
    var parts := Numerals(ns) + [end];
    forall i | 0 <= i < |parts|
      ensures c !in parts[i]
    {
      if i < |ns| {
        assert AllDigits(parts[i]);
      }
    }
    JoinExcludes(parts, "/", c);
  }

  /** Reading a printed counter list gives back the counters. */
  lemma ValuesOfCounterList(ns: seq<nat>, end: string)
    requires '/' !in end
    ensures Values(CounterList(ns, end)) == Ok(ns)
  {
    var strs := Numerals(ns);
    var parts := strs + [end];
    forall i | 0 <= i < |parts|
      ensures '/' !in parts[i]
    {
      if i < |strs| {
        assert AllDigits(parts[i]);
      }
    }
    SplitJoin(parts, '/');
    assert parts[..|parts| - 1] == strs;
    assert Pieces(CounterList(ns, end)) == strs;
    forall i | 0 <= i < |strs|
      ensures PyInt(strs[i]) == Some(ns[i] as int)
    {
      PyIntOfNatToString(ns[i]);
    }
    var r := Ints(strs);
    assert r.Ok?;
    assert forall i :: 0 <= i < |ns| ==> r.value[i] == ns[i];
    assert r.value == ns;
  }

  /** The key `"node" + str(i)`. */
  function NodeKey(i: nat): string
  {
    "node" + NatToString(i)
  }

  lemma NodeKeyInjective(i: nat, j: nat)
    requires NodeKey(i) == NodeKey(j)
    ensures i == j
  {
    assert NodeKey(i)[4..] == NatToString(i);
    assert NodeKey(j)[4..] == NatToString(j);
    PyIntOfNatToString(i);
    PyIntOfNatToString(j);
  }

  /** The per-node dictionary after `d["node"+str(index)] = v` for each value in turn. */
  function Store(m: map<string, int>, vs: seq<int>): map<string, int>
    decreases |vs|
  {
    if vs == [] then m else Store(m, vs[..|vs| - 1])[NodeKey(|vs| - 1) := vs[|vs| - 1]]
  }

  predicate NodeKeyBelow(k: string, n: nat)
  {
    exists i :: 0 <= i < n && k == NodeKey(i)
  }

  /** Two different node numbers never share a key. */
  lemma NodeKeysDiffer(n: nat)
    ensures forall i :: 0 <= i < n ==> NodeKey(i) != NodeKey(n)
  {
    forall i | 0 <= i < n
      ensures NodeKey(i) != NodeKey(n)
    {
      if NodeKey(i) == NodeKey(n) {
        NodeKeyInjective(i, n);
      }
    }
  }

  /** After storing, "node<i>" holds the i-th value. */
  lemma {:induction false} StoreLookup(m: map<string, int>, vs: seq<int>)
    ensures forall i :: 0 <= i < |vs| ==> NodeKey(i) in Store(m, vs) && Store(m, vs)[NodeKey(i)] == vs[i]
    decreases |vs|
  {
    if vs != [] {
      var n := |vs| - 1;
      StoreLookup(m, vs[..n]);
      NodeKeysDiffer(n);
    }
  }

  lemma NodeKeyBelowSucc(k: string, n: nat)
    ensures NodeKeyBelow(k, n + 1) <==> NodeKeyBelow(k, n) || k == NodeKey(n)
  {
    if NodeKeyBelow(k, n + 1) {
      var i :| 0 <= i < n + 1 && k == NodeKey(i);
      if i < n {
        assert NodeKeyBelow(k, n);
      }
    }
  }

  /** The keys after storing are the old ones and those of the stored values. */
  lemma {:induction false} StoreKeys(m: map<string, int>, vs: seq<int>)
    ensures forall k :: k in Store(m, vs) <==> k in m || NodeKeyBelow(k, |vs|)
    decreases |vs|
  {
    if vs != [] {
      var n := |vs| - 1;
      StoreKeys(m, vs[..n]);
      forall k
        ensures NodeKeyBelow(k, n + 1) <==> NodeKeyBelow(k, n) || k == NodeKey(n)
      {
        NodeKeyBelowSucc(k, n);
      }
    }
  }

  /** Any other key keeps its value. */
  lemma {:induction false} StoreKeeps(m: map<string, int>, vs: seq<int>)
    ensures forall k :: k in m && !NodeKeyBelow(k, |vs|) ==> k in Store(m, vs) && Store(m, vs)[k] == m[k]
    decreases |vs|
  {
    if vs != [] {
      var n := |vs| - 1;
      StoreKeeps(m, vs[..n]);
      forall k | k in m && !NodeKeyBelow(k, n + 1)
        ensures !NodeKeyBelow(k, n) && k != NodeKey(n)
      {
        NodeKeyBelowSucc(k, n);
      }
    }
  }

  /** `int(text.split('/')[-2])`: only the next-to-last piece is read. */
  function SecondToLast(text: string): Result<int, PyError>
  {
    var pieces := Split(text, "/");
    if |pieces| < 2 then Err(IndexError)
    else
      match PyInt(pieces[|pieces| - 2])
      case None => Err(ValueError)
      case Some(v) => Ok(v)
  }

  /** Where the list reads, its `[-2]` piece is the last node's value. */
  lemma SecondToLastIsLastValue(text: string)
    requires Values(text).Ok? && |Values(text).value| >= 1
    ensures SecondToLast(text) == Ok(Last(Values(text).value))
  {
    var pieces := Split(text, "/");
    var items := Pieces(text);
    assert items[|items| - 1] == pieces[|pieces| - 2];
  }

  /** `float(line.split('+')[1].split('ms')[0])`. */
  function DelayValue(line: string): Result<real, PyError>
  {
    var parts := Split(line, "+");
    if |parts| < 2 then Err(IndexError)
    else
      match PyFloat(Split(parts[1], "ms")[0])
      case None => Err(ValueError)
      case Some(x) => Ok(x)
  }

  /** A piece without the separator's first character is the first piece. */
  lemma {:induction false} SplitFirstPiece(a: string, sep: string, b: string)
    requires |sep| > 0 && sep[0] !in a
    ensures Split(a + sep + b, sep)[0] == a
    decreases |a|
  {
    var s := a + sep + b;
    if |a| == 0 {
      assert s[..|sep|] == sep;
    } else {
      assert s[0] == a[0];
      assert s[1..] == a[1..] + sep + b;
      SplitFirstPiece(a[1..], sep, b);
      if |s| >= |sep| {
        assert s[..|sep|] != sep by {
          assert s[..|sep|][0] == a[0] != sep[0];
        }
      }
      assert [a[0]] + a[1..] == a;
    }
  }

  /** A delay printed as a whole number of milliseconds reads back as that number. */
  lemma DelayOfReport(text: string, n: nat, rest: string)
    requires '+' !in text && '+' !in rest
    ensures DelayValue(text + "+" + NatToString(n) + "ms" + rest) == Ok(n as real)
  {
    var num := NatToString(n);
    var tail := num + "ms" + rest;
    assert text + "+" + num + "ms" + rest == text + ['+'] + tail;
    SplitAfterPiece(text, '+', tail);
    assert 'm' !in num && '+' !in num by {
      assert AllDigits(num);
    }
    assert '+' !in tail;
    SplitWithout(tail, '+');
    assert tail == num + "ms" + rest;
    SplitFirstPiece(num, "ms", rest);
    PyFloatOfNatToString(n);
  }

  /** The last line that satisfies `p`. */
  function LastWhere(lines: seq<string>, p: string -> bool): (r: Option<nat>)
    ensures r.Some? ==> (r.value < |lines| && p(lines[r.value])
      && forall j :: r.value < j < |lines| ==> !p(lines[j]))
    ensures r.None? ==> forall j :: 0 <= j < |lines| ==> !p(lines[j])
    decreases |lines|
  {
    if lines == [] then None
    else if p(lines[|lines| - 1]) then Some(|lines| - 1)
    else
      var r := LastWhere(lines[..|lines| - 1], p);
      assert forall j :: 0 <= j < |lines| - 1 ==> lines[..|lines| - 1][j] == lines[j];
      r
  }

  const AodvTag := "AODV TRAFFIC"
  const QlrnTag := "QLRN TRAFFIC"
  const LrnRecTag := "LRN REC TRAFFIC"
  const LrnTag := "LRN TRAFFIC"
  const DataTag := "DATA TRAFFIC"
  const DataRecTag := "DATA REC TRAFFIC"
  const DelayTag := "Observed average delay"

  /** What the script splits at: the tag, a colon and three spaces. */
  function Head(tag: string): string
  {
    tag + ":   "
  }

  /** The values listed after `tag` on the line. */
  function Tagged(line: string, tag: string): Result<seq<int>, PyError>
  {
    match After(line, Head(tag))
    case Err(x) => Err(x)
    case Ok(t) => Values(t)
  }

  /** The `[-2]` value listed after `tag`. */
  function TaggedLast(line: string, tag: string): Result<int, PyError>
  {
    match After(line, Head(tag))
    case Err(x) => Err(x)
    case Ok(t) => SecondToLast(t)
  }

  /** The delay a line reads as (0.0 where it does not read). */
  function DelayOrZero(line: string): real
  {
    match DelayValue(line)
    case Ok(ms) => ms
    case Err(_) => 0.0
  }

  /** The delay read from the last delay line, or 0.0 when there is none. */
  function DelayOf(lines: seq<string>, isDelayLine: string -> bool): real
  {
    var r := LastWhere(lines, isDelayLine);
    if r.None? then 0.0 else DelayOrZero(lines[r.value])
  }

  lemma DelayOfSnoc(prefix: seq<string>, line: string, isDelayLine: string -> bool)
    ensures DelayOf(prefix + [line], isDelayLine)
      == if isDelayLine(line) then DelayOrZero(line) else DelayOf(prefix, isDelayLine)
  {
    var lines := prefix + [line];
    assert lines[..|lines| - 1] == prefix;
    var r := LastWhere(prefix, isDelayLine);
    if !isDelayLine(line) && r.Some? {
      assert lines[r.value] == prefix[r.value];
    }
  }


  /** A string without the separator's first character is a single piece. */
  lemma {:induction false} SplitNoSeparatorStart(a: string, sep: string)
    requires |sep| > 0 && sep[0] !in a
    ensures Split(a, sep) == [a]
    decreases |a|
  {
    if |a| >= |sep| {
      assert a[..|sep|] != sep by {
        assert a[..|sep|][0] == a[0];
      }
      SplitNoSeparatorStart(a[1..], sep);
      assert [a[0]] + a[1..] == a;
    }
  }

  /** What follows a tag's head, up to any later occurrence of it. */
  lemma AfterHead(tag: string, rest: string)
    requires |tag| > 0 && tag[0] !in rest
    ensures After(Head(tag) + rest, Head(tag)) == Ok(rest)
  {
    var h := Head(tag);
    var s := h + rest;
    assert s[..|h|] == h;
    assert s[|h|..] == rest;
    assert h[0] == tag[0];
    SplitNoSeparatorStart(rest, h);
  }
}
