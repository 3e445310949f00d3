/**
 * The test harness's readers of its own test files (qlrn-test.cc): the
 * `"key":value,` reader GetValue, the expected Q-route list, the event
 * lines, and the lookup of a node's expected traffic counts.
 */
module TestParsing {
  import opened Wrappers
  import opened Text
  import Configuration

  /** Why the harness stops: NS_FATAL_ERROR, a failed NS_ASSERT, an uncaught exception, or undefined behaviour. */
  datatype Failure =
    | MissingValue                   // NS_FATAL_ERROR in GetValue
    | UnknownEventType(name: string) // NS_FATAL_ERROR in ParseEvent
    | NotANumber(text: string)       // std::stoi or std::stof throws
    | ForgotValue                    // NS_ASSERT_MSG in ParseEvent
    | PastEndOfFile                  // file[curr_index] beyond the vector
    | OutOfRange                     // std::vector::at throws

  const Unused := Configuration.ValueUnusedIntParameter
  const Wildcard := Configuration.QRouteWildcardValue

  /** A `uint` holds its value modulo 2^32. */
  const U32 := 0x1_0000_0000

  // -------------------------------------------------------------------------
  // Positions as GetValue and ParseEvent compute them

  /** `begin`: just past the delimiter found at `found` (of length `len`), or the sentinel when there is none. */
  function Begin(found: Option<nat>, len: nat): nat
  {
    match found
    case None => Unused
    case Some(i) => (i + len) % U32
  }

  /** `end`: from `begin` to the mark found at `found`, as a `uint`, or the sentinel when there is none. */
  function End(found: Option<nat>, begin: nat): nat
  {
    match found
    case None => Unused
    case Some(j) => (j - begin) % U32
  }

  /** std::string::substr: at most `len` characters from `pos`. */
  function Substr(s: string, pos: nat, len: nat): (r: string)
    requires pos <= |s|
    ensures |r| <= len && r <= s[pos..]
  {
    if pos + len <= |s| then s[pos..pos + len] else s[pos..]
  }

  // -------------------------------------------------------------------------
  // GetValue

  /**
   * The value after `delim` up to the line's first comma, with the number
   * of values read so far: one more when a value is read, the same when
   * `default` is returned.
   */
  function GetValue(delim: string, info: string, count: int, default: string): Result<(string, int), Failure>
  {
    ValueAt(info, Find(info, delim), |delim|, Find(info, ","), count, default)
  }

  /** GetValue once the delimiter and the first comma have been searched for. */
  function ValueAt(info: string, found: Option<nat>, len: nat, comma: Option<nat>, count: int, default: string): Result<(string, int), Failure>
    requires found.Some? ==> found.value + len <= |info|
  {
    var begin := Begin(found, len);
    var end := End(comma, begin);
    if begin != Unused && end != Unused && end != 0 then Ok((Substr(info, begin, end), count + 1))
    else if end == 0 then Err(MissingValue)
    else Ok((default, count))
  }

  /** The first occurrence: an occurrence with none before it. */
  lemma FindFirst(s: string, sub: string, k: nat)
    requires At(s, k, sub)
    requires forall m: nat :: m < k ==> !At(s, m, sub)
    ensures Find(s, sub) == Some(k)
  {
  }

  /** No occurrence can start at a character that is not the first of `sub`. */
  lemma NotBefore(s: string, sub: string, k: nat)
    requires k <= |s| && |sub| > 0 && sub[0] !in s[..k]
    ensures forall m: nat :: m < k ==> !At(s, m, sub)
  {
    forall m: nat | m < k
      ensures !At(s, m, sub)
    {
      assert s[..k][m] == s[m];
    }
  }

  /** `sub` occurs at `k` and its first character nowhere before: it is found at `k`. */
  lemma FindAt(s: string, sub: string, k: nat)
    requires |sub| > 0 && At(s, k, sub) && sub[0] !in s[..k]
    ensures Find(s, sub) == Some(k)
  {
    NotBefore(s, sub, k);
    FindFirst(s, sub, k);
  }

  /** The slices of a line made of five parts. */
  lemma Parts(p: string, d: string, v: string, m: string, r: string)
    ensures var s := p + d + v + m + r;
      s[..|p|] == p && s[|p|..|p| + |d|] == d
      && s[|p| + |d|..|p| + |d| + |v|] == v
      && s[..|p| + |d| + |v|] == p + d + v && s[|p| + |d| + |v|..|p| + |d| + |v| + |m|] == m
      && s[|p| + |d| + |v| + |m|..] == r
  {
  }

  /**
   * Without the delimiter the default comes back and nothing is counted,
   * unless the first comma lies exactly where the unsigned arithmetic
   * turns `end` into 0.
   */
  lemma GetValueAbsent(delim: string, info: string, count: int, default: string)
    requires Find(info, delim).None?
    ensures GetValue(delim, info, count, default)
      == if Find(info, ",").Some? && (Find(info, ",").value - Unused) % U32 == 0 then Err(MissingValue)
         else Ok((default, count))
  {
  }

  /** A `uint` below 2^32 keeps its value. */
  lemma Fits(x: int)
    requires 0 <= x < U32
    ensures x % U32 == x
  {
  }

  /** A delimiter ending before the first comma: the text between them is read and counted. */
  lemma ValueBetween(info: string, i: nat, len: nat, j: nat, count: int, default: string)
    requires i + len < j <= |info| && j < Unused
    ensures var r := ValueAt(info, Some(i), len, Some(j), count, default);
      r.Ok? && r.value.0 == info[i + len..j] && r.value.1 == count + 1
  {
    Fits(i + len);
    Fits(j - (i + len));
  }

  /** A delimiter followed at once by the first comma: the value is missing. */
  lemma ValueEmpty(info: string, i: nat, len: nat, count: int, default: string)
    requires i + len <= |info|
    ensures ValueAt(info, Some(i), len, Some(i + len), count, default) == Err(MissingValue)
  {
    var x := i + len;
    var k := x / U32;
    assert x - x % U32 == k * U32;
    assert (k * U32) % U32 == 0;
  }

  /**
   * The first comma before the end of the delimiter: `end` wraps around to
   * more than the line holds, so the value runs to the end of the line.
   */
  lemma ValueWrapped(info: string, i: nat, len: nat, j: nat, count: int, default: string)
    requires j < i + len <= |info| < Unused
    ensures var r := ValueAt(info, Some(i), len, Some(j), count, default);
      r.Ok? && r.value.0 == info[i + len..] && r.value.1 == count + 1
  {
    var b := i + len;
    Fits(b);
    assert (j - b) % U32 == j - b + U32;
  }

  /** GetValue when the delimiter ends before the first comma. */
  lemma GetValueFoundBefore(delim: string, info: string, count: int, default: string, i: nat, j: nat)
    requires Find(info, delim) == Some(i) && Find(info, ",") == Some(j) && i + |delim| < j < Unused
    ensures var r := GetValue(delim, info, count, default);
      r.Ok? && r.value.0 == info[i + |delim|..j] && r.value.1 == count + 1
  {
    assert GetValue(delim, info, count, default) == ValueAt(info, Some(i), |delim|, Some(j), count, default);
    ValueBetween(info, i, |delim|, j, count, default);
  }

  /** GetValue when the first comma comes before the end of the delimiter. */
  lemma GetValueFoundAfter(delim: string, info: string, count: int, default: string, i: nat, j: nat)
    requires Find(info, delim) == Some(i) && Find(info, ",") == Some(j) && j < i + |delim| && |info| < Unused
    ensures var r := GetValue(delim, info, count, default);
      r.Ok? && r.value.0 == info[i + |delim|..] && r.value.1 == count + 1
  {
    assert GetValue(delim, info, count, default) == ValueAt(info, Some(i), |delim|, Some(j), count, default);
    ValueWrapped(info, i, |delim|, j, count, default);
  }

  /** GetValue when the first comma directly follows the delimiter. */
  lemma GetValueFoundEmpty(delim: string, info: string, count: int, default: string, i: nat)
    requires Find(info, delim) == Some(i) && Find(info, ",") == Some(i + |delim|)
    ensures GetValue(delim, info, count, default) == Err(MissingValue)
  {
    ValueEmpty(info, i, |delim|, count, default);
    assert GetValue(delim, info, count, default) == ValueAt(info, Some(i), |delim|, Some(i + |delim|), count, default);
  }

  /** `prefix delim value, rest` reads as `value` and counts it. */
  lemma GetValueOfEntry(prefix: string, delim: string, value: string, rest: string, count: int, default: string)
    requires |delim| > 0 && delim[0] !in prefix
    requires ',' !in prefix + delim + value && |value| > 0
    requires |prefix| + |delim| + |value| < Unused
    ensures var r := GetValue(delim, prefix + delim + value + "," + rest, count, default);
      r.Ok? && r.value.0 == value && r.value.1 == count + 1
  {
    var line := prefix + delim + value + "," + rest;
    EntryFinds(prefix, delim, value, rest);
    Parts(prefix, delim, value, ",", rest);
    GetValueFoundBefore(delim, line, count, default, |prefix|, |prefix| + |delim| + |value|);
  }

  /** The delimiter of `prefix delim value, rest` is found after the prefix. */
  lemma EntryDelimFound(prefix: string, delim: string, value: string, rest: string)
    requires |delim| > 0 && delim[0] !in prefix && ',' !in prefix + delim + value
    ensures Find(prefix + delim + value + "," + rest, delim) == Some(|prefix|)
  {
    Parts(prefix, delim, value, ",", rest);
    FindAt(prefix + delim + value + "," + rest, delim, |prefix|);
  }

  /** The first comma of `prefix delim value, rest` is the one after the value. */
  lemma EntryCommaFound(prefix: string, delim: string, value: string, rest: string)
    requires |delim| > 0 && delim[0] !in prefix && ',' !in prefix + delim + value
    ensures Find(prefix + delim + value + "," + rest, ",") == Some(|prefix| + |delim| + |value|)
  {
    Parts(prefix, delim, value, ",", rest);
    FindAt(prefix + delim + value + "," + rest, ",", |prefix| + |delim| + |value|);
  }

  /** Where the delimiter and the first comma of `prefix delim value, rest` are. */
  lemma EntryFinds(prefix: string, delim: string, value: string, rest: string)
    requires |delim| > 0 && delim[0] !in prefix && ',' !in prefix + delim + value
    ensures var line := prefix + delim + value + "," + rest;
      Find(line, delim) == Some(|prefix|) && Find(line, ",") == Some(|prefix| + |delim| + |value|)
  {
    EntryDelimFound(prefix, delim, value, rest);
    EntryCommaFound(prefix, delim, value, rest);
  }

  /** `prefix delim, rest`: a key with no value is fatal. */
  lemma GetValueMissing(prefix: string, delim: string, rest: string, count: int, default: string)
    requires |delim| > 0 && delim[0] !in prefix
    requires ',' !in prefix + delim
    ensures GetValue(delim, prefix + delim + "," + rest, count, default) == Err(MissingValue)
  {
    MissingDelimFound(prefix, delim, rest);
    MissingCommaFound(prefix, delim, rest);
    GetValueFoundEmpty(delim, prefix + delim + "," + rest, count, default, |prefix|);
  }

  /** The slices of a line made of four parts. */
  lemma FourParts(p: string, d: string, m: string, r: string)
    ensures var s := p + d + m + r;
      s[..|p|] == p && s[|p|..|p| + |d|] == d && s[..|p| + |d|] == p + d && s[|p| + |d|..|p| + |d| + |m|] == m
  {
  }

  /** The delimiter of `prefix delim, rest` is found after the prefix. */
  lemma MissingDelimFound(prefix: string, delim: string, rest: string)
    requires |delim| > 0 && delim[0] !in prefix
    ensures Find(prefix + delim + "," + rest, delim) == Some(|prefix|)
  {
    FourParts(prefix, delim, ",", rest);
    FindAt(prefix + delim + "," + rest, delim, |prefix|);
  }

  /** The first comma of `prefix delim, rest` directly follows the delimiter. */
  lemma MissingCommaFound(prefix: string, delim: string, rest: string)
    requires ',' !in prefix + delim
    ensures Find(prefix + delim + "," + rest, ",") == Some(|prefix| + |delim|)
  {
    FourParts(prefix, delim, ",", rest);
    FindAt(prefix + delim + "," + rest, ",", |prefix| + |delim|);
  }

  /**
   * When the line's first comma comes before the delimiter, `end` wraps
   * around and the value runs to the end of the line.
   */
  lemma GetValueAfterEarlierComma(a: string, b: string, delim: string, value: string, count: int, default: string)
    requires |delim| > 0 && delim[0] !in a + "," + b
    requires ',' !in a
    requires |a + "," + b + delim + value| < Unused
    ensures var r := GetValue(delim, a + "," + b + delim + value, count, default);
      r.Ok? && r.value.0 == value && r.value.1 == count + 1
  {
    var line := a + "," + b + delim + value;
    EarlierCommaFinds(a, b, delim, value);
    Parts(a, ",", b, delim, value);
    GetValueFoundAfter(delim, line, count, default, |a| + 1 + |b|, |a|);
  }

  /** Where the first comma and the delimiter of `a, b delim value` are. */
  lemma EarlierCommaFinds(a: string, b: string, delim: string, value: string)
    requires |delim| > 0 && delim[0] !in a + "," + b && ',' !in a
    ensures var line := a + "," + b + delim + value;
      Find(line, delim) == Some(|a| + 1 + |b|) && Find(line, ",") == Some(|a|)
  {
    EarlierDelimFound(a, b, delim, value);
    EarlierCommaFound(a, b, delim, value);
  }

  /** The delimiter of `a, b delim value` is found after `a, b`. */
  lemma EarlierDelimFound(a: string, b: string, delim: string, value: string)
    requires |delim| > 0 && delim[0] !in a + "," + b
    ensures Find(a + "," + b + delim + value, delim) == Some(|a| + 1 + |b|)
  {
    Parts(a, ",", b, delim, value);
    FindAt(a + "," + b + delim + value, delim, |a| + 1 + |b|);
  }

  /** The first comma of `a, b delim value` is the one after `a`. */
  lemma EarlierCommaFound(a: string, b: string, delim: string, value: string)
    requires ',' !in a
    ensures Find(a + "," + b + delim + value, ",") == Some(|a|)
  {
    Parts(a, ",", b, delim, value);
    FindAt(a + "," + b + delim + value, ",", |a|);
  }

  // -------------------------------------------------------------------------
  // split_q_route_input

  /**
   * The items std::getline yields: the pieces between delimiters, without
   * the empty piece after a final delimiter (or of an empty string).
   */
  function GetlineItems(s: string, delim: char): (items: seq<string>)
    ensures |items| == 0 ==> s == ""
  {
    var parts := Split(s, [delim]);
    if Last(parts) == "" then
      (if |parts| == 1 then assert s == Join(parts, [delim]) by { JoinSplit(s, [delim]); } []
       else parts[..|parts| - 1])
    else parts
  }

  /** One item of an expected route: "*" is the wildcard, anything else std::stoi. */
  function RouteItem(item: string): Result<int, Failure>
  {
    if item == "*" then Ok(Wildcard)
    else match Stoi(item)
      case Some(v) => Ok(v)
      case None => Err(NotANumber(item))
  }

  function RouteItems(items: seq<string>): (r: Result<seq<int>, Failure>)
    ensures r.Ok? <==> forall i :: 0 <= i < |items| ==> RouteItem(items[i]).Ok?
    ensures r.Ok? ==> (|r.value| == |items|
      && forall i :: 0 <= i < |items| ==> RouteItem(items[i]) == Ok(r.value[i]))
    decreases |items|
  {
    if items == [] then Ok([])
    else
      var n := |items| - 1;
      match RouteItems(items[..n])
      case Err(x) => Err(x)
      case Ok(vs) =>
        match RouteItem(items[n])
        case Err(x) => Err(x)
        case Ok(v) => Ok(vs + [v])
  }

  function RouteInput(s: string, delim: char): Result<seq<int>, Failure>
  {
    RouteItems(GetlineItems(s, delim))
  }

  /** split_q_route_input: the getline loop over the items, pushing each. */
  method SplitQRouteInput(s: string, delim: char) returns (r: Result<seq<int>, Failure>)
    ensures r == RouteInput(s, delim)
  {
    var items := GetlineItems(s, delim);
    var elems: seq<int> := [];
    var i := 0;
    while i < |items|
      invariant 0 <= i <= |items|
      invariant RouteItems(items[..i]) == Ok(elems)
    {
      var v := RouteItem(items[i]);
      RouteItemsStep(items, i, elems);
      if v.Err? {
        RouteItemsErrorSticks(items, i + 1);
        return Err(v.error);
      }
      elems := elems + [v.value];
      i := i + 1;
    }
    assert items[..i] == items;
    return Ok(elems);
  }

  /** One more item: its value is appended, or its failure ends the list. */
  lemma RouteItemsStep(items: seq<string>, i: nat, elems: seq<int>)
    requires i < |items| && RouteItems(items[..i]) == Ok(elems)
    ensures RouteItem(items[i]).Err? ==> RouteItems(items[..i + 1]) == Err(RouteItem(items[i]).error)
    ensures RouteItem(items[i]).Ok? ==> RouteItems(items[..i + 1]) == Ok(elems + [RouteItem(items[i]).value])
  {
    assert items[..i + 1][..i] == items[..i];
  }

  lemma {:induction false} RouteItemsErrorSticks(items: seq<string>, n: nat)
    requires n <= |items| && RouteItems(items[..n]).Err?
    ensures RouteItems(items) == RouteItems(items[..n])
    decreases |items| - n
  {
    if n < |items| {
      assert items[..n + 1][..n] == items[..n];
      RouteItemsErrorSticks(items, n + 1);
    } else {
      assert items[..n] == items;
    }
  }

  /** How a route is written in a test file: node ids, "*" for the wildcard. */
  function RouteText(route: seq<nat>, delim: char): string
    requires |route| > 0
  {
    Join(seq(|route|, i requires 0 <= i < |route| => if route[i] == Wildcard then "*" else NatToString(route[i])), [delim])
  }

  /** Reading a written route gives the route back. */
  lemma ReadsRouteText(route: seq<nat>, delim: char)
    requires |route| > 0 && !IsDigit(delim) && delim != '*'
    requires forall i :: 0 <= i < |route| ==> route[i] <= 0x7fff_ffff
    ensures RouteInput(RouteText(route, delim), delim) == Ok(route)
  {
    var parts := seq(|route|, i requires 0 <= i < |route| => if route[i] == Wildcard then "*" else NatToString(route[i]));
    forall i | 0 <= i < |parts|
      ensures delim !in parts[i] && parts[i] != ""
    {
      if route[i] != Wildcard {
        assert AllDigits(parts[i]);
      }
    }
    SplitJoin(parts, delim);
    assert GetlineItems(RouteText(route, delim), delim) == parts;
    forall i | 0 <= i < |parts|
      ensures RouteItem(parts[i]) == Ok(route[i])
    {
      if route[i] != Wildcard {
        StoiOfNatToString(route[i], "");
        assert NatToString(route[i]) + "" == NatToString(route[i]);
        assert NatToString(route[i])[0] != '*';
      }
    }
    var r := RouteItems(parts);
    assert r.Ok?;
    assert r.value == route;
  }

  // -------------------------------------------------------------------------
  // ParseEvent

  datatype EventType = Jitter | Delay | Break | PacketLoss | Traffic | Move

  /** What only a TRAFFIC event sets. */
  datatype TrafficInfo = TrafficInfo(nodeRx: int, seconds: int, trafficType: string)

  datatype TestEvent = TestEvent(t: int, nodeId: int, et: EventType, newValue: real, traffic: Option<TrafficInfo>)

  function EventTypeOf(name: string): Option<EventType>
  {
    if name == "JITTER" then Some(Jitter)
    else if name == "DELAY" then Some(Delay)
    else if name == "BREAK" then Some(Break)
    else if name == "PACKET_LOSS" then Some(PacketLoss)
    else if name == "TRAFFIC" then Some(Traffic)
    else if name == "MOVE" then Some(Move)
    else None
  }

  /**
   * The k-th std::getline on the '-'-separated text: once the text is used
   * up the variable keeps the last field read.
   */
  function Field(fields: seq<string>, k: nat): string
    requires |fields| > 0
  {
    if k < |fields| then fields[k] else fields[|fields| - 1]
  }

  function Int(s: string): Result<int, Failure>
  {
    match Stoi(s)
    case Some(v) => Ok(v)
    case None => Err(NotANumber(s))
  }

  function Float(s: string): Result<real, Failure>
  {
    match Stof(s)
    case Some(v) => Ok(v)
    case None => Err(NotANumber(s))
  }

  const EventMark := "\"event\":{"
  const EventEnd := "},"

  /** The text between `"event":{` and the first `},` of the line, if both occur. */
  function EventText(line: string): Option<string>
  {
    var begin := Begin(Find(line, EventMark), |EventMark|);
    var end := End(Find(line, EventEnd), begin);
    if end == Unused || begin == Unused then None else Some(Substr(line, begin, end))
  }

  /** The fields after the event type: the new value, then for TRAFFIC the receiver, duration and type. */
  function EventTail(t: int, node: int, et: EventType, f: seq<string>): Result<TestEvent, Failure>
    requires |f| > 0
  {
    match Float(Field(f, 3))
    case Err(x) => Err(x)
    case Ok(v) =>
      if et != Traffic then Ok(TestEvent(t, node, et, v, None))
      else
        match Int(Field(f, 4))
        case Err(x) => Err(x)
        case Ok(rx) =>
          if v == rx as real then Err(ForgotValue)
          else
            match Int(Field(f, 5))
            case Err(x) => Err(x)
            case Ok(secs) =>
              if secs == rx then Err(ForgotValue)
              else Ok(TestEvent(t, node, et, v, Some(TrafficInfo(rx, secs, Field(f, 6)))))
  }

  /** One event: time, node, type name, value and, for TRAFFIC, receiver, seconds and traffic type. */
  function ParseEventText(text: string): Result<TestEvent, Failure>
  {
    EventOfFields(Split(text, "-"))
  }

  function EventOfFields(f: seq<string>): Result<TestEvent, Failure>
    requires |f| > 0
  {
    match Int(Field(f, 0))
    case Err(x) => Err(x)
    case Ok(t) =>
      match Int(Field(f, 1))
      case Err(x) => Err(x)
      case Ok(node) =>
        match EventTypeOf(Field(f, 2))
        case None => Err(UnknownEventType(Field(f, 2)))
        case Some(et) => EventTail(t, node, et, f)
  }

  /** How one line reads: not an event line, or the event it holds (or why it is fatal). */
  function LineEvent(line: string): Option<Result<TestEvent, Failure>>
  {
    match EventText(line)
    case None => None
    case Some(text) => Some(ParseEventText(text))
  }

  /** The events on lines `i`, `i+1`, ... up to the first line that `read` finds no event on. */
  function Events(file: seq<string>, i: nat, read: string -> Option<Result<TestEvent, Failure>>): Result<seq<TestEvent>, Failure>
    decreases |file| - i
  {
    if i >= |file| then Err(PastEndOfFile)
    else
      match read(file[i])
      case None => Ok([])
      case Some(Err(x)) => Err(x)
      case Some(Ok(e)) => Then([e], Events(file, i + 1, read))
  }

  function EventsFrom(file: seq<string>, i: nat): Result<seq<TestEvent>, Failure>
  {
    Events(file, i, LineEvent)
  }

  /** One line of the loop: no event ends it, a bad event is fatal, a good one is followed by the rest. */
  lemma EventsStep(file: seq<string>, curr: nat)
    requires curr < |file|
    ensures LineEvent(file[curr]).None? ==> EventsFrom(file, curr) == Ok([])
    ensures LineEvent(file[curr]).Some? && LineEvent(file[curr]).value.Err? ==>
      EventsFrom(file, curr) == Err(LineEvent(file[curr]).value.error)
    ensures LineEvent(file[curr]).Some? && LineEvent(file[curr]).value.Ok? ==>
      EventsFrom(file, curr) == Then([LineEvent(file[curr]).value.value], EventsFrom(file, curr + 1))
  {
  }

  /**
   * Where the loop stands after pushing `pushed` and reaching line `curr`:
   * what the next line decides about the whole result.
   */
  lemma EventsAfter(file: seq<string>, ii: nat, curr: nat, pushed: seq<TestEvent>)
    requires EventsFrom(file, ii) == Then(pushed, EventsFrom(file, curr))
    ensures curr >= |file| ==> EventsFrom(file, ii) == Err(PastEndOfFile)
    ensures curr < |file| && LineEvent(file[curr]).None? ==> EventsFrom(file, ii) == Ok(pushed)
    ensures curr < |file| && LineEvent(file[curr]).Some? && LineEvent(file[curr]).value.Err? ==>
      EventsFrom(file, ii) == Err(LineEvent(file[curr]).value.error)
    ensures curr < |file| && LineEvent(file[curr]).Some? && LineEvent(file[curr]).value.Ok? ==>
      EventsFrom(file, ii) == Then(pushed + [LineEvent(file[curr]).value.value], EventsFrom(file, curr + 1))
  {
    if curr < |file| {
      EventsStep(file, curr);
      match LineEvent(file[curr])
      case None =>
        assert pushed + [] == pushed;
      case Some(Err(x)) =>
      case Some(Ok(e)) =>
        ThenThen(pushed, e, EventsFrom(file, curr + 1));
    }
  }

  /** `pushed` followed by what the rest of the loop yields. */
  function Then(pushed: seq<TestEvent>, rest: Result<seq<TestEvent>, Failure>): Result<seq<TestEvent>, Failure>
  {
    match rest
    case Err(x) => Err(x)
    case Ok(es) => Ok(pushed + es)
  }

  lemma ThenNothing(rest: Result<seq<TestEvent>, Failure>)
    ensures Then([], rest) == rest
  {
    if rest.Ok? {
      assert [] + rest.value == rest.value;
    }
  }

  lemma ThenThen(pushed: seq<TestEvent>, e: TestEvent, rest: Result<seq<TestEvent>, Failure>)
    ensures Then(pushed, Then([e], rest)) == Then(pushed + [e], rest)
  {
    if rest.Ok? {
      assert pushed + ([e] + rest.value) == pushed + [e] + rest.value;
    }
  }

  /** The events read are exactly the events of the lines from `i` up to the first other line. */
  lemma {:induction false} EventsAreTheEventLines(file: seq<string>, i: nat, read: string -> Option<Result<TestEvent, Failure>>)
    requires Events(file, i, read).Ok?
    ensures var es := Events(file, i, read).value;
      i + |es| < |file|
      && read(file[i + |es|]).None?
      && forall k :: 0 <= k < |es| ==> read(file[i + k]) == Some(Ok(es[k]))
    decreases |file| - i
  {
    if read(file[i]).Some? {
      EventsAreTheEventLines(file, i + 1, read);
      var es := Events(file, i, read).value;
      var rest := Events(file, i + 1, read).value;
      assert es == [es[0]] + rest;
      forall k | 0 <= k < |es|
        ensures read(file[i + k]) == Some(Ok(es[k]))
      {
        if k > 0 {
          assert es[k] == rest[k - 1];
          assert i + k == (i + 1) + (k - 1);
        }
      }
    }
  }

  /** Reading events from line `i` of a test file. */
  lemma EventsFromLines(file: seq<string>, i: nat)
    requires EventsFrom(file, i).Ok?
    ensures var es := EventsFrom(file, i).value;
      i + |es| < |file|
      && EventText(file[i + |es|]).None?
      && forall k :: 0 <= k < |es| ==>
           EventText(file[i + k]).Some? && ParseEventText(EventText(file[i + k]).value) == Ok(es[k])
  {
    EventsAreTheEventLines(file, i, LineEvent);
  }

  /** A written integer reads back as itself. */
  lemma IntOfNat(n: nat)
    requires n <= 0x7fff_ffff
    ensures Int(NatToString(n)) == Ok(n)
  {
    StoiOfNatToString(n, "");
    assert NatToString(n) + "" == NatToString(n);
  }

  /** A written integer reads back as itself as a float. */
  lemma FloatOfNat(n: nat)
    ensures Float(NatToString(n)) == Ok(n as real)
  {
    StofOfNatToString(n, "");
    assert NatToString(n) + "" == NatToString(n);
  }

  /** A written integer has no '-' in it. */
  lemma NoDash(n: nat)
    ensures '-' !in NatToString(n)
  {
    assert AllDigits(NatToString(n));
  }

  /** An event whose type name is none of the six is fatal. */
  lemma UnknownTypeFields(f: seq<string>)
    requires |f| >= 3 && Int(f[0]).Ok? && Int(f[1]).Ok? && EventTypeOf(f[2]).None?
    ensures EventOfFields(f) == Err(UnknownEventType(f[2]))
  {
  }

  /** Any other event takes its value from the fourth field and ignores the rest. */
  lemma PlainEventFields(f: seq<string>, t: int, node: int, et: EventType, v: real)
    requires |f| >= 4 && et != Traffic
    requires Int(f[0]) == Ok(t) && Int(f[1]) == Ok(node) && EventTypeOf(f[2]) == Some(et) && Float(f[3]) == Ok(v)
    ensures EventOfFields(f) == Ok(TestEvent(t, node, et, v, None))
  {
  }

  /** A TRAFFIC event takes receiver, duration and traffic type from the next three fields. */
  lemma TrafficEventFields(f: seq<string>, t: int, node: int, v: real, rx: int, secs: int)
    requires |f| >= 7
    requires Int(f[0]) == Ok(t) && Int(f[1]) == Ok(node) && EventTypeOf(f[2]) == Some(Traffic) && Float(f[3]) == Ok(v)
    requires Int(f[4]) == Ok(rx) && Int(f[5]) == Ok(secs) && v != rx as real && secs != rx
    ensures EventOfFields(f) == Ok(TestEvent(t, node, Traffic, v, Some(TrafficInfo(rx, secs, f[6]))))
  {
  }

  /**
   * A TRAFFIC event that stops after its value reads the value again as the
   * receiver, which the "forgot a value" assertion catches.
   */
  lemma ShortTrafficFields(f: seq<string>, v: nat)
    requires |f| == 4 && Int(f[0]).Ok? && Int(f[1]).Ok? && EventTypeOf(f[2]) == Some(Traffic)
    requires Float(f[3]) == Ok(v as real) && Int(f[3]) == Ok(v)
    ensures EventOfFields(f) == Err(ForgotValue)
  {
  }

  /** '-'-free fields joined by '-' split back into themselves. */
  lemma SplitFields(f: seq<string>)
    requires |f| > 0 && forall i :: 0 <= i < |f| ==> '-' !in f[i]
    ensures Split(Join(f, "-"), "-") == f
  {
    SplitJoin(f, '-');
  }

  /** Four '-'-free fields joined by '-' split back into themselves. */
  lemma SplitFour(a: string, b: string, c: string, d: string)
    requires '-' !in a && '-' !in b && '-' !in c && '-' !in d
    ensures Split(Join([a, b, c, d], "-"), "-") == [a, b, c, d]
  {
    var f := [a, b, c, d];
    forall i | 0 <= i < |f|
      ensures '-' !in f[i]
    {
    }
    SplitFields(f);
  }

  /** An event written with an unknown type name is fatal. */
  lemma UnknownTypeIsFatal(t: nat, node: nat, name: string, v: nat)
    requires t <= 0x7fff_ffff && node <= 0x7fff_ffff
    requires '-' !in name && EventTypeOf(name).None?
    ensures ParseEventText(Join([NatToString(t), NatToString(node), name, NatToString(v)], "-"))
      == Err(UnknownEventType(name))
  {
    var f := [NatToString(t), NatToString(node), name, NatToString(v)];
    NoDash(t);
    NoDash(node);
    NoDash(v);
    SplitFour(NatToString(t), NatToString(node), name, NatToString(v));
    IntOfNat(t);
    IntOfNat(node);
    UnknownTypeFields(f);
  }

  /** A written event that is not TRAFFIC reads back as itself. */
  lemma ReadsEvent(t: nat, node: nat, et: EventType, name: string, v: nat)
    requires t <= 0x7fff_ffff && node <= 0x7fff_ffff && et != Traffic
    requires EventTypeOf(name) == Some(et) && '-' !in name
    ensures ParseEventText(Join([NatToString(t), NatToString(node), name, NatToString(v)], "-"))
      == Ok(TestEvent(t, node, et, v as real, None))
  {
    var f := [NatToString(t), NatToString(node), name, NatToString(v)];
    NoDash(t);
    NoDash(node);
    NoDash(v);
    SplitFour(NatToString(t), NatToString(node), name, NatToString(v));
    IntOfNat(t);
    IntOfNat(node);
    FloatOfNat(v);
    PlainEventFields(f, t, node, et, v as real);
  }

  /** A written TRAFFIC event reads back as itself. */
  lemma ReadsTrafficEvent(t: nat, node: nat, name: string, v: nat, rx: nat, secs: nat, kind: string)
    requires t <= 0x7fff_ffff && node <= 0x7fff_ffff && rx <= 0x7fff_ffff && secs <= 0x7fff_ffff
    requires EventTypeOf(name) == Some(Traffic) && '-' !in name && '-' !in kind
    requires v != rx && secs != rx
    ensures ParseEventText(Join([NatToString(t), NatToString(node), name, NatToString(v),
                                 NatToString(rx), NatToString(secs), kind], "-"))
      == Ok(TestEvent(t, node, Traffic, v as real, Some(TrafficInfo(rx, secs, kind))))
  {
    var f := [NatToString(t), NatToString(node), name, NatToString(v), NatToString(rx), NatToString(secs), kind];
    NoDash(t);
    NoDash(node);
    NoDash(v);
    NoDash(rx);
    NoDash(secs);
    SplitFields(f);
    IntOfNat(t);
    IntOfNat(node);
    FloatOfNat(v);
    IntOfNat(rx);
    IntOfNat(secs);
    TrafficEventFields(f, t, node, v as real, rx, secs);
  }

  /** A written TRAFFIC event without receiver, duration and type is rejected. */
  lemma ShortTrafficEventRejected(t: nat, node: nat, name: string, v: nat)
    requires t <= 0x7fff_ffff && node <= 0x7fff_ffff && v <= 0x7fff_ffff
    requires EventTypeOf(name) == Some(Traffic) && '-' !in name
    ensures ParseEventText(Join([NatToString(t), NatToString(node), name, NatToString(v)], "-")) == Err(ForgotValue)
  {
    var f := [NatToString(t), NatToString(node), name, NatToString(v)];
    NoDash(t);
    NoDash(node);
    NoDash(v);
    SplitFour(NatToString(t), NatToString(node), name, NatToString(v));
    IntOfNat(t);
    IntOfNat(node);
    IntOfNat(v);
    FloatOfNat(v);
    ShortTrafficFields(f, v);
  }

  /** QLrnTest's list of scheduled events. */
  class EventList {
    var events: seq<TestEvent>

    constructor()
      ensures events == []
    {
      events := [];
    }

    /** One pass of the loop's body: locate `"event":{ ... },` and parse what lies between. */
    static method ReadEventLine(line: string) returns (r: Option<Result<TestEvent, Failure>>)
      ensures r == LineEvent(line)
    {
      var text := EventText(line);
      if text.None? {
        return None;
      }
      var e := ParseEventText(text.value);
      return Some(e);
    }

    /**
     * ParseEvent: reads event lines from `ii` on, pushing one event per
     * line, until a line without `"event":{ ... },`; it always answers false.
     */
    method ParseEvent(ii: nat, file: seq<string>) returns (r: Result<bool, Failure>)
      modifies this
      ensures EventsFrom(file, ii).Err? ==> r == Err(EventsFrom(file, ii).error)
      ensures EventsFrom(file, ii).Ok? ==> r == Ok(false)
      ensures r.Ok? ==> events == old(events) + EventsFrom(file, ii).value
    {
      var curr := ii;
      ghost var pushed: seq<TestEvent> := [];
      ThenNothing(EventsFrom(file, ii));
      while true
        invariant ii <= curr
        invariant events == old(events) + pushed
        invariant EventsFrom(file, ii) == Then(pushed, EventsFrom(file, curr))
        decreases |file| - curr
      {
        EventsAfter(file, ii, curr, pushed);
        if curr >= |file| {
          return Err(PastEndOfFile);
        }
        var read := ReadEventLine(file[curr]);
        if read.None? {
          return Ok(false);
        }
        if read.value.Err? {
          return Err(read.value.error);
        }
        var e := read.value.value;
        events := events + [e];
        pushed := pushed + [e];
        curr := curr + 1;
      }
    }
  }

  // -------------------------------------------------------------------------
  // GetNodeTrafficExpectedResult

  /** A node's expected counters, in the order the test file parser stores them. */
  datatype Expected = Expected(q: int, a: int, t: int, tRec: int, tLrn: int, tLrnRec: int)

  function Row(e: Expected): (row: seq<int>)
    ensures |row| == 6
  {
    [e.q, e.a, e.t, e.tRec, e.tLrn, e.tLrnRec]
  }

  /** `m_expected_results.at(nodeID)[type]`: type 0 is Q traffic, 1 AODV traffic, 2 data traffic. */
  function ExpectedResult(results: seq<Expected>, nodeId: int, kind: int): (r: Result<int, Failure>)
    requires 0 <= kind < 6
    ensures r.Ok? <==> 0 <= nodeId < |results|
    ensures r.Err? ==> r.error == OutOfRange
    ensures r.Ok? && kind == 0 ==> r.value == results[nodeId].q
    ensures r.Ok? && kind == 1 ==> r.value == results[nodeId].a
    ensures r.Ok? && kind == 2 ==> r.value == results[nodeId].t
  {
    if 0 <= nodeId < |results| then Ok(Row(results[nodeId])[kind]) else Err(OutOfRange)
  }
}
