/**
 * parse_ALGORITHM_OUTPUT.py: the totals and per-node counters read from
 * the ALGORITHM_OUTPUT files of an AODV, a QoS-Q and a Q run, the delivery
 * percentage, and the report that prints three nodes per row.
 */
module AlgorithmOutput {
  import opened Wrappers
  import opened Text
  import opened Traces
  import opened Counters

  // -------------------------------------------------------------------------
  // The loops over one line's values

  /** Reading one more item. */
  lemma IntsSnoc(items: seq<string>, i: nat, vs: seq<int>, v: int)
    requires i < |items| && Ints(items[..i]) == Ok(vs) && PyInt(items[i]) == Some(v)
    ensures Ints(items[..i + 1]) == Ok(vs + [v])
  {
    assert items[..i + 1][..i] == items[..i];
  }

  /** An item that is not an integer makes the whole list fail. */
  lemma IntsFail(items: seq<string>, i: nat)
    requires i < |items| && PyInt(items[i]).None?
    ensures Ints(items) == Err(ValueError)
  {
  }

  lemma SumSnoc(vs: seq<int>, v: int)
    ensures Sum(vs + [v]) == Sum(vs) + v
  {
    assert (vs + [v])[..|vs|] == vs;
  }

  lemma StoreSnoc(m: map<string, int>, vs: seq<int>, v: int)
    ensures Store(m, vs + [v]) == Store(m, vs)[NodeKey(|vs|) := v]
  {
    assert (vs + [v])[..|vs|] == vs;
  }

  /** `for i in items: total += int(i)`. */
  method AddValues(items: seq<string>, total: int) returns (r: Result<int, PyError>)
    ensures Ints(items).Err? ==> r == Err(Ints(items).error)
    ensures Ints(items).Ok? ==> r == Ok(total + Sum(Ints(items).value))
  {
    var t := total;
    ghost var vs: seq<int> := [];
    var i := 0;
    while i < |items|
      invariant 0 <= i <= |items|
      invariant Ints(items[..i]) == Ok(vs) && t == total + Sum(vs)
    {
      var v := PyInt(items[i]);
      if v.None? {
        IntsFail(items, i);
        return Err(ValueError);
      }
      IntsSnoc(items, i, vs, v.value);
      SumSnoc(vs, v.value);
      vs := vs + [v.value];
      t := t + v.value;
      i := i + 1;
    }
    assert items[..i] == items;
    return Ok(t);
  }

  /** `for i in items: d["node"+str(index)] = int(i); index += 1`. */
  method StoreValues(items: seq<string>, m: map<string, int>) returns (r: Result<map<string, int>, PyError>)
    ensures Ints(items).Err? ==> r == Err(Ints(items).error)
    ensures Ints(items).Ok? ==> r == Ok(Store(m, Ints(items).value))
  {
    var d := m;
    ghost var vs: seq<int> := [];
    var index := 0;
    while index < |items|
      invariant 0 <= index <= |items|
      invariant Ints(items[..index]) == Ok(vs) && |vs| == index && d == Store(m, vs)
    {
      var v := PyInt(items[index]);
      if v.None? {
        IntsFail(items, index);
        return Err(ValueError);
      }
      IntsSnoc(items, index, vs, v.value);
      StoreSnoc(m, vs, v.value);
      vs := vs + [v.value];
      d := d[NodeKey(index) := v.value];
      index := index + 1;
    }
    assert items[..index] == items;
    return Ok(d);
  }

  /** The loop that both adds each value to a total and stores it per node. */
  method AddAndStoreValues(items: seq<string>, total: int, m: map<string, int>)
    returns (r: Result<(int, map<string, int>), PyError>)
    ensures Ints(items).Err? ==> r == Err(Ints(items).error)
    ensures Ints(items).Ok? ==> r == Ok((total + Sum(Ints(items).value), Store(m, Ints(items).value)))
  {
    var t, d := total, m;
    ghost var vs: seq<int> := [];
    var index := 0;
    while index < |items|
      invariant 0 <= index <= |items|
      invariant Ints(items[..index]) == Ok(vs) && |vs| == index
      invariant t == total + Sum(vs) && d == Store(m, vs)
    {
      var v := PyInt(items[index]);
      if v.None? {
        IntsFail(items, index);
        return Err(ValueError);
      }
      IntsSnoc(items, index, vs, v.value);
      SumSnoc(vs, v.value);
      StoreSnoc(m, vs, v.value);
      vs := vs + [v.value];
      t := t + v.value;
      d := d[NodeKey(index) := v.value];
      index := index + 1;
    }
    assert items[..index] == items;
    return Ok((t, d));
  }

  /** The values listed after `tag`, added to `total`. */
  method TaggedAdd(line: string, tag: string, total: int) returns (r: Result<int, PyError>)
    ensures Tagged(line, tag).Err? ==> r == Err(Tagged(line, tag).error)
    ensures Tagged(line, tag).Ok? ==> r == Ok(total + Sum(Tagged(line, tag).value))
  {
    var t := After(line, Head(tag));
    if t.Err? {
      return Err(t.error);
    }
    r := AddValues(Pieces(t.value), total);
  }

  /** The values listed after `tag`, stored per node. */
  method TaggedStore(line: string, tag: string, m: map<string, int>) returns (r: Result<map<string, int>, PyError>)
    ensures Tagged(line, tag).Err? ==> r == Err(Tagged(line, tag).error)
    ensures Tagged(line, tag).Ok? ==> r == Ok(Store(m, Tagged(line, tag).value))
  {
    var t := After(line, Head(tag));
    if t.Err? {
      return Err(t.error);
    }
    r := StoreValues(Pieces(t.value), m);
  }

  /** The values listed after `tag`, added to `total` and stored per node. */
  method TaggedAddStore(line: string, tag: string, total: int, m: map<string, int>)
    returns (r: Result<(int, map<string, int>), PyError>)
    ensures Tagged(line, tag).Err? ==> r == Err(Tagged(line, tag).error)
    ensures Tagged(line, tag).Ok? ==> r == Ok((total + Sum(Tagged(line, tag).value), Store(m, Tagged(line, tag).value)))
  {
    var t := After(line, Head(tag));
    if t.Err? {
      return Err(t.error);
    }
    r := AddAndStoreValues(Pieces(t.value), total, m);
  }

  // -------------------------------------------------------------------------
  // The data and delay lines, read alike in every section

  datatype Data = Data(
    sent: int,    // *_total_data_sent
    recv: int,    // *_total_data_recv
    delay: real)  // *_avg_delay

  const DataStart := Data(0, 0, 0.0)

  /** DATA TRAFFIC, DATA REC TRAFFIC and delay lines; any other line leaves the counters as they are. */
  function DataLine(d: Data, line: string): Result<Data, PyError>
  {
    if Contains(line, DataTag) then
      match Tagged(line, DataTag)
      case Err(x) => Err(x)
      case Ok(vs) => Ok(d.(sent := d.sent + Sum(vs)))
    else if Contains(line, DataRecTag) then
      match TaggedLast(line, DataRecTag)
      case Err(x) => Err(x)
      case Ok(v) => Ok(d.(recv := d.recv + v))
    else if Contains(line, DelayTag) then
      match DelayValue(line)
      case Err(x) => Err(x)
      case Ok(ms) => Ok(d.(delay := ms))
    else Ok(d)
  }

  method DataStep(d: Data, line: string) returns (r: Result<Data, PyError>)
    ensures r == DataLine(d, line)
  {
    if Contains(line, DataTag) {
      var s := TaggedAdd(line, DataTag, d.sent);
      if s.Err? {
        return Err(s.error);
      }
      return Ok(d.(sent := s.value));
    } else if Contains(line, DataRecTag) {
      var v := TaggedLast(line, DataRecTag);
      if v.Err? {
        return Err(v.error);
      }
      return Ok(d.(recv := d.recv + v.value));
    } else if Contains(line, DelayTag) {
      var ms := DelayValue(line);
      if ms.Err? {
        return Err(ms.error);
      }
      return Ok(d.(delay := ms.value));
    }
    return Ok(d);
  }

  /** A DATA REC TRAFFIC line adds only the last node's value. */
  lemma DataRecIsLastNode(d: Data, line: string)
    requires !Contains(line, DataTag) && Contains(line, DataRecTag)
    requires Tagged(line, DataRecTag).Ok? && |Tagged(line, DataRecTag).value| >= 1
    ensures DataLine(d, line) == Ok(d.(recv := d.recv + Last(Tagged(line, DataRecTag).value)))
  {
    SecondToLastIsLastValue(After(line, Head(DataRecTag)).value);
  }

  /** A delay line that no earlier test in the chain catches. */
  predicate IsDelayLine(line: string)
  {
    !Contains(line, DataTag) && !Contains(line, DataRecTag) && Contains(line, DelayTag)
  }

  lemma DataLineDelay(d: Data, line: string)
    requires DataLine(d, line).Ok?
    ensures DataLine(d, line).value.delay
      == if IsDelayLine(line) then DelayValue(line).value else d.delay
  {
  }

  // -------------------------------------------------------------------------
  // The AODV file

  datatype AodvCounters = AodvCounters(
    learning: int,              // aodv_total_learning
    perNode: map<string, int>,  // aodv_learning_per_node
    data: Data)

  const AodvStart := AodvCounters(0, map[], DataStart)

  function AodvLine(c: AodvCounters, line: string): Result<AodvCounters, PyError>
  {
    if Contains(line, AodvTag) then
      match Tagged(line, AodvTag)
      case Err(x) => Err(x)
      case Ok(vs) => Ok(c.(learning := c.learning + Sum(vs), perNode := Store(c.perNode, vs)))
    else
      match DataLine(c.data, line)
      case Err(x) => Err(x)
      case Ok(d) => Ok(c.(data := d))
  }

  function AodvFile(lines: seq<string>): Result<AodvCounters, PyError>
    decreases |lines|
  {
    if lines == [] then Ok(AodvStart)
    else
      match AodvFile(lines[..|lines| - 1])
      case Err(x) => Err(x)
      case Ok(c) => AodvLine(c, lines[|lines| - 1])
  }

  /** The body of the AODV loop for one line. */
  method AodvStep(c: AodvCounters, line: string) returns (r: Result<AodvCounters, PyError>)
    ensures r == AodvLine(c, line)
  {
    if Contains(line, AodvTag) {
      var s := TaggedAddStore(line, AodvTag, c.learning, c.perNode);
      if s.Err? {
        return Err(s.error);
      }
      return Ok(c.(learning := s.value.0, perNode := s.value.1));
    }
    var d := DataStep(c.data, line);
    if d.Err? {
      return Err(d.error);
    }
    return Ok(c.(data := d.value));
  }

  /** The AODV section's loop over the file's lines (each without its last character). */
  method ParseAodvOutput(lines: seq<string>) returns (r: Result<AodvCounters, PyError>)
    ensures r == AodvFile(lines)
  {
    var c := AodvStart;
    var i := 0;
    while i < |lines|
      invariant 0 <= i <= |lines|
      invariant AodvFile(lines[..i]) == Ok(c)
    {
      assert lines[..i + 1][..i] == lines[..i];
      var next := AodvStep(c, lines[i]);
      if next.Err? {
        AodvErrorSticks(lines, i + 1);
        return next;
      }
      c := next.value;
      i := i + 1;
    }
    assert lines[..i] == lines;
    return Ok(c);
  }

  lemma {:induction false} AodvErrorSticks(lines: seq<string>, n: nat)
    requires n <= |lines| && AodvFile(lines[..n]).Err?
    ensures AodvFile(lines) == AodvFile(lines[..n])
    decreases |lines| - n
  {
    if n < |lines| {
      assert lines[..n + 1][..n] == lines[..n];
      AodvErrorSticks(lines, n + 1);
    } else {
      assert lines[..n] == lines;
    }
  }

  /** An AODV TRAFFIC line adds all its values to the total and stores value i under "node<i>". */
  lemma AodvLineStoresPerNode(c: AodvCounters, line: string)
    requires Contains(line, AodvTag) && AodvLine(c, line).Ok?
    ensures Tagged(line, AodvTag).Ok?
    ensures var vs := Tagged(line, AodvTag).value; var r := AodvLine(c, line).value;
      r.learning == c.learning + Sum(vs)
      && (forall i :: 0 <= i < |vs| ==> NodeKey(i) in r.perNode && r.perNode[NodeKey(i)] == vs[i])
      && r.data == c.data
  {
    StoreLookup(c.perNode, Tagged(line, AodvTag).value);
  }

  predicate IsAodvDelayLine(line: string)
  {
    !Contains(line, AodvTag) && IsDelayLine(line)
  }

  lemma AodvLineDelay(c: AodvCounters, line: string)
    requires AodvLine(c, line).Ok?
    ensures AodvLine(c, line).value.data.delay
      == if IsAodvDelayLine(line) then DelayValue(line).value else c.data.delay
  {
    if !Contains(line, AodvTag) {
      DataLineDelay(c.data, line);
    }
  }

  /** A later delay line overwrites an earlier one: the delay is that of the last delay line. */
  lemma {:induction false} AodvDelayLastWins(lines: seq<string>)
    requires AodvFile(lines).Ok?
    ensures AodvFile(lines).value.data.delay == DelayOf(lines, IsAodvDelayLine)
    decreases |lines|
  {
    if lines != [] {
      var prefix, line := lines[..|lines| - 1], lines[|lines| - 1];
      assert AodvFile(prefix).Ok?;
      AodvDelayLastWins(prefix);
      AodvLineDelay(AodvFile(prefix).value, line);
      assert prefix + [line] == lines;
      DelayOfSnoc(prefix, line, IsAodvDelayLine);
    }
  }

  // -------------------------------------------------------------------------
  // The QoS-Q and Q files (read by the same code)

  datatype QCounters = QCounters(
    learning: int,                  // *_total_learning
    qpackets: map<string, int>,     // *_qpackets_per_node (QLRN TRAFFIC values)
    lrnRecv: map<string, int>,      // *_lrn_traffic_recv_per_node (LRN TRAFFIC values)
    lrnSent: map<string, int>,      // *_lrn_traffic_sent_per_node (LRN REC TRAFFIC values)
    data: Data)

  const QStart := QCounters(0, map[], map[], map[], DataStart)

  function QLine(c: QCounters, line: string): Result<QCounters, PyError>
  {
    if Contains(line, QlrnTag) then
      match Tagged(line, QlrnTag)
      case Err(x) => Err(x)
      case Ok(vs) => Ok(c.(learning := c.learning + Sum(vs), qpackets := Store(c.qpackets, vs)))
    else LrnLine(c, line)
  }

  /** The rest of the chain, for a line without QLRN TRAFFIC. */
  function LrnLine(c: QCounters, line: string): Result<QCounters, PyError>
  {
    if Contains(line, LrnRecTag) then
      match Tagged(line, LrnRecTag)
      case Err(x) => Err(x)
      case Ok(vs) => Ok(c.(lrnSent := Store(c.lrnSent, vs)))
    else if Contains(line, LrnTag) then
      match Tagged(line, LrnTag)
      case Err(x) => Err(x)
      case Ok(vs) => Ok(c.(learning := c.learning + Sum(vs), lrnRecv := Store(c.lrnRecv, vs)))
    else
      match DataLine(c.data, line)
      case Err(x) => Err(x)
      case Ok(d) => Ok(c.(data := d))
  }

  function QFile(lines: seq<string>): Result<QCounters, PyError>
    decreases |lines|
  {
    if lines == [] then Ok(QStart)
    else
      match QFile(lines[..|lines| - 1])
      case Err(x) => Err(x)
      case Ok(c) => QLine(c, lines[|lines| - 1])
  }

  /** The body of the QoS-Q and Q loops for one line. */
  method QStep(c: QCounters, line: string) returns (r: Result<QCounters, PyError>)
    ensures r == QLine(c, line)
  {
    if Contains(line, QlrnTag) {
      var s := TaggedAddStore(line, QlrnTag, c.learning, c.qpackets);
      if s.Err? {
        return Err(s.error);
      }
      return Ok(c.(learning := s.value.0, qpackets := s.value.1));
    }
    r := LrnStep(c, line);
  }

  method LrnStep(c: QCounters, line: string) returns (r: Result<QCounters, PyError>)
    ensures r == LrnLine(c, line)
  {
    if Contains(line, LrnRecTag) {
      var s := TaggedStore(line, LrnRecTag, c.lrnSent);
      if s.Err? {
        return Err(s.error);
      }
      return Ok(c.(lrnSent := s.value));
    } else if Contains(line, LrnTag) {
      var s := TaggedAddStore(line, LrnTag, c.learning, c.lrnRecv);
      if s.Err? {
        return Err(s.error);
      }
      return Ok(c.(learning := s.value.0, lrnRecv := s.value.1));
    }
    var d := DataStep(c.data, line);
    if d.Err? {
      return Err(d.error);
    }
    return Ok(c.(data := d.value));
  }

  /** The QoS-Q (and, identically, the Q) section's loop over the file's lines. */
  method ParseQOutput(lines: seq<string>) returns (r: Result<QCounters, PyError>)
    ensures r == QFile(lines)
  {
    var c := QStart;
    var i := 0;
    while i < |lines|
      invariant 0 <= i <= |lines|
      invariant QFile(lines[..i]) == Ok(c)
    {
      assert lines[..i + 1][..i] == lines[..i];
      var next := QStep(c, lines[i]);
      if next.Err? {
        QErrorSticks(lines, i + 1);
        return next;
      }
      c := next.value;
      i := i + 1;
    }
    assert lines[..i] == lines;
    return Ok(c);
  }

  lemma {:induction false} QErrorSticks(lines: seq<string>, n: nat)
    requires n <= |lines| && QFile(lines[..n]).Err?
    ensures QFile(lines) == QFile(lines[..n])
    decreases |lines| - n
  {
    if n < |lines| {
      assert lines[..n + 1][..n] == lines[..n];
      QErrorSticks(lines, n + 1);
    } else {
      assert lines[..n] == lines;
    }
  }

  /** Every QLRN TRAFFIC line also contains LRN TRAFFIC, so the order of the tests matters. */
  lemma QlrnContainsLrn(line: string)
    requires Contains(line, QlrnTag)
    ensures Contains(line, LrnTag)
  {
    var k :| 0 <= k <= |line| - |QlrnTag| && At(line, k, QlrnTag);
    assert line[k + 1..k + 1 + |LrnTag|] == line[k..k + |QlrnTag|][1..];
    assert At(line, k + 1, LrnTag);
  }

  /** A QLRN TRAFFIC line counts Q packets and is never counted as learning traffic sent or received. */
  lemma QlrnLineIsNotLrn(c: QCounters, line: string)
    requires Contains(line, QlrnTag) && QLine(c, line).Ok?
    ensures Tagged(line, QlrnTag).Ok?
    ensures var r := QLine(c, line).value;
      r.qpackets == Store(c.qpackets, Tagged(line, QlrnTag).value)
      && r.lrnRecv == c.lrnRecv && r.lrnSent == c.lrnSent && r.data == c.data
  {
  }

  /** What a line adds to the learning total: its QLRN TRAFFIC values or its LRN TRAFFIC values. */
  function LearningOf(line: string): int
  {
    var tag := if Contains(line, QlrnTag) then QlrnTag
      else if !Contains(line, LrnRecTag) && Contains(line, LrnTag) then LrnTag
      else "";
    if tag == "" then 0
    else
      match Tagged(line, tag)
      case Ok(vs) => Sum(vs)
      case Err(_) => 0
  }

  function TotalLearning(lines: seq<string>): int
    decreases |lines|
  {
    if lines == [] then 0 else TotalLearning(lines[..|lines| - 1]) + LearningOf(lines[|lines| - 1])
  }

  lemma QLineLearning(c: QCounters, line: string)
    requires QLine(c, line).Ok?
    ensures QLine(c, line).value.learning == c.learning + LearningOf(line)
  {
  }

  /** Both the QLRN TRAFFIC and the LRN TRAFFIC values add to the one learning total. */
  lemma {:induction false} QLearningTotal(lines: seq<string>)
    requires QFile(lines).Ok?
    ensures QFile(lines).value.learning == TotalLearning(lines)
    decreases |lines|
  {
    if lines != [] {
      var prefix := lines[..|lines| - 1];
      assert QFile(prefix).Ok?;
      QLearningTotal(prefix);
      QLineLearning(QFile(prefix).value, lines[|lines| - 1]);
    }
  }

  predicate IsQDelayLine(line: string)
  {
    !Contains(line, QlrnTag) && !Contains(line, LrnRecTag) && !Contains(line, LrnTag)
    && IsDelayLine(line)
  }

  lemma QLineDelay(c: QCounters, line: string)
    requires QLine(c, line).Ok?
    ensures QLine(c, line).value.data.delay
      == if IsQDelayLine(line) then DelayValue(line).value else c.data.delay
  {
    if !Contains(line, QlrnTag) && !Contains(line, LrnRecTag) && !Contains(line, LrnTag) {
      DataLineDelay(c.data, line);
    }
  }

  /** A later delay line overwrites an earlier one. */
  lemma {:induction false} QDelayLastWins(lines: seq<string>)
    requires QFile(lines).Ok?
    ensures QFile(lines).value.data.delay == DelayOf(lines, IsQDelayLine)
    decreases |lines|
  {
    if lines != [] {
      var prefix, line := lines[..|lines| - 1], lines[|lines| - 1];
      assert QFile(prefix).Ok?;
      QDelayLastWins(prefix);
      QLineDelay(QFile(prefix).value, line);
      assert prefix + [line] == lines;
      DelayOfSnoc(prefix, line, IsQDelayLine);
    }
  }

  // -------------------------------------------------------------------------
  // The report

  /** `float(recv) / float(sent) * 100`, with no guard against zero packets sent. */
  function Delivery(recv: int, sent: int): Result<real, PyError>
  {
    if sent == 0 then Err(ZeroDivisionError) else Ok(recv as real / sent as real * 100.0)
  }

  lemma DeliveryPercent(recv: int, sent: int)
    ensures Delivery(recv, sent).Err? <==> sent == 0
    ensures Delivery(recv, sent).Ok? ==> Delivery(recv, sent).value * sent as real == recv as real * 100.0
  {
    if sent != 0 {
      var q := recv as real / sent as real;
      assert q * sent as real == recv as real;
    }
  }

  function Range(n: nat): seq<nat>
  {
    seq(n, i requires 0 <= i => i)
  }

  function Flatten(rows: seq<seq<nat>>): seq<nat>
    decreases |rows|
  {
    if rows == [] then [] else Flatten(rows[..|rows| - 1]) + rows[|rows| - 1]
  }

  /** The rows of three the report's while loop prints. */
  function FullRows(k: nat): (rows: seq<seq<nat>>)
    ensures |rows| == k
  {
    seq(k, j requires 0 <= j < k => [3 * j, 3 * j + 1, 3 * j + 2])
  }

  /** The one or two nodes of the last row, if any. */
  function Tail(n: nat): seq<nat>
  {
    seq(n % 3, j requires 0 <= j < n % 3 => n - n % 3 + j)
  }

  lemma {:induction false} FlattenFullRows(k: nat)
    ensures Flatten(FullRows(k)) == Range(3 * k)
  {
    if k > 0 {
      FlattenFullRows(k - 1);
      assert FullRows(k)[..k - 1] == FullRows(k - 1);
      assert Range(3 * k) == Range(3 * (k - 1)) + [3 * k - 3, 3 * k - 2, 3 * k - 1];
    }
  }

  /** Every node appears in the report exactly once, in order. */
  lemma RowsCoverNodes(n: nat)
    ensures Flatten(FullRows(n / 3)) + Tail(n) == Range(n)
  {
    FlattenFullRows(n / 3);
    assert Range(n) == Range(3 * (n / 3)) + Tail(n);
  }

  /** The report's row loop for `n` nodes. */
  method ReportRows(n: nat) returns (full: seq<seq<nat>>, tail: seq<nat>)
    ensures full == FullRows(n / 3) && tail == Tail(n)
  {
    full := [];
    var i := 0;
    while i < n - 2
      invariant 0 <= i <= n && i % 3 == 0
      invariant full == FullRows(i / 3)
    {
      assert FullRows(i / 3 + 1) == FullRows(i / 3) + [[i, i + 1, i + 2]];
      full := full + [[i, i + 1, i + 2]];
      i := i + 3;
    }
    assert i == n - n % 3;
    var lastRow := n % 3;
    tail := if lastRow == 0 then [] else if lastRow == 1 then [i] else [i, i + 1];
  }

  /** `d["node"+str(i)]`, which raises KeyError for a missing node. */
  function Lookup(m: map<string, int>, i: nat): (r: Result<int, PyError>)
    ensures r.Ok? <==> NodeKey(i) in m
  {
    if NodeKey(i) in m then Ok(m[NodeKey(i)]) else Err(KeyError)
  }

  /** One QoS-Q or Q report entry: Q packets, learning traffic received and sent. */
  function QCell(qpackets: map<string, int>, c: QCounters, i: nat): (r: Result<(int, int, int), PyError>)
    ensures r.Ok? <==> NodeKey(i) in qpackets && NodeKey(i) in c.lrnRecv && NodeKey(i) in c.lrnSent
    ensures r.Err? ==> r.error == KeyError
  {
    match Lookup(qpackets, i)
    case Err(x) => Err(x)
    case Ok(a) =>
      match Lookup(c.lrnRecv, i)
      case Err(x) => Err(x)
      case Ok(b) =>
        match Lookup(c.lrnSent, i)
        case Err(x) => Err(x)
        case Ok(d) => Ok((a, b, d))
  }

  function QCells(qpackets: map<string, int>, c: QCounters, idx: seq<nat>): (r: Result<seq<(int, int, int)>, PyError>)
    ensures r.Ok? <==> forall j :: 0 <= j < |idx| ==> QCell(qpackets, c, idx[j]).Ok?
    ensures r.Err? ==> r.error == KeyError
    ensures r.Ok? ==> |r.value| == |idx|
    decreases |idx|
  {
    if idx == [] then Ok([])
    else
      var prefix := idx[..|idx| - 1];
      assert forall j :: 0 <= j < |prefix| ==> prefix[j] == idx[j];
      match QCells(qpackets, c, prefix)
      case Err(x) => Err(x)
      case Ok(cells) =>
        match QCell(qpackets, c, idx[|idx| - 1])
        case Err(x) => Err(x)
        case Ok(v) => Ok(cells + [v])
  }

  function QRowCells(qpackets: map<string, int>, c: QCounters, rows: seq<seq<nat>>)
    : (r: Result<seq<seq<(int, int, int)>>, PyError>)
    ensures r.Ok? <==> forall j :: 0 <= j < |rows| ==> QCells(qpackets, c, rows[j]).Ok?
    ensures r.Err? ==> r.error == KeyError
    ensures r.Ok? ==> |r.value| == |rows|
    decreases |rows|
  {
    if rows == [] then Ok([])
    else
      var prefix := rows[..|rows| - 1];
      assert forall j :: 0 <= j < |prefix| ==> prefix[j] == rows[j];
      match QRowCells(qpackets, c, prefix)
      case Err(x) => Err(x)
      case Ok(done) =>
        match QCells(qpackets, c, rows[|rows| - 1])
        case Err(x) => Err(x)
        case Ok(v) => Ok(done + [v])
  }

  /**
   * The report as written for the Q run: the rows of three read the Q
   * packets of `fullRowsQpackets`, the last row those of the run itself.
   */
  function QReportWith(fullRowsQpackets: map<string, int>, c: QCounters)
    : Result<(seq<seq<(int, int, int)>>, seq<(int, int, int)>), PyError>
  {
    var n := |c.qpackets|;
    match QRowCells(fullRowsQpackets, c, FullRows(n / 3))
    case Err(x) => Err(x)
    case Ok(rows) =>
      match QCells(c.qpackets, c, Tail(n))
      case Err(x) => Err(x)
      case Ok(tail) => Ok((rows, tail))
  }

  /** The Q run's report as written: its rows of three show the QoS-Q run's Q packets. */
  function QReportAsWritten(qosq: QCounters, q: QCounters): (r: Result<(seq<seq<(int, int, int)>>, seq<(int, int, int)>), PyError>)
    ensures r.Err? ==> r.error == KeyError
    ensures r.Ok? ==> |r.value.0| == |q.qpackets| / 3 && |r.value.1| == |q.qpackets| % 3
    ensures qosq.qpackets == q.qpackets ==> r == QReport(q)
  {
    QReportWith(qosq.qpackets, q)
  }

  /** A run's report, as printed for the QoS-Q run and as meant for the Q run. */
  function QReport(c: QCounters): Result<(seq<seq<(int, int, int)>>, seq<(int, int, int)>), PyError>
  {
    QReportWith(c.qpackets, c)
  }

  /** Every index the report reads is a node below the count. */
  lemma RowIndicesBelow(n: nat)
    ensures forall r, j :: r in FullRows(n / 3) && 0 <= j < |r| ==> r[j] < n
    ensures forall j :: 0 <= j < |Tail(n)| ==> Tail(n)[j] < n
  {
  }

  /** When every node 0..n-1 has an entry in each table, the report reads without KeyError. */
  lemma QReportComplete(c: QCounters)
    requires forall i :: 0 <= i < |c.qpackets| ==>
      NodeKey(i) in c.qpackets && NodeKey(i) in c.lrnRecv && NodeKey(i) in c.lrnSent
    ensures QReport(c).Ok?
  {
    RowIndicesBelow(|c.qpackets|);
    var rows := FullRows(|c.qpackets| / 3);
    assert forall j :: 0 <= j < |rows| ==> rows[j] in rows;
  }

  /**
   * The Q report as written fails when the QoS-Q run counted no Q packets
   * although the Q run did, where the report meant reads.
   */
  lemma QReportReadsQosqTable(q: QCounters)
    requires q.qpackets == Store(map[], [1, 2, 3])
    requires q.lrnRecv == q.qpackets && q.lrnSent == q.qpackets
    ensures QReportAsWritten(QStart, q) == Err(KeyError)
    ensures QReport(q).Ok?
  {
    StoreLookup(map[], [1, 2, 3]);
    StoreKeys(map[], [1, 2, 3]);
    forall k | k in q.qpackets
      ensures k == NodeKey(0) || k == NodeKey(1) || k == NodeKey(2)
    {
      var i :| 0 <= i < 3 && k == NodeKey(i);
    }
    assert q.qpackets.Keys == {NodeKey(0), NodeKey(1), NodeKey(2)};
    assert NodeKey(0) != NodeKey(1) && NodeKey(0) != NodeKey(2) && NodeKey(1) != NodeKey(2) by {
      assert NodeKey(0)[4..] == NatToString(0) && NodeKey(1)[4..] == NatToString(1);
      assert NodeKey(2)[4..] == NatToString(2);
    }
    assert |q.qpackets| == 3;
    assert FullRows(1) == [[0, 1, 2]];
    assert QCell(map[], q, [0, 1, 2][0]).Err?;
    assert QCells(map[], q, FullRows(1)[0]).Err?;
    QReportComplete(q);
  }

  /** One AODV report entry: the node's learning packets. */
  function AodvCells(c: AodvCounters, idx: seq<nat>): (r: Result<seq<int>, PyError>)
    ensures r.Ok? <==> forall j :: 0 <= j < |idx| ==> NodeKey(idx[j]) in c.perNode
    decreases |idx|
  {
    if idx == [] then Ok([])
    else
      var prefix := idx[..|idx| - 1];
      assert forall j :: 0 <= j < |prefix| ==> prefix[j] == idx[j];
      match AodvCells(c, prefix)
      case Err(x) => Err(x)
      case Ok(cells) =>
        match Lookup(c.perNode, idx[|idx| - 1])
        case Err(x) => Err(x)
        case Ok(v) => Ok(cells + [v])
  }

  function AodvRowCells(c: AodvCounters, rows: seq<seq<nat>>): (r: Result<seq<seq<int>>, PyError>)
    ensures r.Ok? <==> forall j :: 0 <= j < |rows| ==> AodvCells(c, rows[j]).Ok?
    decreases |rows|
  {
    if rows == [] then Ok([])
    else
      var prefix := rows[..|rows| - 1];
      assert forall j :: 0 <= j < |prefix| ==> prefix[j] == rows[j];
      match AodvRowCells(c, prefix)
      case Err(x) => Err(x)
      case Ok(done) =>
        match AodvCells(c, rows[|rows| - 1])
        case Err(x) => Err(x)
        case Ok(v) => Ok(done + [v])
  }

  /** The AODV run's report: learning packets per node, three per row. */
  function AodvReport(c: AodvCounters): Result<(seq<seq<int>>, seq<int>), PyError>
  {
    var n := |c.perNode|;
    match AodvRowCells(c, FullRows(n / 3))
    case Err(x) => Err(x)
    case Ok(rows) =>
      match AodvCells(c, Tail(n))
      case Err(x) => Err(x)
      case Ok(tail) => Ok((rows, tail))
  }

  /** The AODV report reads without KeyError when the nodes are numbered 0..n-1. */
  lemma AodvReportComplete(c: AodvCounters)
    requires forall i :: 0 <= i < |c.perNode| ==> NodeKey(i) in c.perNode
    ensures AodvReport(c).Ok?
  {
    RowIndicesBelow(|c.perNode|);
    var rows := FullRows(|c.perNode| / 3);
    assert forall j :: 0 <= j < |rows| ==> rows[j] in rows;
  }
}
