/**
 * parse_qlrn_routes in 2DPlot.py: rebuilds the learned path from a trace
 * file of `srcNode-<addr>`, `dstNode-<addr>` and `<next hop>,<node>` lines,
 * the format PrintQRouteToFile writes.
 */
module QlrnRoutes {
  import opened Wrappers
  import opened Text
  import opened Traces
  import Ipv4
  import QRoutes

  /** The loop's variables: the path so far, the last next hop read, the destination address and id. */
  datatype State = State(path: seq<PathElem>, nextHop: Option<string>, dstAddr: string, dstId: int)

  /** `dst_node_id = -1`, and no next hop or destination address bound yet. */
  const Init := State([], None, "", -1)

  /** The text after the first '-' of the line without its last character. */
  function AfterDash(line: string): Result<string, PyError>
  {
    var pieces := Split(DropLast(line), "-");
    if |pieces| < 2 then Err(IndexError) else Ok(pieces[1])
  }

  /** A `<next hop>,<node>` line: exactly two comma-separated pieces, the second an integer. */
  function PairOf(line: string): Result<(string, int), PyError>
  {
    var parts := Split(DropLast(line), ",");
    if |parts| != 2 then Err(ValueError)
    else match PyInt(parts[1])
      case None => Err(ValueError)
      case Some(n) => Ok((parts[0], n))
  }

  /** A `dstNode-<addr>` line: the address and its last dotted piece minus one. */
  function DestinationOf(line: string): Result<(string, int), PyError>
  {
    match AfterDash(line)
    case Err(e) => Err(e)
    case Ok(addr) =>
      match PyInt(Last(Split(addr, ".")))
      case None => Err(ValueError)
      case Some(v) => Ok((addr, v - 1))
  }

  /** One line of the trace file. */
  function Line(st: State, line: string): (r: Result<State, PyError>)
    ensures r.Ok? && Contains(line, ",") ==>
      |r.value.path| == |st.path| + 1 && Last(r.value.path).Hop? && r.value.nextHop == Some(Last(r.value.path).next)
    ensures r.Ok? && !Contains(line, "dstNode-") ==> r.value.dstId == st.dstId
  {
    if Contains(line, ",") then
      match PairOf(line)
      case Err(e) => Err(e)
      case Ok(p) => Ok(st.(path := st.path + [Hop(p.0, p.1)], nextHop := Some(p.0)))
    else if Contains(line, "srcNode-") then
      match AfterDash(line)
      case Err(e) => Err(e)
      case Ok(addr) => Ok(st.(path := st.path + [Source(addr)]))
    else if Contains(line, "dstNode-") then
      match DestinationOf(line)
      case Err(e) => Err(e)
      case Ok(p) => Ok(st.(dstAddr := p.0, dstId := p.1))
    else Ok(st)
  }

  /** The loop over the file's lines, stopping at the first exception. */
  function Lines(lines: seq<string>): Result<State, PyError>
    decreases |lines|
  {
    if lines == [] then Ok(Init)
    else
      match Lines(lines[..|lines| - 1])
      case Err(e) => Err(e)
      case Ok(st) => Line(st, lines[|lines| - 1])
  }

  /**
   * The whole function: exit 111 when no destination id was read, then the
   * pair (last next hop, destination id) closes the path, and the path
   * counts as found when that next hop is the destination address.
   */
  function Routes(lines: seq<string>): Result<(seq<PathElem>, bool), PyError>
  {
    match Lines(lines)
    case Err(e) => Err(e)
    case Ok(st) =>
      if st.dstId == -1 then Err(Exit(111))
      else if st.nextHop.None? then Err(NameError)
      else Ok((st.path + [Hop(st.nextHop.value, st.dstId)], st.nextHop.value == st.dstAddr))
  }

  /** parse_qlrn_routes over the file's lines. */
  method ParseQlrnRoutes(lines: seq<string>) returns (r: Result<(seq<PathElem>, bool), PyError>)
    ensures r == Routes(lines)
  {
    var st := Init;
    var i := 0;
    while i < |lines|
      invariant 0 <= i <= |lines|
      invariant Lines(lines[..i]) == Ok(st)
    {
      assert lines[..i + 1][..i] == lines[..i];
      var next := Line(st, lines[i]);
      if next.Err? {
        LinesErrorSticks(lines, i + 1);
        return Err(next.error);
      }
      st := next.value;
      i := i + 1;
    }
    assert lines[..i] == lines;
    if st.dstId == -1 {
      return Err(Exit(111));
    }
    if st.nextHop.None? {
      return Err(NameError);
    }
    var path := st.path + [Hop(st.nextHop.value, st.dstId)];
    return Ok((path, Last(path).next == st.dstAddr));
  }

  /** An exception on a line ends the whole loop with it. */
  lemma {:induction false} LinesErrorSticks(lines: seq<string>, n: nat)
    requires n <= |lines| && Lines(lines[..n]).Err?
    ensures Lines(lines) == Lines(lines[..n])
    decreases |lines| - n
  {
    if n < |lines| {
      assert lines[..n + 1][..n] == lines[..n];
      LinesErrorSticks(lines, n + 1);
    } else {
      assert lines[..n] == lines;
    }
  }

  /** Without a `dstNode-` line the id stays -1, and the script exits with 111. */
  lemma {:induction false} NoDestinationExits(lines: seq<string>)
    requires forall i :: 0 <= i < |lines| ==> !Contains(lines[i], "dstNode-")
    requires Lines(lines).Ok?
    ensures Lines(lines).value.dstId == -1
    ensures Routes(lines) == Err(Exit(111))
    decreases |lines|
  {
    if lines != [] {
      var prefix := lines[..|lines| - 1];
      assert Lines(prefix).Ok?;
      NoDestinationExits(prefix);
    }
  }

  // -------------------------------------------------------------------------
  // Reading back a trace file

  /** A trace file: the source line, the destination line, one line per pair. */
  function PrintedFile(src: string, dst: string, pairs: seq<(string, nat)>): (lines: seq<string>)
    ensures |lines| == |pairs| + 2
  {
    ["srcNode-" + src + "\n", "dstNode-" + dst + "\n"] + PairLinesOf(pairs)
  }

  /** The path elements the pairs stand for. */
  function PairsPath(pairs: seq<(string, nat)>): (path: seq<PathElem>)
    ensures |path| == |pairs|
  {
    seq(|pairs|, i requires 0 <= i < |pairs| => Hop(pairs[i].0, pairs[i].1))
  }

  /** The addresses are printed in dotted decimal. */
  predicate Printable(src: string, dst: string, pairs: seq<(string, nat)>)
  {
    Ipv4.DottedDecimal(src) && Ipv4.DottedDecimal(dst)
    && forall i :: 0 <= i < |pairs| ==> Ipv4.DottedDecimal(pairs[i].0)
  }

  /** What the parser holds after reading a whole trace file. */
  function ReadBack(src: string, dst: string, v: int, pairs: seq<(string, nat)>): State
  {
    State([Source(src)] + PairsPath(pairs), if |pairs| == 0 then None else Some(pairs[|pairs| - 1].0), dst, v - 1)
  }

  lemma AtStart(sub: string, rest: string)
    ensures Contains(sub + rest, sub)
  {
    assert (sub + rest)[0..|sub|] == sub;
    assert At(sub + rest, 0, sub);
  }

  lemma NumeralHasNoComma(n: nat)
    ensures ',' !in NatToString(n)
  {
    var s := NatToString(n);
    assert forall i :: 0 <= i < |s| ==> IsDigit(s[i]);
  }

  /** The `srcNode-` line is taken for a source line, and what follows its dash is the address. */
  lemma SourceLineShape(a: string)
    requires Ipv4.DottedDecimal(a)
    ensures var line := "srcNode-" + a + "\n";
      !Contains(line, ",") && Contains(line, "srcNode-") && AfterDash(line) == Ok(a)
  {
    var line := "srcNode-" + a + "\n";
    assert ',' !in a && '-' !in a;
    assert line == "srcNode-" + (a + "\n");
    assert ',' !in line;
    NotContainsChar(line, ',');
    AtStart("srcNode-", a + "\n");
    assert DropLast(line) == "srcNode" + "-" + a;
    SplitAfterPiece("srcNode", '-', a);
    SplitWithout(a, '-');
  }

  /** The `srcNode-` line reads back as the source address. */
  lemma SourceLineReads(st: State, a: string)
    requires Ipv4.DottedDecimal(a)
    ensures Line(st, "srcNode-" + a + "\n") == Ok(st.(path := st.path + [Source(a)]))
  {
    SourceLineShape(a);
  }

  /** The destination line holds no `srcNode-`. */
  lemma DestinationLineNotSource(a: string)
    requires 's' !in a
    ensures !Contains("dstNode-" + (a + "\n"), "srcNode-")
  {
    var line := "dstNode-" + (a + "\n");
    assert 's' !in a + "\n";
    forall k: nat | k + 8 <= |line|
      ensures !At(line, k, "srcNode-")
    {
      if k == 1 {
        assert line[k..k + 8][1] == line[2] == 't';
      } else if k < 8 {
        assert line[k..k + 8][0] == line[k] == "dstNode-"[k];
      } else {
        assert line[k..k + 8][0] == line[k] == (a + "\n")[k - 8];
      }
    }
  }

  /** The `dstNode-` line is taken for a destination line, and what follows its dash is the address. */
  lemma DestinationLineShape(a: string)
    requires Ipv4.DottedDecimal(a)
    ensures var line := "dstNode-" + a + "\n";
      !Contains(line, ",") && !Contains(line, "srcNode-") && Contains(line, "dstNode-") && AfterDash(line) == Ok(a)
  {
    var line := "dstNode-" + a + "\n";
    assert ',' !in a && '-' !in a && 's' !in a;
    assert line == "dstNode-" + (a + "\n");
    assert ',' !in line;
    NotContainsChar(line, ',');
    DestinationLineNotSource(a);
    AtStart("dstNode-", a + "\n");
    assert DropLast(line) == "dstNode" + "-" + a;
    SplitAfterPiece("dstNode", '-', a);
    SplitWithout(a, '-');
  }

  /** The `dstNode-` line reads back as the destination address and its last piece minus one. */
  lemma DestinationLineReads(st: State, a: string, v: int)
    requires Ipv4.DottedDecimal(a) && PyInt(Last(Split(a, "."))) == Some(v)
    ensures Line(st, "dstNode-" + a + "\n") == Ok(st.(dstAddr := a, dstId := v - 1))
  {
    DestinationLineShape(a);
    DestinationOfAddress("dstNode-" + a + "\n", a, v);
  }

  lemma DestinationOfAddress(line: string, a: string, v: int)
    requires AfterDash(line) == Ok(a) && PyInt(Last(Split(a, "."))) == Some(v)
    ensures DestinationOf(line) == Ok((a, v - 1))
  {
  }

  /** A pair line is taken for one and splits back into its pair. */
  lemma PairLineShape(p: (string, nat))
    requires Ipv4.DottedDecimal(p.0)
    ensures var line := QRoutes.PairLine(p.0, p.1);
      Contains(line, ",") && PairOf(line) == Ok(p)
  {
    var a, n := p.0, NatToString(p.1);
    var line := QRoutes.PairLine(p.0, p.1);
    assert ',' !in a;
    NumeralHasNoComma(p.1);
    assert line == a + [','] + n + "\n";
    assert line[|a|] == ',';
    ContainsChar(line, ',');
    assert DropLast(line) == a + [','] + n;
    SplitAfterPiece(a, ',', n);
    SplitWithout(n, ',');
    PyIntOfNatToString(p.1);
  }

  /** A pair line reads back as its pair. */
  lemma PairLineReads(st: State, p: (string, nat))
    requires Ipv4.DottedDecimal(p.0)
    ensures Line(st, QRoutes.PairLine(p.0, p.1)) == Ok(st.(path := st.path + [Hop(p.0, p.1)], nextHop := Some(p.0)))
  {
    PairLineShape(p);
  }

  /** One more line after a prefix that read as `st`. */
  lemma LinesSnoc(prefix: seq<string>, line: string, st: State, st': State)
    requires Lines(prefix) == Ok(st) && Line(st, line) == Ok(st')
    ensures Lines(prefix + [line]) == Ok(st')
  {
    assert (prefix + [line])[..|prefix|] == prefix;
  }

  /** The source line alone reads as the path holding the source. */
  lemma SourceLineAlone(src: string)
    requires Ipv4.DottedDecimal(src)
    ensures Lines(["srcNode-" + src + "\n"]) == Ok(Init.(path := [Source(src)]))
  {
    SourceLineReads(Init, src);
    assert Init.path + [Source(src)] == [Source(src)];
    LinesSnoc([], "srcNode-" + src + "\n", Init, Init.(path := [Source(src)]));
  }

  /** The two header lines, written out, read back as the source and the destination. */
  lemma HeaderLinesRead(src: string, dst: string, v: int)
    requires Ipv4.DottedDecimal(src) && Ipv4.DottedDecimal(dst) && PyInt(Last(Split(dst, "."))) == Some(v)
    ensures Lines(["srcNode-" + src + "\n", "dstNode-" + dst + "\n"])
      == Ok(Init.(path := [Source(src)], dstAddr := dst, dstId := v - 1))
  {
    var srcLine, dstLine := "srcNode-" + src + "\n", "dstNode-" + dst + "\n";
    SourceLineAlone(src);
    var first := Init.(path := [Source(src)]);
    DestinationLineReads(first, dst, v);
    LinesSnoc([srcLine], dstLine, first, first.(dstAddr := dst, dstId := v - 1));
    assert [srcLine] + [dstLine] == [srcLine, dstLine];
  }

  lemma EmptyPrintedFile(src: string, dst: string, v: int)
    ensures PrintedFile(src, dst, []) == ["srcNode-" + src + "\n", "dstNode-" + dst + "\n"]
    ensures ReadBack(src, dst, v, []) == Init.(path := [Source(src)], dstAddr := dst, dstId := v - 1)
  {
    assert PairLinesOf([]) == [];
    assert PairsPath([]) == [];
    assert [Source(src)] + [] == [Source(src)];
  }

  /** The two header lines read back as the source and the destination. */
  lemma HeaderLines(src: string, dst: string, v: int)
    requires Ipv4.DottedDecimal(src) && Ipv4.DottedDecimal(dst) && PyInt(Last(Split(dst, "."))) == Some(v)
    ensures Lines(PrintedFile(src, dst, [])) == Ok(ReadBack(src, dst, v, []))
  {
    HeaderLinesRead(src, dst, v);
    EmptyPrintedFile(src, dst, v);
  }

  /** Reading a trace file line by line yields the source, the pairs, the destination and its id. */
  lemma {:induction false} PrintedFileLines(src: string, dst: string, v: int, pairs: seq<(string, nat)>)
    requires Printable(src, dst, pairs) && PyInt(Last(Split(dst, "."))) == Some(v)
    ensures Lines(PrintedFile(src, dst, pairs)) == Ok(ReadBack(src, dst, v, pairs))
    decreases |pairs|
  {
    if pairs == [] {
      HeaderLines(src, dst, v);
    } else {
      var n := |pairs| - 1;
      PrintedFileLines(src, dst, v, pairs[..n]);
      var st := ReadBack(src, dst, v, pairs[..n]);
      PairLineReads(st, pairs[n]);
      ReadBackGrows(src, dst, v, pairs);
      PrintedFileGrows(src, dst, pairs);
      LinesSnoc(PrintedFile(src, dst, pairs[..n]), QRoutes.PairLine(pairs[n].0, pairs[n].1),
                st, ReadBack(src, dst, v, pairs));
    }
  }

  lemma ReadBackGrows(src: string, dst: string, v: int, pairs: seq<(string, nat)>)
    requires |pairs| > 0
    ensures var n := |pairs| - 1; var st := ReadBack(src, dst, v, pairs[..n]);
      ReadBack(src, dst, v, pairs) == st.(path := st.path + [Hop(pairs[n].0, pairs[n].1)], nextHop := Some(pairs[n].0))
  {
    PairsPathGrows(pairs);
  }

  lemma PrintedFileGrows(src: string, dst: string, pairs: seq<(string, nat)>)
    requires |pairs| > 0
    ensures var n := |pairs| - 1;
      PrintedFile(src, dst, pairs) == PrintedFile(src, dst, pairs[..n]) + [QRoutes.PairLine(pairs[n].0, pairs[n].1)]
  {
    var n := |pairs| - 1;
    assert PairLinesOf(pairs) == PairLinesOf(pairs[..n]) + [QRoutes.PairLine(pairs[n].0, pairs[n].1)];
  }

  lemma PairsPathGrows(pairs: seq<(string, nat)>)
    requires |pairs| > 0
    ensures var n := |pairs| - 1;
      PairsPath(pairs) == PairsPath(pairs[..n]) + [Hop(pairs[n].0, pairs[n].1)]
  {
  }

  /**
   * Reading back a trace file with at least one pair: the source, one
   * element per pair, and the closing pair (last next hop, destination id);
   * the path counts as found exactly when the last next hop is the
   * destination address.
   */
  lemma PrintedFileReads(src: string, dst: string, v: int, pairs: seq<(string, nat)>)
    requires Printable(src, dst, pairs) && PyInt(Last(Split(dst, "."))) == Some(v)
    requires |pairs| >= 1 && v != 0
    ensures var last := pairs[|pairs| - 1].0;
      Routes(PrintedFile(src, dst, pairs))
        == Ok(([Source(src)] + PairsPath(pairs) + [Hop(last, v - 1)], last == dst))
  {
    PrintedFileLines(src, dst, v, pairs);
  }

  /** With no pair line the next hop is never bound, and the script fails with a NameError. */
  lemma NoPairsNoNextHop(src: string, dst: string, v: int)
    requires Printable(src, dst, []) && PyInt(Last(Split(dst, "."))) == Some(v) && v != 0
    ensures Routes(PrintedFile(src, dst, [])) == Err(NameError)
  {
    PrintedFileLines(src, dst, v, []);
  }

  // -------------------------------------------------------------------------
  // The file PrintQRouteToFile writes

  /** The pairs PrintQRouteToFile prints: (address of route[i+1], route[i]). */
  function RoutePairs(ifaces: seq<Ipv4.Address>, route: seq<nat>): (pairs: seq<(string, nat)>)
    requires QRoutes.InRange(ifaces, route)
    ensures |pairs| == QRoutes.PairCount(|route|)
  {
    if |route| == 0 then []
    else seq(|route| - 1, i requires 0 <= i < |route| - 1 => (Ipv4.ToString(ifaces[route[i + 1]]), route[i]))
  }

  /** The lines for the pairs. */
  function PairLinesOf(pairs: seq<(string, nat)>): (lines: seq<string>)
    ensures |lines| == |pairs|
  {
    seq(|pairs|, i requires 0 <= i < |pairs| => QRoutes.PairLine(pairs[i].0, pairs[i].1))
  }

  /** PrintQRouteToFile's lines are a trace file of the source, the last node and the route's pairs. */
  lemma TraceFileIsPrinted(ifaces: seq<Ipv4.Address>, source: Ipv4.Address, route: seq<nat>)
    requires |ifaces| >= 1 && QRoutes.InRange(ifaces, route)
    ensures QRoutes.TraceFile(ifaces, source, route)
      == PrintedFile(Ipv4.ToString(source), Ipv4.ToString(ifaces[|ifaces| - 1]), RoutePairs(ifaces, route))
  {
    var pairs := RoutePairs(ifaces, route);
    if |route| > 0 {
      var lines := QRoutes.PairLines(ifaces, route, |route| - 1);
      forall i | 0 <= i < |lines|
        ensures lines[i] == PairLinesOf(pairs)[i]
      {
        assert lines[i] == QRoutes.HopLine(ifaces, route, i);
      }
      assert lines == PairLinesOf(pairs);
    }
  }

  /** The printed addresses are in dotted decimal. */
  lemma TraceFilePrintable(ifaces: seq<Ipv4.Address>, source: Ipv4.Address, route: seq<nat>)
    requires |ifaces| >= 1 && QRoutes.InRange(ifaces, route)
    ensures Printable(Ipv4.ToString(source), Ipv4.ToString(ifaces[|ifaces| - 1]), RoutePairs(ifaces, route))
  {
    var pairs := RoutePairs(ifaces, route);
    Ipv4.ToStringDottedDecimal(source);
    Ipv4.ToStringDottedDecimal(ifaces[|ifaces| - 1]);
    forall i | 0 <= i < |pairs|
      ensures Ipv4.DottedDecimal(pairs[i].0)
    {
      Ipv4.ToStringDottedDecimal(ifaces[route[i + 1]]);
    }
  }

  /** Distinct interfaces print as distinct addresses. */
  lemma FoundIff(ifaces: seq<Ipv4.Address>, i: nat, j: nat, x: string, y: string)
    requires QRoutes.Distinct(ifaces) && i < |ifaces| && j < |ifaces|
    requires x == Ipv4.ToString(ifaces[i]) && y == Ipv4.ToString(ifaces[j])
    ensures (x == y) == (i == j)
  {
    if x == y {
      Ipv4.ToStringInjective(ifaces[i], ifaces[j]);
    }
  }

  /**
   * Reading back a printed route of two or more nodes: the path found is
   * reported exactly when the route ends at the last node. (A last node
   * whose last octet is 0 gives id -1, which the script takes for "no
   * destination".)
   */
  lemma TraceFileReadsBack(ifaces: seq<Ipv4.Address>, source: Ipv4.Address, route: seq<nat>)
    requires |ifaces| >= 1 && QRoutes.Distinct(ifaces)
    requires |route| >= 2 && QRoutes.InRange(ifaces, route)
    requires ifaces[|ifaces| - 1].d != 0
    ensures var d := ifaces[|ifaces| - 1];
      Routes(QRoutes.TraceFile(ifaces, source, route))
        == Ok(([Source(Ipv4.ToString(source))] + PairsPath(RoutePairs(ifaces, route))
                 + [Hop(Ipv4.ToString(ifaces[route[|route| - 1]]), d.d as int - 1)],
               route[|route| - 1] == |ifaces| - 1))
  {
    var n := |route| - 1;
    var d := ifaces[|ifaces| - 1];
    var pairs := RoutePairs(ifaces, route);
    assert route[n] < |ifaces|;
    FoundIff(ifaces, route[n], |ifaces| - 1, Ipv4.ToString(ifaces[route[n]]), Ipv4.ToString(d));
    assert pairs[|pairs| - 1].0 == Ipv4.ToString(ifaces[route[n]]);
    Ipv4.LastOctetOfToString(d);
    TraceFileIsPrinted(ifaces, source, route);
    TraceFilePrintable(ifaces, source, route);
    PrintedFileReads(Ipv4.ToString(source), Ipv4.ToString(d), d.d as int, pairs);
  }

  /** A route of fewer than two nodes prints no pair line, and reading it back fails with a NameError. */
  lemma ShortRouteHasNoNextHop(ifaces: seq<Ipv4.Address>, source: Ipv4.Address, route: seq<nat>)
    requires |ifaces| >= 1 && |route| <= 1 && QRoutes.InRange(ifaces, route)
    requires ifaces[|ifaces| - 1].d != 0
    ensures Routes(QRoutes.TraceFile(ifaces, source, route)) == Err(NameError)
  {
    var d := ifaces[|ifaces| - 1];
    Ipv4.LastOctetOfToString(d);
    TraceFileIsPrinted(ifaces, source, route);
    TraceFilePrintable(ifaces, source, route);
    NoPairsNoNextHop(Ipv4.ToString(source), Ipv4.ToString(d), d.d as int);
  }
}
