/**
 * plot_hyperparam_graphs.py: one number per ALGORITHM_OUTPUT file, chosen
 * by a selector, paired with the hyperparameter value that file was run
 * with.
 */
module Hyperparam {
  import opened Wrappers
  import opened Text
  import opened Traces
  import opened Counters

  /** A Python number: the result starts as the int 0 and a delay makes it a float. */
  datatype Number = Int(i: int) | Float(x: real)

  /** `ret += k`. */
  function Plus(n: Number, k: int): Number
  {
    match n
    case Int(i) => Int(i + k)
    case Float(x) => Float(x + k as real)
  }

  const LrnSent := "TOTAL_LRN_SENT"
  const LrnRecv := "TOTAL_LRN_RECV"
  const LrnRecvAtDst := "TOTAL_LRN_RECV_AT_DST"
  const QlrnRecv := "TOTAL_QLRN_RECV"
  const DataSent := "DATA_SENT"
  const DataRecv := "DATA_RECV"
  const Delay := "DELAY"

  const Selectors: set<string> := {LrnSent, LrnRecv, LrnRecvAtDst, QlrnRecv, DataSent, DataRecv, Delay}

  /** A line the selector counts, and the tag whose values it adds; "" for none. */
  function SummedTag(desired: string, line: string): string
  {
    if desired == LrnSent then
      (if Contains(line, LrnTag) && !Contains(line, "QLRN") then LrnTag else "")
    else if desired == LrnRecv then
      (if Contains(line, LrnRecTag) && !Contains(line, "QLRN") then LrnRecTag else "")
    else if desired == QlrnRecv then
      (if Contains(line, QlrnTag) then QlrnTag else "")
    else if desired == DataSent then
      (if Contains(line, DataTag) then DataTag else "")
    else if desired == DataRecv then
      (if Contains(line, DataRecTag) then DataRecTag else "")
    else ""
  }

  predicate Sums(desired: string)
  {
    desired in {LrnSent, LrnRecv, QlrnRecv, DataSent, DataRecv}
  }

  /** Adds the values listed after `tag`, when there is one. */
  function SumWith(tag: string, ret: Number, line: string): Result<Number, PyError>
  {
    if tag == "" then Ok(ret)
    else
      match Tagged(line, tag)
      case Err(x) => Err(x)
      case Ok(vs) => Ok(Plus(ret, Sum(vs)))
  }

  /** One line of the loop, with TOTAL_QLRN_RECV counting the QLRN TRAFFIC values. */
  function ValueLine(desired: string, ret: Number, line: string): Result<Number, PyError>
  {
    if Sums(desired) then SumWith(SummedTag(desired, line), ret, line)
    else if desired == LrnRecvAtDst then
      if Contains(line, LrnRecTag) && !Contains(line, "QLRN") then
        match Tagged(line, LrnRecTag)
        case Err(x) => Err(x)
        case Ok(vs) => Ok(if vs == [] then ret else Int(Last(vs)))
      else Ok(ret)
    else if desired == Delay then
      if Contains(line, DelayTag) then
        match DelayValue(line)
        case Err(x) => Err(x)
        case Ok(ms) => Ok(Float(ms))
      else Ok(ret)
    else Err(Exit(0))
  }

  /** The loop as written: TOTAL_QLRN_RECV runs the TOTAL_LRN_SENT rule. */
  function ValueLineAsWritten(desired: string, ret: Number, line: string): (r: Result<Number, PyError>)
    ensures desired != QlrnRecv ==> r == ValueLine(desired, ret, line)
    ensures desired == QlrnRecv && Contains(line, "QLRN") ==> r == Ok(ret)
  {
    if desired == QlrnRecv then ValueLine(LrnSent, ret, line) else ValueLine(desired, ret, line)
  }

  /** The value after each line in turn, from the int 0, stopping at the first error. */
  function Fold(lines: seq<string>, step: (Number, string) -> Result<Number, PyError>): Result<Number, PyError>
    decreases |lines|
  {
    if lines == [] then Ok(Int(0))
    else
      match Fold(lines[..|lines| - 1], step)
      case Err(x) => Err(x)
      case Ok(ret) => step(ret, lines[|lines| - 1])
  }

  function StepOf(desired: string): (Number, string) -> Result<Number, PyError>
  {
    (ret, line) => ValueLine(desired, ret, line)
  }

  function StepAsWritten(desired: string): (Number, string) -> Result<Number, PyError>
  {
    (ret, line) => ValueLineAsWritten(desired, ret, line)
  }

  function GetValue(lines: seq<string>, desired: string): Result<Number, PyError>
  {
    Fold(lines, StepOf(desired))
  }

  /** As written, TOTAL_QLRN_RECV reads every file as TOTAL_LRN_SENT does; the other selectors are as meant. */
  function GetValueAsWritten(lines: seq<string>, desired: string): (r: Result<Number, PyError>)
    ensures r == GetValue(lines, if desired == QlrnRecv then LrnSent else desired)
  {
    FoldSame(lines, StepAsWritten(desired), StepOf(if desired == QlrnRecv then LrnSent else desired));
    Fold(lines, StepAsWritten(desired))
  }

  /** The loop body for one line. */
  method ValueStep(desired: string, ret: Number, line: string) returns (r: Result<Number, PyError>)
    ensures r == ValueLine(desired, ret, line)
  {
    if Sums(desired) {
      var tag := SummedTag(desired, line);
      if tag == "" {
        return Ok(ret);
      }
      var vs := Tagged(line, tag);
      if vs.Err? {
        return Err(vs.error);
      }
      return Ok(Plus(ret, Sum(vs.value)));
    } else if desired == LrnRecvAtDst {
      if Contains(line, LrnRecTag) && !Contains(line, "QLRN") {
        var vs := Tagged(line, LrnRecTag);
        if vs.Err? {
          return Err(vs.error);
        }
        r := Ok(ret);
        var i := 0;
        while i < |vs.value|
          invariant 0 <= i <= |vs.value|
          invariant r == Ok(if i == 0 then ret else Int(vs.value[i - 1]))
        {
          r := Ok(Int(vs.value[i]));
          i := i + 1;
        }
        return r;
      }
      return Ok(ret);
    } else if desired == Delay {
      if Contains(line, DelayTag) {
        var ms := DelayValue(line);
        if ms.Err? {
          return Err(ms.error);
        }
        return Ok(Float(ms.value));
      }
      return Ok(ret);
    }
    return Err(Exit(0));
  }

  /** get_value_from_ALGORITHM_OUTPUT over a file's lines (each with its newline). */
  method GetValueFromAlgorithmOutput(lines: seq<string>, desired: string) returns (r: Result<Number, PyError>)
    ensures r == GetValue(lines, desired)
  {
    var ret := Int(0);
    var i := 0;
    while i < |lines|
      invariant 0 <= i <= |lines|
      invariant GetValue(lines[..i], desired) == Ok(ret)
    {
      assert lines[..i + 1][..i] == lines[..i];
      var next := ValueStep(desired, ret, lines[i]);
      if next.Err? {
        GetValueErrorSticks(lines, desired, i + 1);
        return next;
      }
      ret := next.value;
      i := i + 1;
    }
    assert lines[..i] == lines;
    return Ok(ret);
  }

  lemma {:induction false} GetValueErrorSticks(lines: seq<string>, desired: string, n: nat)
    requires n <= |lines| && GetValue(lines[..n], desired).Err?
    ensures GetValue(lines, desired) == GetValue(lines[..n], desired)
  {
    FoldErrorSticks(lines, StepOf(desired), n);
  }

  lemma {:induction false} FoldErrorSticks(lines: seq<string>, step: (Number, string) -> Result<Number, PyError>, n: nat)
    requires n <= |lines| && Fold(lines[..n], step).Err?
    ensures Fold(lines, step) == Fold(lines[..n], step)
    decreases |lines| - n
  {
    if n < |lines| {
      assert lines[..n + 1][..n] == lines[..n];
      FoldErrorSticks(lines, step, n + 1);
    } else {
      assert lines[..n] == lines;
    }
  }

  /**
   * An unknown selector exits with status 0 at the first line; an empty
   * file returns 0 before the selector is ever looked at.
   */
  lemma {:induction false} UnknownSelectorExits(lines: seq<string>, desired: string)
    requires desired !in Selectors
    ensures GetValue(lines, desired) == (if lines == [] then Ok(Int(0)) else Err(Exit(0)))
    decreases |lines|
  {
    if lines != [] {
      UnknownSelectorExits(lines[..|lines| - 1], desired);
    }
  }

  /** What a line adds under a summing selector. */
  function TagSum(tag: string, line: string): int
  {
    if tag == "" then 0
    else
      match Tagged(line, tag)
      case Ok(vs) => Sum(vs)
      case Err(_) => 0
  }

  function AddsOf(desired: string): string -> int
  {
    line => TagSum(SummedTag(desired, line), line)
  }

  function SumOver(lines: seq<string>, add: string -> int): int
    decreases |lines|
  {
    if lines == [] then 0 else SumOver(lines[..|lines| - 1], add) + add(lines[|lines| - 1])
  }

  function TotalOf(lines: seq<string>, desired: string): int
  {
    SumOver(lines, AddsOf(desired))
  }

  lemma SumWithAdds(tag: string, ret: Number, line: string)
    requires SumWith(tag, ret, line).Ok?
    ensures SumWith(tag, ret, line) == Ok(Plus(ret, TagSum(tag, line)))
  {
  }

  lemma ValueLineSums(desired: string, ret: Number, line: string)
    requires Sums(desired) && ValueLine(desired, ret, line).Ok?
    ensures ValueLine(desired, ret, line) == Ok(Plus(ret, TagSum(SummedTag(desired, line), line)))
  {
    SumWithAdds(SummedTag(desired, line), ret, line);
  }

  /** A fold whose every step adds `add(line)` to an int ends at the sum of those. */
  lemma {:induction false} FoldAdds(lines: seq<string>, step: (Number, string) -> Result<Number, PyError>, add: string -> int)
    requires forall ret: Number, line: string :: step(ret, line).Ok? ==> step(ret, line) == Ok(Plus(ret, add(line)))
    requires Fold(lines, step).Ok?
    ensures Fold(lines, step) == Ok(Int(SumOver(lines, add)))
    decreases |lines|
  {
    if lines != [] {
      FoldAdds(lines[..|lines| - 1], step, add);
    }
  }

  /**
   * A summing selector adds up every value listed on every line it selects:
   * TOTAL_LRN_SENT the LRN TRAFFIC lines and TOTAL_LRN_RECV the LRN REC
   * TRAFFIC lines that do not mention QLRN, DATA_SENT and DATA_RECV all
   * their lines.
   */
  lemma SumsEveryLine(lines: seq<string>, desired: string)
    requires Sums(desired) && GetValue(lines, desired).Ok?
    ensures GetValue(lines, desired) == Ok(Int(TotalOf(lines, desired)))
  {
    forall ret: Number, line: string | StepOf(desired)(ret, line).Ok?
      ensures StepOf(desired)(ret, line) == Ok(Plus(ret, AddsOf(desired)(line)))
    {
      ValueLineSums(desired, ret, line);
    }
    FoldAdds(lines, StepOf(desired), AddsOf(desired));
  }

  /** A line that mentions QLRN is never counted as learning traffic. */
  lemma QlrnLinesSkipped(desired: string, ret: Number, line: string)
    requires desired in {LrnSent, LrnRecv, LrnRecvAtDst} && Contains(line, "QLRN")
    ensures ValueLine(desired, ret, line) == Ok(ret)
  {
  }

  /** TOTAL_LRN_RECV_AT_DST keeps the last value listed, or the old one when none is. */
  lemma RecvAtDstKeepsLast(ret: Number, line: string)
    requires Contains(line, LrnRecTag) && !Contains(line, "QLRN") && Tagged(line, LrnRecTag).Ok?
    ensures var vs := Tagged(line, LrnRecTag).value;
      ValueLine(LrnRecvAtDst, ret, line) == Ok(if vs == [] then ret else Int(vs[|vs| - 1]))
  {
  }

  predicate HasDelay(line: string)
  {
    Contains(line, DelayTag)
  }

  /** DELAY is the value on the last delay line, or the int 0 when there is none. */
  lemma {:induction false} DelayLastWins(lines: seq<string>)
    requires GetValue(lines, Delay).Ok?
    ensures GetValue(lines, Delay).value
      == if LastWhere(lines, HasDelay).None? then Int(0) else Float(DelayOf(lines, HasDelay))
    decreases |lines|
  {
    if lines != [] {
      var prefix, line := lines[..|lines| - 1], lines[|lines| - 1];
      assert GetValue(prefix, Delay).Ok?;
      DelayLastWins(prefix);
      assert prefix + [line] == lines;
      DelayOfSnoc(prefix, line, HasDelay);
      assert LastWhere(lines, HasDelay).None? <==> LastWhere(prefix, HasDelay).None? && !HasDelay(line);
    }
  }

  /** Folds whose steps agree everywhere agree. */
  lemma {:induction false} FoldSame(lines: seq<string>, step: (Number, string) -> Result<Number, PyError>, other: (Number, string) -> Result<Number, PyError>)
    requires forall ret: Number, line: string :: step(ret, line) == other(ret, line)
    ensures Fold(lines, step) == Fold(lines, other)
    decreases |lines|
  {
    if lines != [] {
      FoldSame(lines[..|lines| - 1], step, other);
    }
  }

  /** A QLRN TRAFFIC line listing the Q packets `ns`, newline included. */
  function QlrnLine(ns: seq<nat>): string
  {
    Head(QlrnTag) + CounterList(ns, "\n")
  }

  lemma QlrnLineMentionsQlrn(ns: seq<nat>)
    ensures Contains(QlrnLine(ns), "QLRN") && Contains(QlrnLine(ns), QlrnTag)
  {
    var line := QlrnLine(ns);
    assert At(line, 0, "QLRN") by {
      assert line[..4] == "QLRN";
    }
    assert At(line, 0, QlrnTag) by {
      assert line[..|QlrnTag|] == QlrnTag;
    }
  }

  lemma QlrnLineValues(ns: seq<nat>)
    ensures Tagged(QlrnLine(ns), QlrnTag) == Ok(ns)
  {
    CounterListExcludes(ns, "\n", 'Q');
    AfterHead(QlrnTag, CounterList(ns, "\n"));
    ValuesOfCounterList(ns, "\n");
  }

  lemma FoldOne(line: string, step: (Number, string) -> Result<Number, PyError>)
    ensures Fold([line], step) == step(Int(0), line)
  {
    assert [line][..0] == [];
  }

  /** A file listing Q packets: as written TOTAL_QLRN_RECV reports none of them. */
  lemma QlrnRecvMissesQPackets(ns: seq<nat>)
    ensures GetValueAsWritten([QlrnLine(ns)], QlrnRecv) == Ok(Int(0))
  {
    QlrnLineMentionsQlrn(ns);
    FoldOne(QlrnLine(ns), StepAsWritten(QlrnRecv));
    QlrnLinesSkipped(LrnSent, Int(0), QlrnLine(ns));
  }

  /** The same file: the selector as meant counts every Q packet it lists. */
  lemma QlrnRecvCountsQPackets(ns: seq<nat>)
    ensures GetValue([QlrnLine(ns)], QlrnRecv) == Ok(Plus(Int(0), Sum(ns)))
  {
    QlrnLineMentionsQlrn(ns);
    QlrnLineValues(ns);
    FoldOne(QlrnLine(ns), StepOf(QlrnRecv));
  }

  /** labels_dict: the axis label for each selector. */
  function Label(desired: string): (r: Option<string>)
    ensures r.Some? <==> Sums(desired) || desired == LrnRecvAtDst || desired == Delay
    ensures r.None? <==> ValueLine(desired, Int(0), "") == Err(Exit(0))
    ensures r.Some? ==> |r.value| > 0
  {
    if desired == LrnSent then Some("Number of learning packets transmitted by source")
    else if desired == LrnRecv then Some("Number of learning packets received in the network")
    else if desired == LrnRecvAtDst then Some("Number of learning packets reaching the destination")
    else if desired == QlrnRecv then Some("Number of Q-Info packets exchanged")
    else if desired == DataSent then Some("Total number of data packets transmitted")
    else if desired == DataRecv then Some("Total number of data packets received")
    else if desired == Delay then Some("Delay(ms)")
    else None
  }

  /** param_values_dict: the values each hyperparameter was run with. */
  function ParamValues(param: string): (r: Option<seq<Number>>)
    ensures r.Some? ==> |r.value| == 4
  {
    if param == "epsilon" then Some([Int(0), Float(0.4), Float(0.7), Float(1.0)])
    else if param == "gamma" then Some([Int(0), Float(0.3), Float(0.6), Float(0.9)])
    else if param == "rho" then Some([Float(0.25), Float(0.5), Float(0.75), Int(1)])
    else if param == "ConvThreshold" then Some([Float(0.001), Float(0.01), Float(0.05), Float(0.1)])
    else if param == "LearnMore" then Some([Float(0.001), Float(0.01), Float(0.1), Float(0.5)])
    else if param == "learning_rate" then Some([Float(0.25), Float(0.5), Float(0.75), Float(1.0)])
    else if param == "MaxRetries" then Some([Int(1), Int(4), Int(8), Int(12)])
    else None
  }

  /** The loop of create_graph_algout over the files read so far. */
  function Points(files: seq<seq<string>>, param: string, desired: string): Result<(seq<Number>, seq<Number>), PyError>
    decreases |files|
  {
    if files == [] then Ok(([], []))
    else
      var i := |files| - 1;
      match Points(files[..i], param, desired)
      case Err(x) => Err(x)
      case Ok(xy) =>
        match GetValue(files[i], desired)
        case Err(x) => Err(x)
        case Ok(y) =>
          match ParamValues(param)
          case None => Err(KeyError)
          case Some(vals) => if i < |vals| then Ok((xy.0 + [vals[i]], xy.1 + [y])) else Err(IndexError)
  }

  /** create_graph_algout: the label is looked up first, then each file in turn. */
  function Graph(files: seq<seq<string>>, param: string, desired: string)
    : Result<(seq<Number>, seq<Number>, string), PyError>
  {
    match Label(desired)
    case None => Err(KeyError)
    case Some(axis) =>
      match Points(files, param, desired)
      case Err(x) => Err(x)
      case Ok(xy) => Ok((xy.0, xy.1, axis))
  }

  method CreateGraphAlgout(files: seq<seq<string>>, param: string, desired: string)
    returns (r: Result<(seq<Number>, seq<Number>, string), PyError>)
    ensures r == Graph(files, param, desired)
  {
    var axis := Label(desired);
    if axis.None? {
      return Err(KeyError);
    }
    var xs: seq<Number> := [];
    var ys: seq<Number> := [];
    var i := 0;
    while i < |files|
      invariant 0 <= i <= |files|
      invariant Points(files[..i], param, desired) == Ok((xs, ys))
    {
      assert files[..i + 1][..i] == files[..i];
      var y := GetValueFromAlgorithmOutput(files[i], desired);
      if y.Err? {
        PointsErrorSticks(files, param, desired, i + 1);
        return Err(y.error);
      }
      ys := ys + [y.value];
      var vals := ParamValues(param);
      if vals.None? {
        PointsErrorSticks(files, param, desired, i + 1);
        return Err(KeyError);
      }
      if i >= |vals.value| {
        PointsErrorSticks(files, param, desired, i + 1);
        return Err(IndexError);
      }
      xs := xs + [vals.value[i]];
      i := i + 1;
    }
    assert files[..i] == files;
    return Ok((xs, ys, axis.value));
  }

  lemma {:induction false} PointsErrorSticks(files: seq<seq<string>>, param: string, desired: string, n: nat)
    requires n <= |files| && Points(files[..n], param, desired).Err?
    ensures Points(files, param, desired) == Points(files[..n], param, desired)
    decreases |files| - n
  {
    if n < |files| {
      assert files[..n + 1][..n] == files[..n];
      PointsErrorSticks(files, param, desired, n + 1);
    } else {
      assert files[..n] == files;
    }
  }

  /** The i-th file's value is paired with the i-th value of the hyperparameter. */
  lemma {:induction false} PointsPairUp(files: seq<seq<string>>, param: string, desired: string)
    requires Points(files, param, desired).Ok? && files != []
    ensures ParamValues(param).Some? && |files| <= 4
    ensures var xy := Points(files, param, desired).value;
      |xy.0| == |files| && |xy.1| == |files|
      && forall i :: 0 <= i < |files| ==>
           xy.0[i] == ParamValues(param).value[i] && GetValue(files[i], desired) == Ok(xy.1[i])
    decreases |files|
  {
    var i := |files| - 1;
    var prefix := files[..i];
    assert Points(prefix, param, desired).Ok?;
    if prefix != [] {
      PointsPairUp(prefix, param, desired);
    }
    var xy := Points(prefix, param, desired).value;
    var y := GetValue(files[i], desired).value;
    var vals := ParamValues(param).value;
    assert Points(files, param, desired).value == (xy.0 + [vals[i]], xy.1 + [y]);
    assert forall j :: 0 <= j < i ==> prefix[j] == files[j];
  }

  /** A fifth file has no hyperparameter value to pair with. */
  lemma FifthFileFails(files: seq<seq<string>>, param: string, desired: string)
    requires |files| > 4
    ensures Points(files, param, desired).Err?
  {
    if Points(files, param, desired).Ok? {
      PointsPairUp(files, param, desired);
    }
  }
}
