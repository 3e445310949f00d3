/**
 * parse_aodv_routes in 2DPlot.py: reads an AODV routing-table dump, finds
 * the ICMP source and destination addresses, builds the next-hop table
 * towards the destination and follows it from the source.
 */
module AodvRoutes {
  import opened Wrappers
  import opened Text
  import opened Traces

  /** The address both endpoints start from. */
  const Unset := "0.0.0.0"
  const Loopback := "127.0.0.1"
  /** The key that ends the walk when an address has no next hop. */
  const NoRoute := "102.102.102.102"

  // -------------------------------------------------------------------------
  // First pass: the ICMP endpoints

  /** The tab-separated fields of a line without its last character. */
  function Fields(line: string): seq<string>
  {
    Split(DropLast(line), "\t")
  }

  /** A row with a third field (the interface column). */
  predicate IsRow(line: string)
  {
    |Fields(line)| >= 3
  }

  function Third(line: string): string
    requires IsRow(line)
  {
    Fields(line)[2]
  }

  /** A row that names the destination: its third field is not the loopback address. */
  predicate DstRow(line: string)
  {
    IsRow(line) && Third(line) != Loopback
  }

  /** A row that names the source: its third field is neither empty nor 0.0.0.0. */
  predicate SrcRow(line: string)
  {
    IsRow(line) && Third(line) != "" && Third(line) != Unset
  }

  datatype Endpoints = Endpoints(dst: string, src: string)

  /** One line of the first pass, given its fields; a line with exactly two fields raises IndexError. */
  function ScanLine(e: Endpoints, f: seq<string>): Result<Endpoints, PyError>
  {
    if |f| < 2 then Ok(e)
    else if |f| == 2 then Err(IndexError)
    else Ok(Endpoints(if f[2] != Loopback then f[2] else e.dst,
                      if e.src == Unset && f[2] != "" then f[2] else e.src))
  }

  function Scan(lines: seq<string>): Result<Endpoints, PyError>
    decreases |lines|
  {
    if lines == [] then Ok(Endpoints(Unset, Unset))
    else
      match Scan(lines[..|lines| - 1])
      case Err(x) => Err(x)
      case Ok(e) => ScanLine(e, Fields(lines[|lines| - 1]))
  }

  /** The last row naming the destination. */
  function LastDstRow(lines: seq<string>): (r: Option<nat>)
    ensures r.Some? ==> (r.value < |lines| && DstRow(lines[r.value])
      && forall j :: r.value < j < |lines| ==> !DstRow(lines[j]))
    ensures r.None? ==> forall j :: 0 <= j < |lines| ==> !DstRow(lines[j])
    decreases |lines|
  {
    if lines == [] then None
    else if DstRow(lines[|lines| - 1]) then Some(|lines| - 1)
    else
      var r := LastDstRow(lines[..|lines| - 1]);
      assert forall j :: 0 <= j < |lines| - 1 ==> lines[..|lines| - 1][j] == lines[j];
      r
  }

  /** The first row naming the source. */
  function FirstSrcRow(lines: seq<string>): (r: Option<nat>)
    ensures r.Some? ==> (r.value < |lines| && SrcRow(lines[r.value])
      && forall j :: 0 <= j < r.value ==> !SrcRow(lines[j]))
    ensures r.None? ==> forall j :: 0 <= j < |lines| ==> !SrcRow(lines[j])
    decreases |lines|
  {
    if lines == [] then None
    else
      var r := FirstSrcRow(lines[..|lines| - 1]);
      assert forall j :: 0 <= j < |lines| - 1 ==> lines[..|lines| - 1][j] == lines[j];
      if r.Some? then r
      else if SrcRow(lines[|lines| - 1]) then Some(|lines| - 1)
      else None
  }

  lemma ScanLineFails(e: Endpoints, f: seq<string>)
    ensures ScanLine(e, f).Ok? <==> |f| != 2
    ensures ScanLine(e, f).Err? ==> ScanLine(e, f).error == IndexError
  {
  }

  /** The first pass fails exactly on a line with two fields, and then with IndexError. */
  lemma {:induction false} ScanFails(lines: seq<string>)
    ensures Scan(lines).Ok? <==> forall i :: 0 <= i < |lines| ==> |Fields(lines[i])| != 2
    ensures Scan(lines).Err? ==> Scan(lines).error == IndexError
    decreases |lines|
  {
    if lines != [] {
      var prefix := lines[..|lines| - 1];
      ScanFails(prefix);
      assert forall i :: 0 <= i < |prefix| ==> prefix[i] == lines[i];
      if Scan(prefix).Ok? {
        ScanLineFails(Scan(prefix).value, Fields(lines[|lines| - 1]));
      }
    }
  }

  /** The destination the first pass should find: the last row naming one, or 0.0.0.0. */
  function DstOf(lines: seq<string>): string
  {
    var r := LastDstRow(lines);
    if r.None? then Unset else Third(lines[r.value])
  }

  /** The source the first pass should find: the first row naming one, or 0.0.0.0. */
  function SrcOf(lines: seq<string>): string
  {
    var r := FirstSrcRow(lines);
    if r.None? then Unset else Third(lines[r.value])
  }

  lemma DstOfSnoc(prefix: seq<string>, line: string)
    ensures DstOf(prefix + [line]) == (if DstRow(line) then Third(line) else DstOf(prefix))
  {
    var lines := prefix + [line];
    assert lines[..|lines| - 1] == prefix;
    var r := LastDstRow(prefix);
    if !DstRow(line) && r.Some? {
      assert lines[r.value] == prefix[r.value];
    }
  }

  lemma SrcOfSnoc(prefix: seq<string>, line: string)
    ensures SrcOf(prefix + [line])
      == if FirstSrcRow(prefix).None? && SrcRow(line) then Third(line) else SrcOf(prefix)
  {
    var lines := prefix + [line];
    assert lines[..|lines| - 1] == prefix;
    var r := FirstSrcRow(prefix);
    if r.Some? {
      assert lines[r.value] == prefix[r.value];
    }
  }

  /** The endpoints after one line, by which rows name them. */
  lemma ScanLineEndpoints(e: Endpoints, line: string)
    requires ScanLine(e, Fields(line)).Ok?
    ensures ScanLine(e, Fields(line)).value.dst == (if DstRow(line) then Third(line) else e.dst)
    ensures ScanLine(e, Fields(line)).value.src
      == if e.src == Unset && IsRow(line) && Third(line) != "" then Third(line) else e.src
  {
  }

  /** The destination is the third field of the last row that names one, or 0.0.0.0 when none does. */
  lemma {:induction false} ScanFindsDst(lines: seq<string>)
    requires Scan(lines).Ok?
    ensures Scan(lines).value.dst == DstOf(lines)
    decreases |lines|
  {
    if lines != [] {
      var prefix, line := lines[..|lines| - 1], lines[|lines| - 1];
      assert Scan(prefix).Ok?;
      ScanFindsDst(prefix);
      ScanLineEndpoints(Scan(prefix).value, line);
      assert prefix + [line] == lines;
      DstOfSnoc(prefix, line);
    }
  }

  /** The source is the third field of the first row that names one, or 0.0.0.0 when none does. */
  lemma {:induction false} ScanFindsSrc(lines: seq<string>)
    requires Scan(lines).Ok?
    ensures Scan(lines).value.src == SrcOf(lines)
    decreases |lines|
  {
    if lines != [] {
      var prefix, line := lines[..|lines| - 1], lines[|lines| - 1];
      assert Scan(prefix).Ok?;
      ScanFindsSrc(prefix);
      ScanLineEndpoints(Scan(prefix).value, line);
      assert prefix + [line] == lines;
      SrcOfSnoc(prefix, line);
    }
  }

  /** `int(dst.split('.')[-1]) - 1`. */
  function DstId(dst: string): Result<int, PyError>
  {
    match PyInt(Last(Split(dst, ".")))
    case None => Err(ValueError)
    case Some(v) => Ok(v - 1)
  }

  /** The first pass over the lines. */
  method FindEndpoints(lines: seq<string>) returns (r: Result<Endpoints, PyError>)
    ensures r == Scan(lines)
  {
    var dst, src := Unset, Unset;
    var i := 0;
    while i < |lines|
      invariant 0 <= i <= |lines|
      invariant Scan(lines[..i]) == Ok(Endpoints(dst, src))
    {
      assert lines[..i + 1][..i] == lines[..i];
      var fields := Split(DropLast(lines[i]), "\t");
      if |fields| >= 2 {
        if |fields| < 3 {
          ScanErrorSticks(lines, i + 1);
          return Err(IndexError);
        }
        dst := if fields[2] != Loopback then fields[2] else dst;
        if src == Unset && fields[2] != "" {
          src := fields[2];
        }
      }
      i := i + 1;
    }
    assert lines[..i] == lines;
    return Ok(Endpoints(dst, src));
  }

  lemma {:induction false} ScanErrorSticks(lines: seq<string>, n: nat)
    requires n <= |lines| && Scan(lines[..n]).Err?
    ensures Scan(lines) == Scan(lines[..n])
    decreases |lines| - n
  {
    if n < |lines| {
      assert lines[..n + 1][..n] == lines[..n];
      ScanErrorSticks(lines, n + 1);
    } else {
      assert lines[..n] == lines;
    }
  }

  // -------------------------------------------------------------------------
  // Second pass: the next-hop table towards the destination

  /** `curr_node` and `next_hop_dict`: interface address to (gateway, node id). */
  datatype Table = Table(curr: Option<int>, next: map<string, (string, int)>)

  /** `curr_node` after a line: the id on a `Node: <id>;...` line, otherwise unchanged. */
  function NodeLine(curr: Option<int>, line: string): Result<Option<int>, PyError>
  {
    var parts := Split(line, ": ");
    if parts[0] != "Node" then Ok(curr)
    else if |parts| < 2 then Err(IndexError)
    else
      match PyInt(Split(parts[1], ";")[0])
      case None => Err(ValueError)
      case Some(n) => Ok(Some(n))
  }

  /** A route entry whose destination column is the ICMP destination. */
  predicate IsEntry(dst: string, line: string)
  {
    var f := Split(line, "\t");
    |f| > 1 && f[0] == dst
  }

  /** An entry with a third field `key`. */
  predicate EntryFor(dst: string, line: string, key: string)
  {
    IsEntry(dst, line) && |Split(line, "\t")| >= 3 && Split(line, "\t")[2] == key
  }

  function TableLine(dst: string, t: Table, line: string): Result<Table, PyError>
  {
    match NodeLine(t.curr, line)
    case Err(x) => Err(x)
    case Ok(curr) =>
      var f := Split(line, "\t");
      if !IsEntry(dst, line) then Ok(Table(curr, t.next))
      else if curr.None? then Err(NameError)
      else if |f| < 3 then Err(IndexError)
      else Ok(Table(curr, t.next[f[2] := (f[1], curr.value)]))
  }

  function Tables(dst: string, lines: seq<string>): Result<Table, PyError>
    decreases |lines|
  {
    if lines == [] then Ok(Table(None, map[]))
    else
      match Tables(dst, lines[..|lines| - 1])
      case Err(x) => Err(x)
      case Ok(t) => TableLine(dst, t, lines[|lines| - 1])
  }

  /** The last entry for `key`. */
  function LastEntry(dst: string, lines: seq<string>, key: string): (r: Option<nat>)
    ensures r.Some? ==> (r.value < |lines| && EntryFor(dst, lines[r.value], key)
      && forall j :: r.value < j < |lines| ==> !EntryFor(dst, lines[j], key))
    ensures r.None? ==> forall j :: 0 <= j < |lines| ==> !EntryFor(dst, lines[j], key)
    decreases |lines|
  {
    if lines == [] then None
    else if EntryFor(dst, lines[|lines| - 1], key) then Some(|lines| - 1)
    else
      var r := LastEntry(dst, lines[..|lines| - 1], key);
      assert forall j :: 0 <= j < |lines| - 1 ==> lines[..|lines| - 1][j] == lines[j];
      r
  }

  function Gateway(line: string): string
    requires |Split(line, "\t")| >= 3
  {
    Split(line, "\t")[1]
  }

  /** Only the table changes on one line: an entry sets its key and leaves the other keys. */
  lemma TableLineSets(dst: string, t: Table, line: string)
    requires TableLine(dst, t, line).Ok?
    ensures var t' := TableLine(dst, t, line).value;
      forall key :: key in t'.next <==> key in t.next || EntryFor(dst, line, key)
    ensures var t' := TableLine(dst, t, line).value;
      forall key :: key in t'.next ==>
        t'.next[key].0 == if EntryFor(dst, line, key) then Gateway(line) else t.next[key].0
  {
  }

  /**
   * Later rows overwrite earlier ones: the table holds exactly the keys of
   * the entries for the destination, each with the gateway of its last entry.
   */
  lemma {:induction false} TableKeepsLastEntry(dst: string, lines: seq<string>)
    requires Tables(dst, lines).Ok?
    ensures forall key :: key in Tables(dst, lines).value.next <==> LastEntry(dst, lines, key).Some?
    ensures forall key :: key in Tables(dst, lines).value.next ==>
      Tables(dst, lines).value.next[key].0 == Gateway(lines[LastEntry(dst, lines, key).value])
    decreases |lines|
  {
    if lines != [] {
      var prefix, line := lines[..|lines| - 1], lines[|lines| - 1];
      assert Tables(dst, prefix).Ok?;
      TableKeepsLastEntry(dst, prefix);
      var t := Tables(dst, prefix).value;
      TableLineSets(dst, t, line);
      forall key
        ensures LastEntry(dst, lines, key) ==
          if EntryFor(dst, line, key) then Some(|lines| - 1) else LastEntry(dst, prefix, key)
      {
      }
      forall key | LastEntry(dst, prefix, key).Some?
        ensures lines[LastEntry(dst, prefix, key).value] == prefix[LastEntry(dst, prefix, key).value]
      {
      }
    }
  }

  /** The second pass over the lines. */
  method BuildNextHops(dst: string, lines: seq<string>) returns (r: Result<Table, PyError>)
    ensures r == Tables(dst, lines)
  {
    var curr: Option<int> := None;
    var next: map<string, (string, int)> := map[];
    var i := 0;
    while i < |lines|
      invariant 0 <= i <= |lines|
      invariant Tables(dst, lines[..i]) == Ok(Table(curr, next))
    {
      assert lines[..i + 1][..i] == lines[..i];
      var line := lines[i];
      var parts := Split(line, ": ");
      if parts[0] == "Node" {
        if |parts| < 2 {
          TablesErrorSticks(dst, lines, i + 1);
          return Err(IndexError);
        }
        var id := PyInt(Split(parts[1], ";")[0]);
        if id.None? {
          TablesErrorSticks(dst, lines, i + 1);
          return Err(ValueError);
        }
        curr := Some(id.value);
      }
      var f := Split(line, "\t");
      if |f| > 1 && f[0] == dst {
        if curr.None? {
          TablesErrorSticks(dst, lines, i + 1);
          return Err(NameError);
        }
        if |f| < 3 {
          TablesErrorSticks(dst, lines, i + 1);
          return Err(IndexError);
        }
        next := next[f[2] := (f[1], curr.value)];
      }
      i := i + 1;
    }
    assert lines[..i] == lines;
    return Ok(Table(curr, next));
  }

  lemma {:induction false} TablesErrorSticks(dst: string, lines: seq<string>, n: nat)
    requires n <= |lines| && Tables(dst, lines[..n]).Err?
    ensures Tables(dst, lines) == Tables(dst, lines[..n])
    decreases |lines| - n
  {
    if n < |lines| {
      assert lines[..n + 1][..n] == lines[..n];
      TablesErrorSticks(dst, lines, n + 1);
    } else {
      assert lines[..n] == lines;
    }
  }

  // -------------------------------------------------------------------------
  // Following the table from the source

  function HopOf(v: (string, int)): PathElem
  {
    Hop(v.0, v.1)
  }

  /** The pairs of the table not yet on the path. */
  function Pending(next: map<string, (string, int)>, path: seq<PathElem>): set<PathElem>
  {
    (set k | k in next :: HopOf(next[k])) - (set e | e in path)
  }

  lemma PendingShrinks(next: map<string, (string, int)>, path: seq<PathElem>, key: string)
    requires key in next && HopOf(next[key]) !in path
    ensures Pending(next, path + [HopOf(next[key])]) < Pending(next, path)
  {
    var h := HopOf(next[key]);
    assert h in Pending(next, path);
    assert h !in Pending(next, path + [h]);
    assert forall e :: e in path ==> e in path + [h];
  }

  /**
   * The walk: from `key`, append the table's pair for it and move to its
   * gateway, until the destination, an address without an entry, or a pair
   * already on the path.
   */
  function Follow(next: map<string, (string, int)>, dst: string, path: seq<PathElem>, key: string): (r: seq<PathElem>)
    ensures |path| <= |r|
    decreases Pending(next, path)
  {
    if key == dst || key == NoRoute || key !in next then path
    else if HopOf(next[key]) in path then path
    else
      PendingShrinks(next, path, key);
      Follow(next, dst, path + [HopOf(next[key])], next[key].0)
  }

  /** The key that was current when the element at `i` was appended. */
  function KeyBefore(r: seq<PathElem>, key: string, start: nat, i: nat): string
    requires start <= i <= |r|
  {
    if i == start then key else AddrOf(r[i - 1])
  }

  /** The walk extends the path with pairs not already on it. */
  lemma {:induction false} FollowExtends(next: map<string, (string, int)>, dst: string, path: seq<PathElem>, key: string)
    ensures var r := Follow(next, dst, path, key);
      |path| <= |r| && r[..|path|] == path
      && forall i :: |path| <= i < |r| ==> r[i] !in r[..i]
    decreases Pending(next, path)
  {
    var r := Follow(next, dst, path, key);
    if key == dst || key == NoRoute || key !in next || HopOf(next[key]) in path {
      assert r == path;
    } else {
      var h := HopOf(next[key]);
      PendingShrinks(next, path, key);
      FollowExtends(next, dst, path + [h], next[key].0);
      assert r[..|path| + 1] == path + [h];
      assert r[..|path|] == (path + [h])[..|path|];
      assert r[..|path|] == r[..|path| + 1][..|path|];
    }
  }

  /** Each appended pair is the table's entry for the key current before it. */
  lemma {:induction false} FollowChains(next: map<string, (string, int)>, dst: string, path: seq<PathElem>, key: string)
    ensures var r := Follow(next, dst, path, key);
      |path| <= |r|
      && forall i :: |path| <= i < |r| ==>
           KeyBefore(r, key, |path|, i) in next && r[i] == HopOf(next[KeyBefore(r, key, |path|, i)])
    decreases Pending(next, path)
  {
    var r := Follow(next, dst, path, key);
    if key == dst || key == NoRoute || key !in next || HopOf(next[key]) in path {
      assert r == path;
    } else {
      var h := HopOf(next[key]);
      PendingShrinks(next, path, key);
      FollowChains(next, dst, path + [h], next[key].0);
      FollowExtends(next, dst, path + [h], next[key].0);
      assert r[|path|] == (path + [h])[|path|] == h;
      forall i | |path| < i < |r|
        ensures KeyBefore(r, key, |path|, i) == KeyBefore(r, next[key].0, |path| + 1, i)
      {
        if i == |path| + 1 {
          assert AddrOf(r[i - 1]) == AddrOf(h) == next[key].0;
        }
      }
    }
  }

  /** The key current when the walk stopped. */
  function LastKey(r: seq<PathElem>, path: seq<PathElem>, key: string): string
    requires |path| <= |r|
  {
    if |r| == |path| then key else AddrOf(r[|r| - 1])
  }

  /**
   * Why the walk stopped: it reached the destination or the no-route key, or
   * the address has no entry, or its pair is already on the path (a cycle).
   */
  lemma {:induction false} FollowStops(next: map<string, (string, int)>, dst: string, path: seq<PathElem>, key: string)
    ensures var r := Follow(next, dst, path, key);
      |path| <= |r|
      && var k := LastKey(r, path, key);
         k == dst || k == NoRoute || k !in next || HopOf(next[k]) in r
    decreases Pending(next, path)
  {
    var r := Follow(next, dst, path, key);
    if key == dst || key == NoRoute || key !in next || HopOf(next[key]) in path {
      assert r == path;
    } else {
      var h := HopOf(next[key]);
      PendingShrinks(next, path, key);
      FollowStops(next, dst, path + [h], next[key].0);
      FollowExtends(next, dst, path + [h], next[key].0);
      if |r| == |path| + 1 {
        assert r[|r| - 1] == (path + [h])[|path|] == h;
      }
    }
  }

  /** The walk loop of parse_aodv_routes. */
  method FollowPath(next: map<string, (string, int)>, dst: string, src: string) returns (path: seq<PathElem>)
    ensures path == Follow(next, dst, [Source(src)], src)
  {
    path := [Source(src)];
    var key := src;
    while key != dst && key != NoRoute
      invariant Follow(next, dst, path, key) == Follow(next, dst, [Source(src)], src)
      decreases Pending(next, path), if key == NoRoute then 0 else 1
    {
      if key in next {
        if HopOf(next[key]) in path {
          break;
        }
        PendingShrinks(next, path, key);
        path := path + [HopOf(next[key])];
        key := next[key].0;
      } else {
        key := NoRoute;
      }
    }
  }

  // -------------------------------------------------------------------------
  // The path's ending

  /** `path_output[-1][0]`: a pair's next hop, but the first character of the source string. */
  function FirstOf(e: PathElem): Result<string, PyError>
  {
    match e
    case Source(s) => if |s| == 0 then Err(IndexError) else Ok([s[0]])
    case Hop(n, _) => Ok(n)
  }

  /** The ending as written: close the path when `path_output[-1][0]` is the destination. */
  function FinishAsWritten(path: seq<PathElem>, dst: string, dstId: int): (r: Result<(seq<PathElem>, bool), PyError>)
    requires |path| >= 1
    ensures r.Err? <==> Last(path) == Source("")
    ensures r.Ok? ==> r.value.0 == path || r.value.0 == path + [Hop(dst, dstId)]
    ensures Last(path).Hop? ==> r == Ok(Finish(path, dst, dstId))
  {
    match FirstOf(Last(path))
    case Err(x) => Err(x)
    case Ok(f) =>
      var p := if f == dst then path + [Hop(dst, dstId)] else path;
      Ok((p, FirstOf(Last(p)) == Ok(dst)))
  }

  /** The ending meant: close the path when its last address is the destination. */
  function Finish(path: seq<PathElem>, dst: string, dstId: int): (seq<PathElem>, bool)
    requires |path| >= 1
  {
    var p := if AddrOf(Last(path)) == dst then path + [Hop(dst, dstId)] else path;
    (p, AddrOf(Last(p)) == dst)
  }

  /** A path that ends at the destination is closed with (destination, id) and reported found; any other is left as it is. */
  lemma FinishFound(path: seq<PathElem>, dst: string, dstId: int)
    requires |path| >= 1
    ensures Finish(path, dst, dstId).1 <==> AddrOf(Last(path)) == dst
    ensures Finish(path, dst, dstId).0
      == if AddrOf(Last(path)) == dst then path + [Hop(dst, dstId)] else path
  {
    if AddrOf(Last(path)) != dst {
      assert Finish(path, dst, dstId).0 == path;
    }
  }

  /**
   * When the source is the destination the path is the source alone, and
   * the code as written compares the source's first character with the
   * destination: a destination of two or more characters is never found.
   */
  lemma SourceAtDestinationMissed(a: string, dstId: int)
    requires |a| >= 2
    ensures FinishAsWritten([Source(a)], a, dstId) == Ok(([Source(a)], false))
  {
    var f := [a[0]];
    assert FirstOf(Source(a)) == Ok(f);
    assert f != a by {
      assert |f| != |a|;
    }
  }

  /** The meant ending closes the same path and reports the destination found. */
  lemma SourceAtDestinationFound(a: string, dstId: int)
    ensures Finish([Source(a)], a, dstId) == ([Source(a), Hop(a, dstId)], true)
  {
    assert [Source(a)] + [Hop(a, dstId)] == [Source(a), Hop(a, dstId)];
  }

  /** When the source is the destination the walk stops at once, whatever the table. */
  lemma WalkFromDestination(next: map<string, (string, int)>, a: string)
    ensures Follow(next, a, [Source(a)], a) == [Source(a)]
  {
  }

  // -------------------------------------------------------------------------
  // The whole function

  function AodvRoutes(lines: seq<string>): Result<(seq<PathElem>, bool), PyError>
  {
    match Scan(lines)
    case Err(x) => Err(x)
    case Ok(e) =>
      match DstId(e.dst)
      case Err(x) => Err(x)
      case Ok(id) =>
        match Tables(e.dst, lines)
        case Err(x) => Err(x)
        case Ok(t) => Ok(Finish(Follow(t.next, e.dst, [Source(e.src)], e.src), e.dst, id))
  }

  /** parse_aodv_routes over the dump's lines. */
  method ParseAodvRoutes(lines: seq<string>) returns (r: Result<(seq<PathElem>, bool), PyError>)
    ensures r == AodvRoutes(lines)
  {
    var ends := FindEndpoints(lines);
    if ends.Err? {
      return Err(ends.error);
    }
    var dst, src := ends.value.dst, ends.value.src;
    var id := DstId(dst);
    if id.Err? {
      return Err(id.error);
    }
    var table := BuildNextHops(dst, lines);
    if table.Err? {
      return Err(table.error);
    }
    var path := FollowPath(table.value.next, dst, src);
    return Ok(Finish(path, dst, id.value));
  }
}
