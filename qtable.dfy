/**
 * A node's Q-table (qtable.cc): for every destination a row with one entry
 * per neighbour, each holding the estimated delivery time (nanoseconds)
 * via that neighbour, plus the neighbours currently unreachable and the
 * strike counter that blacklists a next hop.
 */
module QTables {
  import Ipv4
  import Time
  import Configuration

  type Address = Ipv4.Address

  /**
   * A QTableEntry, stored by value in its row. The learning flags and
   * thresholds that only the learning update uses are not part of it.
   */
  datatype QEntry = QEntry(nextHop: Address, estim: int, unavailable: bool, blacklisted: bool, strikes: int)

  /** The default entry: next hop 233.233.233.233, estimate ten years. */
  const DefaultEntry := QEntry(Configuration.UninitializedQTableAddress, Time.Years(10), false, false, 0)

  /** QTableEntry(i, t, ...): available, not blacklisted, no strikes. */
  function NewEntry(nextHop: Address, estim: int): (e: QEntry)
    ensures e.nextHop == nextHop && e.estim == estim
    ensures !e.unavailable && !e.blacklisted && e.strikes == 0
  {
    QEntry(nextHop, estim, false, false, 0)
  }

  // -------------------------------------------------------------------------
  // Strikes

  const MaxStrikes := Configuration.MaxStrikesBlacklistedNode

  /** Never more than the maximum; blacklisted at the maximum; a blacklisted entry has a strike. */
  predicate StrikesConsistent(e: QEntry)
  {
    e.strikes <= MaxStrikes && (e.strikes == MaxStrikes ==> e.blacklisted) && (e.blacklisted ==> e.strikes >= 1)
  }

  /**
   * AddStrike: nothing once blacklisted; otherwise one more strike, and
   * blacklisted on reaching the maximum, which the entry's assertion says
   * is never passed.
   */
  function AddStrike(e: QEntry): (r: QEntry)
    requires !e.blacklisted ==> e.strikes < MaxStrikes
    ensures e.blacklisted ==> r == e
    ensures !e.blacklisted ==> r.strikes == e.strikes + 1 && (r.blacklisted <==> r.strikes == MaxStrikes)
    ensures r.strikes <= MaxStrikes || r == e
    ensures r.nextHop == e.nextHop && r.estim == e.estim && r.unavailable == e.unavailable
  {
    if e.blacklisted then e
    else
      var s := e.strikes + 1;
      e.(strikes := s, blacklisted := s == MaxStrikes)
  }

  /** DeductStrike: one strike fewer, and off the blacklist when none are left. */
  function DeductStrike(e: QEntry): (r: QEntry)
    ensures r.strikes == e.strikes - 1
    ensures r.blacklisted <==> e.blacklisted && r.strikes != 0
    ensures r.nextHop == e.nextHop && r.estim == e.estim && r.unavailable == e.unavailable
  {
    var s := e.strikes - 1;
    e.(strikes := s, blacklisted := e.blacklisted && s != 0)
  }

  /** Both strike operations keep an entry's strikes consistent. */
  lemma StrikesStayConsistent(e: QEntry)
    requires StrikesConsistent(e)
    ensures StrikesConsistent(AddStrike(e)) && StrikesConsistent(DeductStrike(e))
  {
  }

  function AddStrikes(e: QEntry, n: nat): QEntry
    requires StrikesConsistent(e)
    ensures StrikesConsistent(AddStrikes(e, n))
    decreases n
  {
    if n == 0 then e else AddStrikes(AddStrike(e), n - 1)
  }

  /** From a new entry, n strikes give min(n, 5) strikes, blacklisted from the fifth on. */
  lemma {:induction false} StrikesBlacklistAtMaximum(e: QEntry, n: nat)
    requires !e.blacklisted && 0 <= e.strikes < MaxStrikes
    ensures var r := AddStrikes(e, n);
      r.strikes == (if e.strikes + n < MaxStrikes then e.strikes + n else MaxStrikes)
      && (r.blacklisted <==> e.strikes + n >= MaxStrikes)
    decreases n
  {
    if n > 0 {
      var e1 := AddStrike(e);
      if e1.blacklisted {
        BlacklistedStays(e1, n - 1);
      } else {
        StrikesBlacklistAtMaximum(e1, n - 1);
      }
    }
  }

  lemma {:induction false} BlacklistedStays(e: QEntry, n: nat)
    requires StrikesConsistent(e) && e.blacklisted
    ensures AddStrikes(e, n) == e
    decreases n
  {
    if n > 0 {
      BlacklistedStays(AddStrike(e), n - 1);
    }
  }

  // -------------------------------------------------------------------------
  // Rows

  /** A row whose entries go, in order, via each neighbour. */
  predicate WellFormedRow(row: seq<QEntry>, neighbours: seq<Address>)
  {
    |row| == |neighbours| && forall k :: 0 <= k < |row| ==> row[k].nextHop == neighbours[k]
  }

  predicate Distinct(s: seq<Address>)
  {
    forall i, j :: 0 <= i < j < |s| ==> s[i] != s[j]
  }

  /** A neighbour's row in a new table: 0 ms via the neighbour itself, 1 ms via any other. */
  function InitialRow(neighbours: seq<Address>, neighb: Address): (row: seq<QEntry>)
    ensures WellFormedRow(row, neighbours)
    ensures forall k :: 0 <= k < |row| ==> row[k] == NewEntry(neighbours[k],
      Time.MilliSeconds(if neighbours[k] == neighb then Configuration.InitialQValueViaMs
                        else Configuration.InitialQValueNotViaMs))
  {
    seq(|neighbours|, k requires 0 <= k < |neighbours| =>
      NewEntry(neighbours[k], Time.MilliSeconds(if neighbours[k] == neighb then Configuration.InitialQValueViaMs
                                                else Configuration.InitialQValueNotViaMs)))
  }

  /**
   * A new destination's row: with no known next hop every estimate is the
   * initial one; otherwise `t` via `via` and `t` + 1 ms via the others.
   */
  function DestinationRow(neighbours: seq<Address>, via: Address, t: int): (row: seq<QEntry>)
    ensures WellFormedRow(row, neighbours)
    ensures forall k :: 0 <= k < |row| ==> !row[k].unavailable && !row[k].blacklisted
    ensures via == Configuration.NoNextHopNeighbourKnownYet ==>
      forall k :: 0 <= k < |row| ==> row[k].estim == Time.MilliSeconds(Configuration.InitialQValueViaMs)
    ensures via != Configuration.NoNextHopNeighbourKnownYet ==>
      forall k :: 0 <= k < |row| ==>
        row[k].estim == (if neighbours[k] == via then t else t + Time.MilliSeconds(Configuration.InitialQValueNotViaMs))
  {
    seq(|neighbours|, k requires 0 <= k < |neighbours| => DestinationEntry(neighbours[k], via, t))
  }

  function DestinationEntry(i: Address, via: Address, t: int): QEntry
  {
    if via == Configuration.NoNextHopNeighbourKnownYet then NewEntry(i, Time.MilliSeconds(Configuration.InitialQValueViaMs))
    else if i == via then NewEntry(i, t)
    else NewEntry(i, t + Time.MilliSeconds(Configuration.InitialQValueNotViaMs))
  }

  /** Every entry via `neighb` gets the availability flag; nothing else changes. */
  function RowWithAvailability(row: seq<QEntry>, neighb: Address, unavailable: bool): (r: seq<QEntry>)
    ensures |r| == |row|
    ensures forall k :: 0 <= k < |row| ==>
      r[k] == if row[k].nextHop == neighb then row[k].(unavailable := unavailable) else row[k]
  {
    seq(|row|, k requires 0 <= k < |row| => WithAvailability(row[k], neighb, unavailable))
  }

  function WithAvailability(e: QEntry, neighb: Address, unavailable: bool): QEntry
  {
    if e.nextHop == neighb then e.(unavailable := unavailable) else e
  }

  /** Marking entries leaves each row's next hops as they were. */
  lemma RowWithAvailabilityWellFormed(row: seq<QEntry>, neighbours: seq<Address>, neighb: Address, unavailable: bool)
    requires WellFormedRow(row, neighbours)
    ensures WellFormedRow(RowWithAvailability(row, neighb, unavailable), neighbours)
  {
  }

  /** The smallest estimate in a row. */
  function MinEstim(row: seq<QEntry>): (m: int)
    requires |row| > 0
    ensures forall e :: e in row ==> m <= e.estim
    ensures exists e :: e in row && e.estim == m
  {
    if |row| == 1 then row[0].estim
    else
      var rest := MinEstim(row[1..]);
      assert forall e :: e in row ==> e == row[0] || e in row[1..];
      if row[0].estim <= rest then row[0].estim else rest
  }

  /**
   * The estimate a new neighbour starts with towards `dst`: 0 ms when it is
   * the destination, otherwise 3 ms above the best estimate in the row (3 ms
   * when there is none).
   */
  function NewNeighbourEstim(row: seq<QEntry>, dst: Address, neighb: Address): int
  {
    if dst == neighb then Time.MilliSeconds(0)
    else if |row| > 0 then MinEstim(row) + Time.MilliSeconds(Configuration.NewNeighbourInitialIncrementMs)
    else Time.MilliSeconds(Configuration.NewNeighbourInitialIncrementMs)
  }

  /** ChangeQValuesFromZero's test: every estimate in the row is zero. */
  predicate AllZero(row: seq<QEntry>)
  {
    forall k :: 0 <= k < |row| ==> row[k].estim == 0
  }

  /** The reset of an all-zero row: 1 ms via the AODV next hop, 0 ms via the others. */
  function ResetFromZero(row: seq<QEntry>, aodvNextHop: Address): (r: seq<QEntry>)
    ensures |r| == |row|
    ensures forall k :: 0 <= k < |row| ==>
      r[k] == row[k].(estim := if row[k].nextHop == aodvNextHop then Time.MilliSeconds(Configuration.InitialQValueNotViaMs)
                               else Time.MilliSeconds(Configuration.InitialQValueViaMs))
  {
    seq(|row|, k requires 0 <= k < |row| => ResetEntry(row[k], aodvNextHop))
  }

  function ResetEntry(e: QEntry, aodvNextHop: Address): QEntry
  {
    e.(estim := if e.nextHop == aodvNextHop then Time.MilliSeconds(Configuration.InitialQValueNotViaMs)
                else Time.MilliSeconds(Configuration.InitialQValueViaMs))
  }

  // -------------------------------------------------------------------------
  // Choosing the best estimate

  /**
   * GetNextEstim's scan: starting from `q`, an entry replaces the current
   * choice unless its estimate is larger or its next hop is unavailable.
   */
  function SelectBest(row: seq<QEntry>, unavail: seq<Address>, q: QEntry): QEntry
    decreases |row|
  {
    if row == [] then q
    else SelectBest(row[1..], unavail, if row[0].estim > q.estim || row[0].nextHop in unavail then q else row[0])
  }

  /**
   * The scan's result is the start or an entry via an available next hop,
   * and no available entry has a smaller estimate.
   */
  lemma {:induction false} SelectBestIsMinimal(row: seq<QEntry>, unavail: seq<Address>, q: QEntry)
    ensures var r := SelectBest(row, unavail, q);
      r.estim <= q.estim
      && (r == q || (r in row && r.nextHop !in unavail))
      && forall e :: e in row && e.nextHop !in unavail ==> r.estim <= e.estim
    decreases |row|
  {
    if row != [] {
      var q1 := if row[0].estim > q.estim || row[0].nextHop in unavail then q else row[0];
      SelectBestIsMinimal(row[1..], unavail, q1);
      assert forall e :: e in row ==> e == row[0] || e in row[1..];
    }
  }

  /** In a new table, the best way to a neighbour is straight to it. */
  lemma InitialBestIsDirect(neighbours: seq<Address>, neighb: Address, unavail: seq<Address>)
    requires Distinct(neighbours) && neighb in neighbours && neighb !in unavail
    ensures var r := SelectBest(InitialRow(neighbours, neighb), unavail, DefaultEntry);
      r.nextHop == neighb && r.estim == 0
  {
    var row := InitialRow(neighbours, neighb);
    var k :| 0 <= k < |neighbours| && neighbours[k] == neighb;
    assert row[k] in row;
    SelectBestIsMinimal(row, unavail, DefaultEntry);
  }

  /**
   * For a destination added with a known next hop `via` and a non-negative
   * time, the best way there is via `via`, as long as it is available.
   */
  lemma DestinationBestIsVia(neighbours: seq<Address>, via: Address, t: int, unavail: seq<Address>)
    requires via != Configuration.NoNextHopNeighbourKnownYet && via in neighbours && via !in unavail
    requires 0 <= t < Time.Years(10)
    ensures var r := SelectBest(DestinationRow(neighbours, via, t), unavail, DefaultEntry);
      r.nextHop == via && r.estim == t
  {
    var row := DestinationRow(neighbours, via, t);
    var k :| 0 <= k < |neighbours| && neighbours[k] == via;
    assert row[k] in row;
    SelectBestIsMinimal(row, unavail, DefaultEntry);
  }

  /** Removes the first occurrence of `x`, as erase(find(...)) does. */
  function RemoveFirst(s: seq<Address>, x: Address): (r: seq<Address>)
    ensures x in s ==> multiset(r) == multiset(s) - multiset{x}
    ensures x !in s ==> r == s
  {
    if s == [] then []
    else
      assert s == [s[0]] + s[1..];
      if s[0] == x then s[1..]
      else [s[0]] + RemoveFirst(s[1..], x)
  }

  /** Erasing at the first occurrence found is RemoveFirst. */
  lemma {:induction false} RemoveFirstAt(s: seq<Address>, x: Address, k: nat)
    requires k < |s| && s[k] == x && x !in s[..k]
    ensures RemoveFirst(s, x) == s[..k] + s[k + 1..]
    decreases k
  {
    if k > 0 {
      assert s[0] in s[..k];
      assert s[1..][..k - 1] == s[1..k];
      RemoveFirstAt(s[1..], x, k - 1);
      assert s[..k] == [s[0]] + s[1..][..k - 1];
    }
  }

  /** min_element over a non-empty row, by estimate. */
  method RowMinimum(row: seq<QEntry>) returns (m: int)
    requires |row| > 0
    ensures m == MinEstim(row)
  {
    m := row[0].estim;
    var i := 1;
    while i < |row|
      invariant 1 <= i <= |row|
      invariant forall k :: 0 <= k < i ==> m <= row[k].estim
      invariant exists k :: 0 <= k < i && row[k].estim == m
    {
      if row[i].estim < m {
        m := row[i].estim;
      }
      i := i + 1;
    }
  }

  /**
   * GetNextEstim's answer: an entry, the random choice among the neighbours,
   * or the failed sanity check that the chosen estimate is not the
   * one-year initial value.
   */
  datatype NextEstim = Chosen(entry: QEntry) | RandomChoice | EstimateStillInitial

  /** Only this node sends randomly when every neighbour is blacklisted. */
  const RandomSourceNode := Ipv4.Address(10, 1, 1, 1)

  /** The entry GetNextEstim returns when no neighbour is reachable. */
  const NoNeighboursEntry := NewEntry(Configuration.NoNeighboursReachableRouteIp,
                                      Time.MilliSeconds(Configuration.NoNeighboursReachableRouteMs))

  /** The first entry of a row going via `via`, which GetEntryByRef returns. */
  function FindEntry(row: seq<QEntry>, via: Address): (r: seq<QEntry>)
    ensures |r| <= 1
    ensures r != [] ==> r[0] in row && r[0].nextHop == via
    ensures r == [] <==> forall e :: e in row ==> e.nextHop != via
  {
    if row == [] then []
    else if row[0].nextHop == via then [row[0]]
    else
      assert forall e :: e in row ==> e == row[0] || e in row[1..];
      FindEntry(row[1..], via)
  }

  /** In a well-formed row, the entry via the k-th neighbour is the k-th. */
  lemma {:induction false} FindEntryWellFormed(row: seq<QEntry>, neighbours: seq<Address>, k: nat)
    requires WellFormedRow(row, neighbours) && Distinct(neighbours) && k < |neighbours|
    ensures FindEntry(row, neighbours[k]) == [row[k]]
    decreases k
  {
    if k > 0 {
      FindEntryWellFormed(row[1..], neighbours[1..], k - 1);
    }
  }

  /** The inner loop of MarkNeighbDown and AddNeighbour: flags every entry via `neighb`. */
  method SetRowAvailability(row: seq<QEntry>, neighb: Address, unavailable: bool) returns (r: seq<QEntry>)
    ensures r == RowWithAvailability(row, neighb, unavailable)
  {
    r := row;
    var i := 0;
    while i < |row|
      invariant 0 <= i <= |row| && |r| == |row|
      invariant forall k :: 0 <= k < i ==> r[k] == WithAvailability(row[k], neighb, unavailable)
      invariant forall k :: i <= k < |row| ==> r[k] == row[k]
    {
      if r[i].nextHop == neighb {
        r := r[i := r[i].(unavailable := unavailable)];
      }
      i := i + 1;
    }
  }

  /** The rows of all destinations with the entries via `neighb` flagged; other rows stay. */
  function MarkedRows(q: map<Address, seq<QEntry>>, dsts: seq<Address>, neighb: Address, unavailable: bool)
    : (r: map<Address, seq<QEntry>>)
    ensures r.Keys == q.Keys
  {
    map d | d in q :: if d in dsts then RowWithAvailability(q[d], neighb, unavailable) else q[d]
  }

  /** The rows of `q` with those of the destinations in `done` flagged. */
  predicate MarkedUpTo(r: map<Address, seq<QEntry>>, q: map<Address, seq<QEntry>>, done: seq<Address>,
                       neighb: Address, unavailable: bool)
  {
    r.Keys == q.Keys
    && forall d :: d in q ==> r[d] == if d in done then RowWithAvailability(q[d], neighb, unavailable) else q[d]
  }

  /** Flagging one more destination's row. */
  lemma MarkStep(r: map<Address, seq<QEntry>>, q: map<Address, seq<QEntry>>, dsts: seq<Address>, i: nat,
                 neighb: Address, unavailable: bool)
    requires i < |dsts| && Distinct(dsts) && dsts[i] in q && MarkedUpTo(r, q, dsts[..i], neighb, unavailable)
    ensures r[dsts[i]] == q[dsts[i]]
    ensures MarkedUpTo(r[dsts[i] := RowWithAvailability(q[dsts[i]], neighb, unavailable)], q, dsts[..i + 1],
                       neighb, unavailable)
  {
    assert dsts[..i + 1] == dsts[..i] + [dsts[i]];
    assert dsts[i] !in dsts[..i] by {
      forall k | 0 <= k < i
        ensures dsts[..i][k] != dsts[i]
      {
        assert dsts[..i][k] == dsts[k];
      }
    }
  }

  /** All destinations flagged: the rows are MarkedRows. */
  lemma MarkedAll(r: map<Address, seq<QEntry>>, q: map<Address, seq<QEntry>>, dsts: seq<Address>,
                  neighb: Address, unavailable: bool)
    requires MarkedUpTo(r, q, dsts, neighb, unavailable)
    ensures r == MarkedRows(q, dsts, neighb, unavailable)
  {
  }

  /** Flagging keeps every destination row in the neighbours' order and leaves the other rows empty. */
  lemma MarkedRowsWellFormed(q: map<Address, seq<QEntry>>, dsts: seq<Address>, neighbours: seq<Address>,
                             neighb: Address, unavailable: bool)
    requires forall d :: d in dsts ==> d in q && WellFormedRow(q[d], neighbours)
    requires forall d :: d in q && d !in dsts ==> q[d] == []
    ensures forall d :: d in dsts ==> WellFormedRow(MarkedRows(q, dsts, neighb, unavailable)[d], neighbours)
    ensures forall d :: d in q && d !in dsts ==> MarkedRows(q, dsts, neighb, unavailable)[d] == []
  {
    forall d | d in dsts
      ensures WellFormedRow(MarkedRows(q, dsts, neighb, unavailable)[d], neighbours)
    {
      RowWithAvailabilityWellFormed(q[d], neighbours, neighb, unavailable);
    }
  }

  /** A destination's row with an entry for the new neighbour `neighb` appended. */
  function ExtendedRow(row: seq<QEntry>, dst: Address, neighb: Address): (r: seq<QEntry>)
    ensures |r| == |row| + 1 && r[..|row|] == row && r[|row|].nextHop == neighb
  {
    row + [NewEntry(neighb, NewNeighbourEstim(row, dst, neighb))]
  }

  /** The rows of all destinations with an entry for the new neighbour `neighb` appended. */
  function ExtendedRows(q: map<Address, seq<QEntry>>, dsts: seq<Address>, neighb: Address)
    : (r: map<Address, seq<QEntry>>)
    ensures r.Keys == q.Keys
  {
    map d | d in q :: if d in dsts then ExtendedRow(q[d], d, neighb) else q[d]
  }

  /** The rows of `q` with those of the destinations in `done` extended. */
  predicate ExtendedUpTo(r: map<Address, seq<QEntry>>, q: map<Address, seq<QEntry>>, done: seq<Address>, neighb: Address)
  {
    r.Keys == q.Keys && forall d :: d in q ==> r[d] == if d in done then ExtendedRow(q[d], d, neighb) else q[d]
  }

  /** All destinations extended: the rows are ExtendedRows. */
  lemma ExtendedAll(r: map<Address, seq<QEntry>>, q: map<Address, seq<QEntry>>, dsts: seq<Address>, neighb: Address)
    requires ExtendedUpTo(r, q, dsts, neighb)
    ensures r == ExtendedRows(q, dsts, neighb)
  {
  }

  /** Extending one more destination's row. */
  lemma ExtendStep(r: map<Address, seq<QEntry>>, q: map<Address, seq<QEntry>>, dsts: seq<Address>, i: nat, neighb: Address)
    requires i < |dsts| && Distinct(dsts) && dsts[i] in q && ExtendedUpTo(r, q, dsts[..i], neighb)
    ensures r[dsts[i]] == q[dsts[i]]
    ensures ExtendedUpTo(r[dsts[i] := ExtendedRow(q[dsts[i]], dsts[i], neighb)], q, dsts[..i + 1], neighb)
  {
    assert dsts[..i + 1] == dsts[..i] + [dsts[i]];
    assert dsts[i] !in dsts[..i] by {
      forall k | 0 <= k < i
        ensures dsts[..i][k] != dsts[i]
      {
        assert dsts[..i][k] == dsts[k];
      }
    }
  }

  /** AddNeighbour's loop over the destinations, appending the new neighbour's entry to each row. */
  method ExtendRows(q: map<Address, seq<QEntry>>, dsts: seq<Address>, neighbours: seq<Address>, neighb: Address)
    returns (r: map<Address, seq<QEntry>>)
    requires Distinct(dsts) && forall d :: d in dsts ==> d in q && |q[d]| == |neighbours|
    ensures r == ExtendedRows(q, dsts, neighb)
  {
    r := q;
    var i := 0;
    while i < |dsts|
      invariant 0 <= i <= |dsts| && ExtendedUpTo(r, q, dsts[..i], neighb)
    {
      var d := dsts[i];
      ExtendStep(r, q, dsts, i, neighb);
      var estim: int;
      if d == neighb {
        estim := Time.MilliSeconds(0);
      } else if |neighbours| > 0 {
        var least := RowMinimum(r[d]);
        estim := least + Time.MilliSeconds(Configuration.NewNeighbourInitialIncrementMs);
      } else {
        estim := Time.MilliSeconds(Configuration.NewNeighbourInitialIncrementMs);
      }
      assert estim == NewNeighbourEstim(q[d], d, neighb);
      r := r[d := r[d] + [NewEntry(neighb, estim)]];
      i := i + 1;
    }
    assert dsts[..i] == dsts;
    ExtendedAll(r, q, dsts, neighb);
  }

  /** Appending the new neighbour's entries keeps every destination row in the neighbours' order. */
  lemma ExtendedRowsWellFormed(q: map<Address, seq<QEntry>>, dsts: seq<Address>, neighbours: seq<Address>, neighb: Address)
    requires forall d :: d in dsts ==> d in q && WellFormedRow(q[d], neighbours)
    ensures forall d :: d in dsts ==> WellFormedRow(ExtendedRows(q, dsts, neighb)[d], neighbours + [neighb])
    ensures forall d :: d in q && d !in dsts ==> ExtendedRows(q, dsts, neighb)[d] == q[d]
  {
  }

  /** ChangeQValuesFromZero's first loop. */
  method IsAllZero(row: seq<QEntry>) returns (allZero: bool)
    ensures allZero == AllZero(row)
  {
    allZero := true;
    var i := 0;
    while i < |row|
      invariant 0 <= i <= |row|
      invariant allZero <==> forall k :: 0 <= k < i ==> row[k].estim == 0
    {
      if row[i].estim != 0 {
        allZero := false;
      }
      i := i + 1;
    }
  }

  /** ChangeQValuesFromZero's second loop. */
  method ResetRow(row: seq<QEntry>, aodvNextHop: Address) returns (r: seq<QEntry>)
    ensures r == ResetFromZero(row, aodvNextHop)
  {
    r := row;
    var i := 0;
    while i < |row|
      invariant 0 <= i <= |row| && |r| == |row|
      invariant forall k :: 0 <= k < i ==> r[k] == ResetEntry(row[k], aodvNextHop)
      invariant forall k :: i <= k < |row| ==> r[k] == row[k]
    {
      if r[i].nextHop == aodvNextHop {
        r := r[i := r[i].(estim := Time.MilliSeconds(Configuration.InitialQValueNotViaMs))];
      } else {
        r := r[i := r[i].(estim := Time.MilliSeconds(Configuration.InitialQValueViaMs))];
      }
      i := i + 1;
    }
  }

  /** GetNextEstim's scan over a row, from the default entry. */
  method ScanBest(row: seq<QEntry>, unavail: seq<Address>) returns (q: QEntry)
    ensures q == SelectBest(row, unavail, DefaultEntry)
  {
    q := DefaultEntry;
    var i := 0;
    while i < |row|
      invariant 0 <= i <= |row|
      invariant SelectBest(row[i..], unavail, q) == SelectBest(row, unavail, DefaultEntry)
    {
      assert row[i..][1..] == row[i + 1..];
      if row[i].estim > q.estim || (row[i].estim <= q.estim && row[i].nextHop in unavail) {
      } else {
        q := row[i];
      }
      i := i + 1;
    }
  }

  // -------------------------------------------------------------------------
  // The table

  class QTable {
    var nodeip: Address
    var neighbours: seq<Address>
    var destinations: seq<Address>
    var unavail: seq<Address>
    var qtable: map<Address, seq<QEntry>>

    /**
     * Neighbours and destinations are listed once each; every destination
     * has a row with one entry per neighbour, in the neighbours' order; any
     * other row is one that a lookup created empty.
     */
    predicate Valid()
      reads this
    {
      Distinct(neighbours) && Distinct(destinations)
      && (forall d :: d in destinations ==> d in qtable && WellFormedRow(qtable[d], neighbours))
      && (forall d :: d in qtable && d !in destinations ==> qtable[d] == [])
    }

    /** One row per neighbour, with the initial estimates; the unavailable list is taken as given. */
    constructor (neighbs: seq<Address>, ip: Address, unavailable: seq<Address>)
      requires Distinct(neighbs)
      ensures Valid()
      ensures nodeip == ip && neighbours == neighbs && destinations == neighbs && unavail == unavailable
      ensures qtable.Keys == set n | n in neighbs
      ensures forall n :: n in neighbs ==> qtable[n] == InitialRow(neighbs, n)
    {
      var table: map<Address, seq<QEntry>> := map[];
      var i := 0;
      while i < |neighbs|
        invariant 0 <= i <= |neighbs|
        invariant table.Keys == set n | n in neighbs[..i]
        invariant forall n :: n in table ==> table[n] == InitialRow(neighbs, n)
      {
        assert neighbs[..i + 1] == neighbs[..i] + [neighbs[i]];
        table := table[neighbs[i] := InitialRow(neighbs, neighbs[i])];
        i := i + 1;
      }
      assert neighbs[..i] == neighbs;
      nodeip := ip;
      neighbours := neighbs;
      destinations := neighbs;
      unavail := unavailable;
      qtable := table;
    }

    /** A destination is known when it is this node or has a row. */
    method CheckDestinationKnown(dst: Address) returns (known: bool)
      requires Valid()
      ensures known <==> dst == nodeip || dst in destinations || dst in qtable
    {
      known := dst == nodeip || dst in qtable;
    }

    /**
     * Adds a row for a destination without one and says whether it did; a
     * destination that has a row is left as it is.
     */
    method AddDestination(via: Address, dst: Address, t: int) returns (added: bool)
      requires Valid() && nodeip != dst
      modifies this
      ensures Valid()
      ensures nodeip == old(nodeip) && neighbours == old(neighbours) && unavail == old(unavail)
      ensures added <==> dst !in old(qtable)
      ensures !added ==> destinations == old(destinations) && qtable == old(qtable)
      ensures added ==> destinations == old(destinations) + [dst]
                        && qtable == old(qtable)[dst := DestinationRow(neighbours, via, t)]
    {
      if dst in qtable {
        return false;
      }
      var row: seq<QEntry> := [];
      var i := 0;
      while i < |neighbours|
        invariant 0 <= i <= |neighbours|
        invariant row == DestinationRow(neighbours[..i], via, t)
      {
        row := row + [DestinationEntry(neighbours[i], via, t)];
        i := i + 1;
      }
      assert neighbours[..i] == neighbours;
      destinations := destinations + [dst];
      qtable := qtable[dst := row];
      added := true;
    }

    /** Flags every destination's entry via `neighb`, one destination row at a time. */
    method SetAvailability(neighb: Address, unavailable: bool)
      requires Valid()
      modifies this
      ensures Valid()
      ensures nodeip == old(nodeip) && neighbours == old(neighbours) && destinations == old(destinations)
      ensures unavail == old(unavail)
      ensures qtable == MarkedRows(old(qtable), destinations, neighb, unavailable)
    {
      ghost var q := qtable;
      MarkedRowsWellFormed(q, destinations, neighbours, neighb, unavailable);
      var i := 0;
      while i < |destinations|
        invariant 0 <= i <= |destinations| && Distinct(destinations)
        invariant forall d :: d in destinations ==> d in q
        invariant nodeip == old(nodeip) && neighbours == old(neighbours) && destinations == old(destinations)
        invariant unavail == old(unavail) && q == old(qtable)
        invariant MarkedUpTo(qtable, q, destinations[..i], neighb, unavailable)
      {
        var d := destinations[i];
        MarkStep(qtable, q, destinations, i, neighb, unavailable);
        var row := SetRowAvailability(qtable[d], neighb, unavailable);
        qtable := qtable[d := row];
        i := i + 1;
      }
      assert destinations[..i] == destinations;
      MarkedAll(qtable, q, destinations, neighb, unavailable);
    }

    /**
     * Marks a neighbour unreachable: only a neighbour, only once; every
     * entry via it becomes unavailable.
     */
    method MarkNeighbDown(neighb: Address)
      requires Valid()
      modifies this
      ensures Valid()
      ensures nodeip == old(nodeip) && neighbours == old(neighbours) && destinations == old(destinations)
      ensures neighb !in neighbours || neighb in old(unavail) ==> unavail == old(unavail) && qtable == old(qtable)
      ensures neighb in neighbours && neighb !in old(unavail) ==>
        unavail == old(unavail) + [neighb] && qtable == MarkedRows(old(qtable), destinations, neighb, true)
      ensures neighb in neighbours ==> neighb in unavail
      ensures multiset(unavail)[neighb] <= 1 || unavail == old(unavail)
    {
      if neighb in neighbours && neighb !in unavail {
        unavail := unavail + [neighb];
        SetAvailability(neighb, true);
      }
    }

    /**
     * A neighbour says hello: if it was marked unreachable, it is unmarked
     * (its first listing removed) and its entries become available again;
     * if it is new, every destination row gets an entry for it and it is
     * appended to the neighbours.
     */
    method AddNeighbour(neighb: Address)
      requires Valid()
      modifies this
      ensures Valid()
      ensures nodeip == old(nodeip) && destinations == old(destinations)
      ensures unavail == RemoveFirst(old(unavail), neighb)
      ensures var q1 := if neighb in old(unavail) then MarkedRows(old(qtable), destinations, neighb, false)
                        else old(qtable);
        if neighb in old(neighbours) then neighbours == old(neighbours) && qtable == q1
        else neighbours == old(neighbours) + [neighb] && qtable == ExtendedRows(q1, destinations, neighb)
    {
      if neighb in unavail {
        UnmarkNeighbour(neighb);
      }
      if neighb !in neighbours {
        AppendNeighbour(neighb);
      }
    }

    /** AddNeighbour's first half: the neighbour's first unavailable listing goes, its entries are re-enabled. */
    method UnmarkNeighbour(neighb: Address)
      requires Valid() && neighb in unavail
      modifies this
      ensures Valid()
      ensures nodeip == old(nodeip) && neighbours == old(neighbours) && destinations == old(destinations)
      ensures unavail == RemoveFirst(old(unavail), neighb)
      ensures qtable == MarkedRows(old(qtable), destinations, neighb, false)
    {
      var k := 0;
      while unavail[k] != neighb
        invariant 0 <= k < |unavail| && neighb !in unavail[..k]
        invariant neighb in unavail[k..]
        decreases |unavail| - k
      {
        assert unavail[..k + 1] == unavail[..k] + [unavail[k]];
        k := k + 1;
      }
      RemoveFirstAt(unavail, neighb, k);
      unavail := unavail[..k] + unavail[k + 1..];
      SetAvailability(neighb, false);
    }

    /**
     * AddNeighbour's second half: every destination row gets an entry via the
     * new neighbour, 0 ms when it is the destination, else 3 ms above the
     * row's best; the neighbour is appended.
     */
    method AppendNeighbour(neighb: Address)
      requires Valid() && neighb !in neighbours
      modifies this
      ensures Valid()
      ensures nodeip == old(nodeip) && destinations == old(destinations) && unavail == old(unavail)
      ensures neighbours == old(neighbours) + [neighb]
      ensures qtable == ExtendedRows(old(qtable), destinations, neighb)
    {
      qtable := ExtendRows(qtable, destinations, neighbours, neighb);
      ExtendedRowsWellFormed(old(qtable), destinations, neighbours, neighb);
      neighbours := neighbours + [neighb];
    }

    /**
     * GetEntryByRef's assertion, for every neighbour AllNeighboursBlacklisted
     * looks up: the row has an entry via each available neighbour.
     */
    predicate LookupsSucceed(dst: Address)
      reads this
      requires dst in qtable
    {
      forall j :: j in neighbours && j !in unavail ==> FindEntry(qtable[dst], j) != []
    }

    /** Every known destination's row has an entry via every neighbour, so GetNextEstim may ask for it. */
    lemma DestinationLookupsSucceed(dst: Address)
      requires Valid() && dst in destinations
      ensures dst in qtable && LookupsSucceed(dst)
    {
      forall j | j in neighbours && j !in unavail
        ensures FindEntry(qtable[dst], j) != []
      {
        var k :| 0 <= k < |neighbours| && neighbours[k] == j;
        FindEntryWellFormed(qtable[dst], neighbours, k);
      }
    }

    /**
     * No neighbour can be used towards `dst`: each is unreachable, or its
     * entry is blacklisted or unavailable. With no neighbours at all this
     * holds; for this node itself it does not.
     */
    predicate AllNeighboursBlacklisted(dst: Address)
      reads this
      requires dst in qtable && LookupsSucceed(dst)
    {
      if neighbours == [] then true
      else if dst == nodeip then false
      else forall j :: j in neighbours && j !in unavail ==>
        FindEntry(qtable[dst], j)[0].blacklisted || FindEntry(qtable[dst], j)[0].unavailable
    }

    /**
     * The entry to route by towards `dst`: a zero estimate for this node
     * itself; the random choice at the sending node when every neighbour is
     * blacklisted; the no-neighbours sentinel when every neighbour is
     * unreachable; otherwise the smallest estimate via an available
     * neighbour (the last such entry on a tie), or the default entry when
     * every available entry is above ten years.
     */
    method GetNextEstim(dst: Address) returns (r: NextEstim)
      requires Valid()
      requires dst == nodeip || dst in qtable
      requires dst != nodeip ==> dst != Configuration.NoNeighboursReachableRouteIp
                                 && dst != Configuration.UninitializedQTableAddress && LookupsSucceed(dst)
      ensures dst == nodeip ==> r == Chosen(NewEntry(Configuration.UninitializedQTableAddress, 0))
      ensures dst != nodeip && AllNeighboursBlacklisted(dst) && nodeip == RandomSourceNode ==> r == RandomChoice
      ensures dst != nodeip && !(AllNeighboursBlacklisted(dst) && nodeip == RandomSourceNode) ==>
        !r.RandomChoice? && ((forall j :: j in neighbours ==> j in unavail) ==> r == Chosen(NoNeighboursEntry))
      ensures dst != nodeip && !r.RandomChoice? && (exists j :: j in neighbours && j !in unavail) ==>
        var best := SelectBest(qtable[dst], unavail, DefaultEntry);
        (r == EstimateStillInitial <==> best.estim == Time.Years(1))
        && (r.Chosen? ==> r.entry == best
                          && (best == DefaultEntry || (best in qtable[dst] && best.nextHop !in unavail))
                          && forall e :: e in qtable[dst] && e.nextHop !in unavail ==> best.estim <= e.estim)
    {
      if dst == nodeip {
        return Chosen(NewEntry(Configuration.UninitializedQTableAddress, 0));
      }
      if AllNeighboursBlacklisted(dst) && nodeip == RandomSourceNode {
        return RandomChoice;
      }
      var q := ScanBest(qtable[dst], unavail);
      SelectBestIsMinimal(qtable[dst], unavail, DefaultEntry);
      var anyReachable := false;
      var i := 0;
      while i < |neighbours|
        invariant 0 <= i <= |neighbours|
        invariant anyReachable <==> exists k :: 0 <= k < i && neighbours[k] !in unavail
      {
        if neighbours[i] !in unavail {
          anyReachable := true;
        }
        i := i + 1;
      }
      if !anyReachable {
        return Chosen(NoNeighboursEntry);
      }
      if q.estim == Time.Years(1) {
        return EstimateStillInitial;
      }
      r := Chosen(q);
    }

    /**
     * When every estimate towards `dst` is zero, the entry via the AODV next
     * hop is set to 1 ms and the others to 0 ms. An unknown `dst` is given
     * an empty row by the lookup, which it then keeps.
     */
    method ChangeQValuesFromZero(dst: Address, aodvNextHop: Address)
      requires Valid()
      modifies this
      ensures Valid()
      ensures nodeip == old(nodeip) && neighbours == old(neighbours) && destinations == old(destinations)
      ensures unavail == old(unavail)
      ensures var row := if dst in old(qtable) then old(qtable)[dst] else [];
        qtable == old(qtable)[dst := if AllZero(row) then ResetFromZero(row, aodvNextHop) else row]
    {
      if dst !in qtable {
        qtable := qtable[dst := []];
      }
      var allZero := IsAllZero(qtable[dst]);
      if allZero {
        var row := ResetRow(qtable[dst], aodvNextHop);
        qtable := qtable[dst := row];
      }
      assert qtable == old(qtable)[dst := qtable[dst]];
    }
  }
}
