/**
 * The learned route the test harness reads out of the Q-learners
 * (qlrn-test-base.cc): starting at a source address, ask the learner of the
 * node owning that address for its next hop towards the destination, move
 * there, and stop at the destination, at a node that does not know the
 * destination, at a next hop already visited, or at the "no neighbours"
 * sentinel. The route is written to a trace file and compared with an
 * expected route.
 *
 * The network is given as the interface addresses (node k owns
 * `ifaces[k]`, one interface per node) and, per node, the learner's answer
 * for the destination: either the destination is unknown to it or it
 * names a next hop.
 */
module QRoutes {
  import opened Wrappers
  import opened Text
  import Ipv4
  import Configuration

  type Address = Ipv4.Address

  /** What node k's learner answers: CheckDestinationKnown is false, or GetNextHop's address. */
  datatype Hop = DstUnknown | NextHop(addr: Address)

  datatype Network = Network(ifaces: seq<Address>, hops: seq<Hop>)

  /** The address 1.1.1.1 that ends the walk. */
  const Halt := Ipv4.Address(1, 1, 1, 1)

  const NoNeighbours := Configuration.NoNeighboursReachableRouteIp

  predicate Distinct(s: seq<Address>)
  {
    forall i, j :: 0 <= i < j < |s| ==> s[i] != s[j]
  }

  /** The addresses the walk can stand on: the interfaces and the destination. */
  function Stops(net: Network, dst: Address): set<Address>
  {
    (set a | a in net.ifaces) + {dst}
  }

  /**
   * One interface per node, distinct addresses, one answer per node, and
   * every next hop a node other than the destination names is an interface,
   * the destination, a sentinel that ends the walk, or 1.1.1.1. (A next hop
   * outside these would leave the walk on an address no interface owns,
   * where it would repeat forever.)
   */
  predicate WellFormed(net: Network, dst: Address)
  {
    && |net.ifaces| >= 1
    && |net.hops| == |net.ifaces|
    && Distinct(net.ifaces)
    && forall k :: 0 <= k < |net.hops| && net.ifaces[k] != dst && net.hops[k].NextHop? ==>
         var a := net.hops[k].addr;
         a in net.ifaces || a == dst || a == NoNeighbours || a == Halt
  }

  /** The node whose interface has address `a`: the search over `interfaces`. */
  function NodeOf(ifaces: seq<Address>, a: Address): (r: Option<nat>)
    ensures r.Some? ==> r.value < |ifaces| && ifaces[r.value] == a
    ensures r.None? ==> a !in ifaces
  {
    if |ifaces| == 0 then None
    else if ifaces[0] == a then Some(0)
    else match NodeOf(ifaces[1..], a)
      case None => None
      case Some(k) => Some(k + 1)
  }

  /** How a walk ended. */
  datatype Outcome =
    | Reached             // the current node was the destination
    | LoopFound           // the chosen next hop had been visited
    | DestinationUnknown  // a node on the way does not know the destination
    | NoRoute             // a node had no neighbour available
    | Stopped             // the walk stood on 1.1.1.1

  /** The nodes a walk passed through, and how it ended. */
  datatype Trace = Trace(nodes: seq<nat>, outcome: Outcome)

  /** The route GetQRoute returns: the nodes passed, then numberOfNodes-1 when the destination was reached. */
  function Route(net: Network, t: Trace): seq<nat>
    requires |net.ifaces| >= 1
  {
    t.nodes + (if t.outcome == Reached then [LastNode(net)] else [])
  }

  /** numberOfNodes-1, the id of the last node. */
  function LastNode(net: Network): nat
    requires |net.ifaces| >= 1
  {
    |net.ifaces| - 1
  }

  function SeenSet(seen: seq<Address>): set<Address>
  {
    set a | a in seen
  }

  /** The addresses the walk may still stand on; its termination measure. */
  function Unvisited(net: Network, dst: Address, seen: seq<Address>): set<Address>
  {
    Stops(net, dst) - SeenSet(seen)
  }

  /** Visiting a new stop leaves strictly fewer to visit. */
  lemma UnvisitedShrinks(net: Network, dst: Address, curr: Address, seen: seq<Address>)
    requires curr in Stops(net, dst) && curr !in seen
    ensures Unvisited(net, dst, seen + [curr]) < Unvisited(net, dst, seen)
  {
    assert SeenSet(seen + [curr]) == SeenSet(seen) + {curr};
    assert curr in Unvisited(net, dst, seen) && curr !in Unvisited(net, dst, seen + [curr]);
  }

  /** One step of the walk: the walk ends here with a trace, or moves from node `k` to `nh`. */
  datatype Step = Finish(t: Trace) | Move(k: nat, nh: Address)

  /**
   * One round of GetQRoute's loop at `curr`, having visited `seen`. The
   * current node counts as visited before its next hop is looked at, so a
   * node naming itself ends the walk as a loop. At the destination the walk
   * ends without listing the destination's own id.
   */
  function StepOf(net: Network, dst: Address, curr: Address, seen: seq<Address>): (r: Step)
    requires WellFormed(net, dst)
    requires curr in Stops(net, dst)
    ensures r.Move? ==>
      && r.k < |net.ifaces| && net.ifaces[r.k] == curr && curr != dst
      && net.hops[r.k] == NextHop(r.nh) && r.nh != NoNeighbours
      && r.nh !in seen + [curr]
      && (r.nh == Halt || r.nh in Stops(net, dst))
    ensures r.Finish? && r.t.outcome == Reached ==> curr == dst && r.t.nodes == []
  {
    var seen' := seen + [curr];
    match NodeOf(net.ifaces, curr)
    case None => Finish(Trace([], Reached))
    case Some(k) =>
      match net.hops[k]
      case DstUnknown => Finish(Trace([], DestinationUnknown))
      case NextHop(nh) =>
        if nh in seen' then Finish(Trace([k], LoopFound))
        else if curr == dst then Finish(Trace([], Reached))
        else if nh == NoNeighbours then Finish(Trace([k], NoRoute))
        else Move(k, nh)
  }

  /** The walk from `curr`, having visited `seen`, until it stands on 1.1.1.1 or a step finishes it. */
  function Walk(net: Network, dst: Address, curr: Address, seen: seq<Address>): (t: Trace)
    requires WellFormed(net, dst)
    requires curr == Halt || curr in Stops(net, dst)
    requires curr !in seen
    decreases Unvisited(net, dst, seen)
  {
    if curr == Halt then Trace([], Stopped)
    else
      match StepOf(net, dst, curr, seen)
      case Finish(t) => t
      case Move(k, nh) =>
        UnvisitedShrinks(net, dst, curr, seen);
        var rest := Walk(net, dst, nh, seen + [curr]);
        Trace([k] + rest.nodes, rest.outcome)
  }

  /** The nodes follow the learners' answers: each names the next one's address as its next hop. */
  predicate Chain(net: Network, nodes: seq<nat>)
  {
    && |net.hops| == |net.ifaces|
    && (forall i :: 0 <= i < |nodes| ==> nodes[i] < |net.ifaces|)
    && (forall i :: 0 <= i < |nodes| - 1 ==> net.hops[nodes[i]] == NextHop(net.ifaces[nodes[i + 1]]))
  }

  predicate DistinctNodes(nodes: seq<nat>)
  {
    forall i, j :: 0 <= i < j < |nodes| ==> nodes[i] != nodes[j]
  }

  /**
   * A walk is a chain of distinct nodes along the learners' next hops,
   * starting at the current address and visiting nothing seen before.
   */
  lemma {:induction false} WalkIsChain(net: Network, dst: Address, curr: Address, seen: seq<Address>)
    requires WellFormed(net, dst)
    requires curr == Halt || curr in Stops(net, dst)
    requires curr !in seen
    ensures var t := Walk(net, dst, curr, seen);
      && Chain(net, t.nodes)
      && DistinctNodes(t.nodes)
      && (t.nodes != [] ==> net.ifaces[t.nodes[0]] == curr)
      && (forall i :: 0 <= i < |t.nodes| ==> net.ifaces[t.nodes[i]] !in seen)
    decreases Unvisited(net, dst, seen)
  {
    if curr != Halt && StepOf(net, dst, curr, seen).Move? {
      var k, nh := StepOf(net, dst, curr, seen).k, StepOf(net, dst, curr, seen).nh;
      var seen' := seen + [curr];
      UnvisitedShrinks(net, dst, curr, seen);
      WalkIsChain(net, dst, nh, seen');
      var rest := Walk(net, dst, nh, seen');
      forall i | 0 <= i < |rest.nodes|
        ensures rest.nodes[i] != k
      {
        assert net.ifaces[rest.nodes[i]] !in seen';
      }
    }
  }

  /**
   * How a walk that ended at the destination, at the sentinel or at 1.1.1.1
   * got there, stated on its last node: the destination reached from a node
   * naming it, the sentinel named, 1.1.1.1 named.
   */
  lemma {:induction false} WalkEndsAsNamed(net: Network, dst: Address, curr: Address, seen: seq<Address>)
    requires WellFormed(net, dst)
    requires curr == Halt || curr in Stops(net, dst)
    requires curr !in seen
    ensures var t := Walk(net, dst, curr, seen);
      && (forall i :: 0 <= i < |t.nodes| ==> t.nodes[i] < |net.ifaces|)
      && (t.outcome == Reached ==>
            if t.nodes == [] then curr == dst else net.hops[Last(t.nodes)] == NextHop(dst))
      && (t.outcome == NoRoute ==>
            t.nodes != [] && net.hops[Last(t.nodes)] == NextHop(NoNeighbours)
            && net.ifaces[Last(t.nodes)] != dst)
      && (t.outcome == Stopped ==>
            if t.nodes == [] then curr == Halt else net.hops[Last(t.nodes)] == NextHop(Halt))
    decreases Unvisited(net, dst, seen)
  {
    if curr != Halt && StepOf(net, dst, curr, seen).Move? {
      var k, nh := StepOf(net, dst, curr, seen).k, StepOf(net, dst, curr, seen).nh;
      UnvisitedShrinks(net, dst, curr, seen);
      WalkEndsAsNamed(net, dst, nh, seen + [curr]);
      var rest := Walk(net, dst, nh, seen + [curr]);
      var t := Walk(net, dst, curr, seen);
      assert t.nodes == [k] + rest.nodes;
      if rest.nodes != [] {
        assert Last(t.nodes) == Last(rest.nodes);
      }
    }
  }

  /**
   * A walk that found a loop ended at a node naming an address already
   * visited; one that found an unknown destination ended at a node naming
   * (or being) a node whose learner does not know it.
   */
  lemma {:induction false} WalkStopsEarly(net: Network, dst: Address, curr: Address, seen: seq<Address>)
    requires WellFormed(net, dst)
    requires curr == Halt || curr in Stops(net, dst)
    requires curr !in seen
    ensures var t := Walk(net, dst, curr, seen);
      && (t.outcome == LoopFound ==>
            t.nodes != [] && Last(t.nodes) < |net.hops| && net.hops[Last(t.nodes)].NextHop?
            && (net.hops[Last(t.nodes)].addr in seen
                || exists i :: 0 <= i < |t.nodes| && t.nodes[i] < |net.ifaces|
                                 && net.ifaces[t.nodes[i]] == net.hops[Last(t.nodes)].addr))
      && (t.outcome == DestinationUnknown ==>
            exists k :: 0 <= k < |net.hops| && net.hops[k] == DstUnknown
              && if t.nodes == [] then net.ifaces[k] == curr
                 else Last(t.nodes) < |net.hops| && net.hops[Last(t.nodes)] == NextHop(net.ifaces[k]))
    decreases Unvisited(net, dst, seen)
  {
    if curr != Halt {
      var seen' := seen + [curr];
      match StepOf(net, dst, curr, seen)
      case Finish(_) =>
        var node := NodeOf(net.ifaces, curr);
        if node.Some? {
          var k := node.value;
          if net.hops[k].DstUnknown? {
            assert net.hops[k] == DstUnknown && net.ifaces[k] == curr;
          } else if net.hops[k].addr == curr {
            assert net.ifaces[[k][0]] == curr;
          }
        }
      case Move(k, nh) =>
        UnvisitedShrinks(net, dst, curr, seen);
        WalkStopsEarly(net, dst, nh, seen');
        WalkIsChain(net, dst, nh, seen');
        var rest := Walk(net, dst, nh, seen');
        var t := Walk(net, dst, curr, seen);
        assert t.nodes == [k] + rest.nodes;
        if rest.nodes != [] {
          assert Last(t.nodes) == Last(rest.nodes);
        }
        if rest.outcome == LoopFound {
          var a := net.hops[Last(t.nodes)].addr;
          if a in seen' && a !in seen {
            assert net.ifaces[t.nodes[0]] == a;
          } else if a !in seen {
            var i :| 0 <= i < |rest.nodes| && rest.nodes[i] < |net.ifaces| && net.ifaces[rest.nodes[i]] == a;
            assert t.nodes[i + 1] == rest.nodes[i];
          }
        }
        if rest.outcome == DestinationUnknown {
          var j :| 0 <= j < |net.hops| && net.hops[j] == DstUnknown
            && if rest.nodes == [] then net.ifaces[j] == nh
               else Last(rest.nodes) < |net.hops| && net.hops[Last(rest.nodes)] == NextHop(net.ifaces[j]);
        }
    }
  }

  /** A node whose learner names the node itself yields a loop at once. */
  lemma SelfHopIsLoop(net: Network, dst: Address, k: nat)
    requires WellFormed(net, dst) && k < |net.ifaces|
    requires net.ifaces[k] != Halt
    requires net.hops[k] == NextHop(net.ifaces[k])
    ensures Walk(net, dst, net.ifaces[k], []) == Trace([k], LoopFound)
  {
    assert NodeOf(net.ifaces, net.ifaces[k]) == Some(k);
  }

  /** The ids a step adds to the route. */
  function StepIds(net: Network, step: Step): seq<nat>
    requires |net.ifaces| >= 1
  {
    match step
    case Finish(t) => Route(net, t)
    case Move(k, _) => [k]
  }

  /** Where the walk stands after a step: the next hop, or 1.1.1.1 once it is over. */
  function StepNext(step: Step): Address
  {
    match step
    case Finish(_) => Halt
    case Move(_, nh) => nh
  }

  /** The route from `curr` is what its step adds, followed by the route from where the step leads. */
  lemma WalkUnfolds(net: Network, dst: Address, curr: Address, seen: seq<Address>)
    requires WellFormed(net, dst)
    requires curr in Stops(net, dst) && curr != Halt && curr !in seen && Halt !in seen
    ensures var step := StepOf(net, dst, curr, seen);
      && (StepNext(step) == Halt || StepNext(step) in Stops(net, dst))
      && StepNext(step) !in seen + [curr]
      && Route(net, Walk(net, dst, curr, seen))
         == StepIds(net, step) + Route(net, Walk(net, dst, StepNext(step), seen + [curr]))
  {
    var step := StepOf(net, dst, curr, seen);
    if step.Finish? {
      assert Route(net, Walk(net, dst, Halt, seen + [curr])) == [];
    }
  }

  /**
   * One round of GetQRoute's loop, after `currNode` was recorded as seen:
   * find the node owning `currNode`, ask its learner, and either finish the
   * walk (returning early, or moving to 1.1.1.1) or move to the next hop.
   */
  method VisitNode(net: Network, dst: Address, currNode: Address, seen: seq<Address>, result: seq<nat>)
    returns (result': seq<nat>, next: Address, finished: bool)
    requires WellFormed(net, dst)
    requires currNode in Stops(net, dst)
    requires |seen| >= 1 && seen[|seen| - 1] == currNode
    ensures var step := StepOf(net, dst, currNode, seen[..|seen| - 1]);
      && next == StepNext(step) && result' == result + StepIds(net, step)
      && (finished ==> step.Finish?)
  {
    assert seen[..|seen| - 1] + [currNode] == seen;
    result' := result;
    finished := false;
    var nextHop := Halt;
    var node := NodeOf(net.ifaces, currNode);
    if node.Some? {
      var k := node.value;
      if net.hops[k].DstUnknown? {
        return result', Halt, true;
      }
      nextHop := net.hops[k].addr;
      if nextHop in seen {
        return result' + [k], Halt, true;
      }
      if currNode != dst {
        result' := result' + [k];
      }
    }
    if currNode == dst {
      next := Halt;
      result' := result' + [LastNode(net)];
    } else if nextHop == NoNeighbours {
      next := Halt;
    } else {
      next := nextHop;
    }
  }

  /**
   * GetQRoute's loop state is on track: standing on `curr` with `seen`
   * visited, the ids collected so far followed by the rest of the walk give
   * the walk from `source`.
   */
  predicate OnTrack(net: Network, dst: Address, source: Address, curr: Address, seen: seq<Address>, result: seq<nat>)
  {
    && WellFormed(net, dst)
    && (source == Halt || source in Stops(net, dst))
    && (curr == Halt || curr in Stops(net, dst))
    && curr !in seen && Halt !in seen
    && result + Route(net, Walk(net, dst, curr, seen)) == Route(net, Walk(net, dst, source, []))
  }

  /** One round of the loop keeps it on track and leaves fewer stops to visit. */
  lemma OnTrackStep(net: Network, dst: Address, source: Address, curr: Address, seen: seq<Address>,
                    result: seq<nat>, result': seq<nat>)
    requires OnTrack(net, dst, source, curr, seen, result) && curr != Halt
    requires result' == result + StepIds(net, StepOf(net, dst, curr, seen))
    ensures OnTrack(net, dst, source, StepNext(StepOf(net, dst, curr, seen)), seen + [curr], result')
    ensures Unvisited(net, dst, seen + [curr]) < Unvisited(net, dst, seen)
  {
    WalkUnfolds(net, dst, curr, seen);
    UnvisitedShrinks(net, dst, curr, seen);
    var step := StepOf(net, dst, curr, seen);
    var next := StepNext(step);
    assert next == Halt || next in Stops(net, dst);
    assert next !in seen + [curr] && Halt !in seen + [curr];
    var rest := Route(net, Walk(net, dst, next, seen + [curr]));
    Regroup(result, StepIds(net, step), rest);
  }

  lemma Regroup(result: seq<nat>, ids: seq<nat>, rest: seq<nat>)
    ensures (result + ids) + rest == result + (ids + rest)
  {
  }

  /**
   * GetQRoute: the ids of the nodes on the learned route from `source` to
   * `dst`; empty when Q-learning is off.
   */
  method GetQRoute(qlearn: bool, net: Network, source: Address, dst: Address) returns (result: seq<nat>)
    requires WellFormed(net, dst)
    requires source == Halt || source in Stops(net, dst)
    ensures !qlearn ==> result == []
    ensures qlearn ==> result == Route(net, Walk(net, dst, source, []))
  {
    result := [];
    if !qlearn {
      return;
    }
    var currNode := source;
    var seen: seq<Address> := [];
    while currNode != Halt
      invariant OnTrack(net, dst, source, currNode, seen, result)
      decreases Unvisited(net, dst, seen)
    {
      ghost var before, done, curr0 := seen, result, currNode;
      seen := seen + [currNode];
      assert seen[..|seen| - 1] == before;
      var finished;
      result, currNode, finished := VisitNode(net, dst, currNode, seen, result);
      OnTrackStep(net, dst, source, curr0, before, done, result);
      if finished {
        return;
      }
    }
  }

  /** Every id in a route names a node. */
  lemma RouteInRange(net: Network, dst: Address, source: Address)
    requires WellFormed(net, dst)
    requires source == Halt || source in Stops(net, dst)
    ensures forall i :: 0 <= i < |Route(net, Walk(net, dst, source, []))| ==>
      Route(net, Walk(net, dst, source, []))[i] < |net.ifaces|
  {
    WalkEndsAsNamed(net, dst, source, []);
  }

  // -------------------------------------------------------------------------
  // The loop as written, on any next hop

  /** The loop's state after a round: returned, or the next current node, next hop, seen list and result. */
  datatype Round =
    | Returned(route: seq<nat>)
    | Continue(curr: Address, nextHop: Address, seen: seq<Address>, result: seq<nat>)

  /** The end of a round: at the destination, at the sentinel, or on to the next hop. */
  function Advance(net: Network, dst: Address, curr: Address, nextHop: Address,
                   seen: seq<Address>, result: seq<nat>): Round
    requires |net.ifaces| >= 1
  {
    if curr == dst then Continue(Halt, nextHop, seen, result + [LastNode(net)])
    else if nextHop == NoNeighbours then Continue(Halt, nextHop, seen, result)
    else Continue(nextHop, nextHop, seen, result)
  }

  /**
   * One round of GetQRoute's loop exactly as written, for any learner
   * answers: when no interface owns the current address, the search body
   * never runs, so `nextHop` keeps its value from the round before.
   */
  function RoundAsWritten(net: Network, dst: Address, curr: Address, nextHop: Address,
                          seen: seq<Address>, result: seq<nat>): (r: Round)
    requires 1 <= |net.hops| == |net.ifaces|
    ensures r.Returned? ==> NodeOf(net.ifaces, curr).Some? && result <= r.route && |r.route| <= |result| + 1
    ensures r.Continue? ==> r.seen == seen + [curr] && result <= r.result && |r.result| <= |result| + 1
    ensures NodeOf(net.ifaces, curr).None? && curr != dst && nextHop != NoNeighbours
      ==> r == Continue(nextHop, nextHop, seen + [curr], result)
  {
    var seen' := seen + [curr];
    match NodeOf(net.ifaces, curr)
    case None => Advance(net, dst, curr, nextHop, seen', result)
    case Some(k) =>
      match net.hops[k]
      case DstUnknown => Returned(result)
      case NextHop(nh) =>
        if nh in seen' then Returned(result + [k])
        else Advance(net, dst, curr, nh, seen', if curr != dst then result + [k] else result)
  }

  /** `n` more rounds of the loop, stopping once it returns or stands on 1.1.1.1. */
  function RoundsAsWritten(net: Network, dst: Address, r: Round, n: nat): Round
    requires 1 <= |net.hops| == |net.ifaces|
    decreases n
  {
    if n == 0 || r.Returned? || r.curr == Halt then r
    else RoundsAsWritten(net, dst, RoundAsWritten(net, dst, r.curr, r.nextHop, r.seen, r.result), n - 1)
  }

  /**
   * On an address that no interface owns and that is neither the
   * destination, 1.1.1.1 nor the sentinel, the loop only grows its seen
   * list: however many rounds run, it neither returns nor halts.
   */
  lemma {:induction false} UnownedHopSpins(net: Network, dst: Address, a: Address,
                                           seen: seq<Address>, result: seq<nat>, n: nat)
    requires 1 <= |net.hops| == |net.ifaces|
    requires a !in net.ifaces && a != dst && a != Halt && a != NoNeighbours
    ensures var r := RoundsAsWritten(net, dst, Continue(a, a, seen, result), n);
      r.Continue? && r.curr == a && r.result == result && |r.seen| == |seen| + n
    decreases n
  {
    if n > 0 {
      assert NodeOf(net.ifaces, a).None?;
      assert RoundAsWritten(net, dst, a, a, seen, result) == Continue(a, a, seen + [a], result);
      UnownedHopSpins(net, dst, a, seen + [a], result, n - 1);
    }
  }

  /**
   * Two nodes, 10.1.1.1 and the destination 10.1.1.2; the first learner
   * names 9.9.9.9, which no node owns. The network is not well formed, and
   * the loop as written moves onto 9.9.9.9 and never ends there.
   */
  lemma UnownedHopNeverEnds(n: nat)
    ensures var a, b, x := Ipv4.Address(10, 1, 1, 1), Ipv4.Address(10, 1, 1, 2), Ipv4.Address(9, 9, 9, 9);
      var net := Network([a, b], [NextHop(x), DstUnknown]);
      var first := RoundAsWritten(net, b, a, Halt, [], []);
      && !WellFormed(net, b)
      && first == Continue(x, x, [a], [0])
      && RoundsAsWritten(net, b, first, n).Continue?
      && RoundsAsWritten(net, b, first, n).curr == x
  {
    var a, b, x := Ipv4.Address(10, 1, 1, 1), Ipv4.Address(10, 1, 1, 2), Ipv4.Address(9, 9, 9, 9);
    var net := Network([a, b], [NextHop(x), DstUnknown]);
    assert net.hops[0].addr == x && net.ifaces[0] != b;
    assert NodeOf(net.ifaces, a) == Some(0);
    UnownedHopSpins(net, b, x, [a], [0], n);
  }

  // -------------------------------------------------------------------------
  // The trace file

  /** "<next hop>,<node>". */
  function PairLine(addr: string, node: nat): string
  {
    addr + "," + NatToString(node) + "\n"
  }

  /** The line for the consecutive pair route[i], route[i+1]: "addr(route[i+1]),route[i]". */
  function HopLine(ifaces: seq<Address>, route: seq<nat>, i: nat): string
    requires i + 1 < |route| && route[i + 1] < |ifaces|
  {
    PairLine(Ipv4.ToString(ifaces[route[i + 1]]), route[i])
  }

  predicate InRange(ifaces: seq<Address>, route: seq<nat>)
  {
    forall i :: 0 <= i < |route| ==> route[i] < |ifaces|
  }

  /** The first `n` pair lines. */
  function PairLines(ifaces: seq<Address>, route: seq<nat>, n: nat): (lines: seq<string>)
    requires n + 1 <= |route| && InRange(ifaces, route)
    ensures |lines| == n
    ensures forall i :: 0 <= i < n ==> lines[i] == HopLine(ifaces, route, i)
  {
    if n == 0 then [] else PairLines(ifaces, route, n - 1) + [HopLine(ifaces, route, n - 1)]
  }

  /** How many pair lines a route of `len` nodes gives: one per consecutive pair. */
  function PairCount(len: nat): nat
  {
    if len == 0 then 0 else len - 1
  }

  /** "srcNode-<source>". */
  function SourceLine(source: Address): string
  {
    "srcNode-" + Ipv4.ToString(source) + "\n"
  }

  /** "dstNode-<address of the last node>". */
  function DestinationLine(ifaces: seq<Address>): string
    requires |ifaces| >= 1
  {
    "dstNode-" + Ipv4.ToString(ifaces[|ifaces| - 1]) + "\n"
  }

  function Header(ifaces: seq<Address>, source: Address): seq<string>
    requires |ifaces| >= 1
  {
    [SourceLine(source), DestinationLine(ifaces)]
  }

  /** The whole trace file, line by line: the source, the last node's address, one line per pair. */
  function TraceFile(ifaces: seq<Address>, source: Address, route: seq<nat>): (lines: seq<string>)
    requires |ifaces| >= 1 && InRange(ifaces, route)
    ensures |lines| == 2 + PairCount(|route|)
    ensures forall i :: 0 <= i < PairCount(|route|) ==> lines[i + 2] == HopLine(ifaces, route, i)
  {
    Header(ifaces, source) + (if |route| == 0 then [] else PairLines(ifaces, route, |route| - 1))
  }

  /** PrintQRouteToFile: the lines written, in order. */
  method PrintQRouteToFile(qlearn: bool, net: Network, source: Address, dst: Address) returns (lines: seq<string>)
    requires WellFormed(net, dst)
    requires source == Halt || source in Stops(net, dst)
    ensures var route := if qlearn then Route(net, Walk(net, dst, source, [])) else [];
      InRange(net.ifaces, route) && lines == TraceFile(net.ifaces, source, route)
  {
    lines := [SourceLine(source)];
    lines := lines + [DestinationLine(net.ifaces)];
    assert lines == Header(net.ifaces, source);
    var route := GetQRoute(qlearn, net, source, dst);
    if qlearn {
      RouteInRange(net, dst, source);
    }
    lines := WritePairs(net.ifaces, route, lines);
  }

  /** The loop writing one line per consecutive pair of the route. */
  method WritePairs(ifaces: seq<Address>, route: seq<nat>, header: seq<string>) returns (lines: seq<string>)
    requires InRange(ifaces, route)
    ensures lines == header + (if |route| == 0 then [] else PairLines(ifaces, route, |route| - 1))
  {
    lines := header;
    if |route| > 0 {
      var i := 0;
      ghost var written := 0;
      while i < |route|
        invariant 0 <= i <= |route|
        invariant written == if i < |route| then i else |route| - 1
        invariant lines == header + PairLines(ifaces, route, written)
      {
        if i < |route| - 1 {
          PairLinesGrow(header, ifaces, route, written);
          lines := lines + [HopLine(ifaces, route, i)];
          written := written + 1;
        }
        i := i + 1;
      }
    }
  }

  lemma PairLinesGrow(header: seq<string>, ifaces: seq<Address>, route: seq<nat>, n: nat)
    requires n + 2 <= |route| && InRange(ifaces, route)
    ensures header + PairLines(ifaces, route, n + 1) == (header + PairLines(ifaces, route, n)) + [HopLine(ifaces, route, n)]
  {
  }

  // -------------------------------------------------------------------------
  // Checking the route against the expected one

  /**
   * The route check: an empty expectation accepts anything; otherwise the
   * lengths agree and every position agrees unless the expectation holds
   * the wildcard there.
   */
  predicate RouteMatches(actual: seq<nat>, expected: seq<int>)
  {
    |expected| == 0
    || (|actual| == |expected|
        && forall i :: 0 <= i < |actual| ==>
             actual[i] == expected[i] || expected[i] == Configuration.QRouteWildcardValue)
  }

  /**
   * VerifyQRouteResults: the route from the first node's address to the last
   * node's address, checked against the expected route.
   */
  method VerifyQRouteResults(qlearn: bool, net: Network, expected: seq<int>) returns (ok: bool)
    requires |net.ifaces| >= 1 && WellFormed(net, net.ifaces[|net.ifaces| - 1])
    ensures var actual := if qlearn then Route(net, Walk(net, net.ifaces[|net.ifaces| - 1], net.ifaces[0], []))
                          else [];
      ok <==> RouteMatches(actual, expected)
  {
    var actual := GetQRoute(qlearn, net, net.ifaces[0], net.ifaces[|net.ifaces| - 1]);
    if |expected| == 0 {
      return true;
    }
    ok := true;
    if |actual| != |expected| {
      ok := false;
    } else {
      var i := 0;
      while i < |actual|
        invariant 0 <= i <= |actual|
        invariant ok <==> forall j :: 0 <= j < i ==>
          actual[j] == expected[j] || expected[j] == Configuration.QRouteWildcardValue
      {
        if actual[i] != expected[i] && expected[i] != Configuration.QRouteWildcardValue {
          ok := false;
        }
        i := i + 1;
      }
    }
  }
}
