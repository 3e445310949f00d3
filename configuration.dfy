/** The traffic classes the learners route separately (traffic-types.h). */
module TrafficTypes {
  import opened Wrappers

  datatype TrafficType = Other | Icmp | Web | Voip | Video | UdpEcho | TrafficA | TrafficB | TrafficC

  /** The enum's numeric value, which is also its one-byte wire form. */
  function Code(t: TrafficType): (n: nat)
    ensures n <= 8
  {
    match t
    case Other => 0
    case Icmp => 1
    case Web => 2
    case Voip => 3
    case Video => 4
    case UdpEcho => 5
    case TrafficA => 6
    case TrafficB => 7
    case TrafficC => 8
  }

  /** The traffic type with a given numeric value; values 0 to 8 are the only ones. */
  function FromCode(n: int): (r: Option<TrafficType>)
    ensures r.Some? <==> 0 <= n <= 8
    ensures r.Some? ==> Code(r.value) == n
  {
    if n == 0 then Some(Other)
    else if n == 1 then Some(Icmp)
    else if n == 2 then Some(Web)
    else if n == 3 then Some(Voip)
    else if n == 4 then Some(Video)
    else if n == 5 then Some(UdpEcho)
    else if n == 6 then Some(TrafficA)
    else if n == 7 then Some(TrafficB)
    else if n == 8 then Some(TrafficC)
    else None
  }

  /** Every traffic type's code decodes back to it. */
  lemma FromCodeOfCode(t: TrafficType)
    ensures Code(t) <= 8 && FromCode(Code(t)) == Some(t)
  {
  }
}

/** Simulator time, as ns-3's Time in integer nanoseconds. */
module Time {
  function MilliSeconds(k: int): int { k * 1_000_000 }

  function Seconds(k: int): int { k * 1_000_000_000 }

  /** Years(k) with ns-3's 365-day year. */
  function Years(k: int): int { k * 365 * 24 * 3600 * 1_000_000_000 }
}

/** The fixed values of thomas-configuration.h that the model uses. */
module Configuration {
  import Ipv4

  const NewNeighbourInitialIncrementMs := 3
  const NoNeighboursReachableRouteMs := 9999
  const NoNeighboursReachableRouteIp := Ipv4.Address(212, 121, 212, 121)
  const UninitializedIpAddress := Ipv4.Address(102, 102, 102, 102)
  const UninitializedQInfoTagAddress := Ipv4.Address(103, 103, 103, 103)
  const UninitializedQLrnHeaderAddress := Ipv4.Address(104, 104, 104, 104)
  const UninitializedQTableAddress := Ipv4.Address(233, 233, 233, 233)
  const UninitializedPacketTimeSentAddress := Ipv4.Address(111, 222, 222, 111)
  const InitialQValueViaMs := 0
  const InitialQValueNotViaMs := 1
  const NoNextHopNeighbourKnownYet := Ipv4.Address(249, 249, 249, 249)
  const ValueUnusedIntParameter := 123456789
  const QRouteWildcardValue := 777777
  const PortNumberTrafficA := 10002
  const PortNumberTrafficB := 10003
  const PortNumberTrafficC := 10004
  const MaxStrikesBlacklistedNode := 5
}
