/** The values that travel between the services: what the feeds report, what the detector keeps
    in its stores, and the stop events it produces.

    Instants are whole seconds since the epoch, dates are day numbers since the epoch. */
module Domain {

  datatype Option<+T> = None | Some(value: T)

  type Instant = int

  type Date = int

  datatype Agency = Mpk | Mobilis | MpkTram

  datatype VehicleStatus = IncomingAt | StoppedAt | InTransitTo

  datatype DetectionMethod = ByStoppedAt | BySeqJump | ByTimeout

  datatype VehiclePosition = VehiclePosition(
    agency: Agency,
    tripId: string,
    vehicleId: string,
    licensePlate: Option<string>,
    stopSequence: Option<int>,
    status: Option<VehicleStatus>,
    timestamp: Instant)

  datatype StopEvent = StopEvent(
    agency: Agency,
    tripId: string,
    serviceDate: Date,
    stopSequence: int,
    stopId: string,
    lineNumber: string,
    stopName: string,
    stopDesc: Option<string>,
    directionId: Option<int>,
    headsign: Option<string>,
    plannedTime: Instant,
    eventTime: Instant,
    delaySeconds: int,
    vehicleId: Option<string>,
    licensePlate: Option<string>,
    detectionMethod: DetectionMethod,
    isEstimated: bool,
    staticHash: string,
    maxStopSequence: int)

  /** Lookup in a map, the way a Python dict's `get` answers. */
  function Get<K, V>(m: map<K, V>, k: K): Option<V> {
    if k in m then Some(m[k]) else None
  }

  /** One if it holds, else none: what a condition adds to a count. */
  function Ones(b: bool): nat {
    if b then 1 else 0
  }

  lemma FrontAndLast<T>(xs: seq<T>)
    requires xs != []
    ensures xs == xs[..|xs| - 1] + [xs[|xs| - 1]]
  {}

  lemma ConcatFront<T>(a: seq<T>, b: seq<T>)
    requires b != []
    ensures (a + b)[..|a + b| - 1] == a + b[..|b| - 1] && (a + b)[|a + b| - 1] == b[|b| - 1]
  {}

  lemma PrefixFront<T>(xs: seq<T>, n: nat)
    requires n < |xs|
    ensures xs[..n + 1][..n] == xs[..n]
  {}
}
