/** The query for the largest delays generated along a whole route. */
module RouteDelay {
  import opened Domain
  import opened StatsRows

  /** One output row: the trip it is about, taken from one of the trip's rows, with the first and
      the last row of its partition. */
  datatype Route = Route(carrier: Row, first: Row, last: Row) {
    function GeneratedDelay(): int {
      last.delaySeconds - first.delaySeconds
    }
  }

  /** COUNT(DISTINCT license_plate): NULLs do not count. */
  function Plates(rows: seq<Row>): set<string> {
    set r | r in rows && r.licensePlate.Some? :: r.licensePlate.value
  }

  /** The trip's rows with maximum m include stop 2 and stop m-1. */
  predicate HasBoundary(part: seq<Row>, m: int) {
    && (exists r | r in part :: r.maxStopSequence == Some(m) && r.stopSequence == 2)
    && (exists r | r in part :: r.maxStopSequence == Some(m) && r.stopSequence == m - 1)
  }

  /** A trip is reported if one vehicle served it and some group of its rows with one maximum has
      both boundary stops. */
  predicate ValidTrip(part: seq<Row>) {
    && |Plates(part)| == 1
    && exists r | r in part && r.maxStopSequence.Some? :: HasBoundary(part, r.maxStopSequence.value)
  }

  /** The output row a filtered row gives rise to before DISTINCT ON. */
  function Bounds(filtered: seq<Row>, r: Row): Option<Route> {
    var ordered := Ordered(filtered, r);
    if ordered == [] || !ValidTrip(PartitionOf(filtered, r)) || ordered[0].delaySeconds < MIN_DELAY_SECONDS then None
    else Some(Route(r, ordered[0], ordered[|ordered| - 1]))
  }

  predicate Seen(out: seq<Route>, r: Row) {
    exists o | o in out :: SamePartition(o.carrier, r)
  }

  /** DISTINCT ON (trip, date): all rows of a partition carry the same delay, one of them stays. */
  function Distinct(filtered: seq<Row>, some: seq<Row>): seq<Route> {
    if some == [] then []
    else
      var out := Distinct(filtered, some[..|some| - 1]);
      var r := some[|some| - 1];
      var bounds := Bounds(filtered, r);
      if bounds.None? || Seen(out, r) then out else out + [bounds.value]
  }

  function Descending(r: Route): int {
    -r.GeneratedDelay()
  }

  function MaxRouteDelay(q: Query, rows: seq<Row>): seq<Route> {
    var filtered := Filtered(q, rows);
    FirstTen(SortBy(Distinct(filtered, filtered), Descending))
  }

  /** A row that DISTINCT ON chooses from. */
  predicate IsRoute(q: Query, rows: seq<Row>, o: Route) {
    o.carrier in Filtered(q, rows) && Bounds(Filtered(q, rows), o.carrier) == Some(o)
  }

  /** A correct result of DISTINCT ON: one row for each trip and date that has any. */
  ghost predicate IsDistinctOn(q: Query, rows: seq<Row>, picks: seq<Route>) {
    && OnePerPartition(picks)
    && (forall o | o in picks :: IsRoute(q, rows, o))
    && (forall r | r in Filtered(q, rows) && Bounds(Filtered(q, rows), r).Some? :: Seen(picks, r))
  }

  /** A correct answer to the query, whichever row DISTINCT ON keeps and however ties are broken. */
  ghost predicate Answers(q: Query, rows: seq<Row>, out: seq<Route>) {
    exists picks :: IsDistinctOn(q, rows, picks) && IsTopTen(out, picks, Descending)
  }

  // ----- one row per trip and date -----

  lemma SamePartitionSameBounds(filtered: seq<Row>, a: Row, b: Row)
    requires SamePartition(a, b)
    ensures PartitionOf(filtered, a) == PartitionOf(filtered, b)
    ensures Bounds(filtered, a).Some? <==> Bounds(filtered, b).Some?
    ensures Bounds(filtered, a).Some? ==> Bounds(filtered, a).value.(carrier := b) == Bounds(filtered, b).value
  {
    SamePartitionSameRows(filtered, a, b);
  }

  lemma SamePartitionSameRows(rows: seq<Row>, a: Row, b: Row)
    requires SamePartition(a, b)
    ensures PartitionOf(rows, a) == PartitionOf(rows, b)
  {
    WhereAlike(rows, x => SamePartition(x, a), x => SamePartition(x, b));
  }

  ghost predicate OnePerPartition(out: seq<Route>) {
    forall i, j | 0 <= i < j < |out| :: !SamePartition(out[i].carrier, out[j].carrier)
  }

  /** Before the limit there is exactly one output row for each trip and date that has bounds. */
  lemma {:induction false} DistinctExact(filtered: seq<Row>, some: seq<Row>)
    ensures var out := Distinct(filtered, some);
            && OnePerPartition(out)
            && (forall o | o in out :: o.carrier in some && Bounds(filtered, o.carrier) == Some(o))
            && (forall r | r in some && Bounds(filtered, r).Some? :: Seen(out, r))
  {
    if some != [] {
      var front, last := some[..|some| - 1], some[|some| - 1];
      FrontAndLast(some);
      DistinctExact(filtered, front);
      var before, bounds := Distinct(filtered, front), Bounds(filtered, last);
      if bounds.Some? && !Seen(before, last) {
        OneMoreRoute(before, bounds.value);
      }
    }
  }

  lemma DistinctIsDistinctOn(q: Query, rows: seq<Row>)
    ensures IsDistinctOn(q, rows, Distinct(Filtered(q, rows), Filtered(q, rows)))
  {
    DistinctExact(Filtered(q, rows), Filtered(q, rows));
  }

  lemma OneMoreRoute(out: seq<Route>, o: Route)
    requires OnePerPartition(out) && !Seen(out, o.carrier)
    ensures OnePerPartition(out + [o]) && Seen(out + [o], o.carrier)
    ensures forall r | Seen(out, r) :: Seen(out + [o], r)
  {
    assert forall i | 0 <= i < |out| :: out[i] in out;
    assert (out + [o])[|out|] == o;
    forall r | Seen(out, r)
      ensures Seen(out + [o], r)
    {
      var x :| x in out && SamePartition(x.carrier, r);
      assert x in out + [o];
    }
  }

  // ----- what the bounds are -----

  /** A row of r's trip and date that passes the filter. */
  predicate OfTrip(q: Query, rows: seq<Row>, r: Row, x: Row) {
    x in rows && Measured(q, x) && x.tripId == r.tripId && x.serviceDate == r.serviceDate
  }

  /** Every filtered row of a trip is past stop 1 and short of its own maximum. */
  lemma ReportedPartition(q: Query, rows: seq<Row>, r: Row)
    requires Unique(rows) && r in Filtered(q, rows)
    ensures var filtered := Filtered(q, rows);
            var ordered := Ordered(filtered, r);
            && StrictlyOrdered(ordered) && ordered != []
            && (forall x :: x in ordered <==> OfTrip(q, rows, r, x))
            && (forall x :: x in ordered <==> x in PartitionOf(filtered, r))
            && (forall x | x in ordered ::
                  ordered[0].stopSequence <= x.stopSequence <= ordered[|ordered| - 1].stopSequence)
  {
    var filtered := Filtered(q, rows);
    var ordered := Ordered(filtered, r);
    FilteredExact(q, rows);
    PartitionExact(filtered, r);
    OrderedIsStrict(filtered, r);
    assert r in ordered;
    EndsBound(ordered);
    forall x
      ensures x in ordered <==> OfTrip(q, rows, r, x)
    {
      PassesIffMeasured(q, x);
    }
  }

  lemma EndsBound(ordered: seq<Row>)
    requires StrictlyOrdered(ordered) && ordered != []
    ensures forall x | x in ordered ::
              ordered[0].stopSequence <= x.stopSequence <= ordered[|ordered| - 1].stopSequence
  {
    forall x | x in ordered
      ensures ordered[0].stopSequence <= x.stopSequence <= ordered[|ordered| - 1].stopSequence
    {
      var i :| 0 <= i < |ordered| && ordered[i] == x;
    }
  }

  /** A reported trip starts at stop 2. For each maximum m whose group has both boundaries, it ends
      at stop m-1 exactly when the trip has no filtered row at or beyond m. */
  lemma ReportedEnds(q: Query, rows: seq<Row>, o: Route, m: int)
    requires Unique(rows) && IsRoute(q, rows, o)
    requires HasBoundary(PartitionOf(Filtered(q, rows), o.carrier), m)
    ensures o.first.stopSequence == 2
    ensures o.last.stopSequence == m - 1
       <==> forall x | OfTrip(q, rows, o.carrier, x) :: x.stopSequence < m
  {
    var filtered := Filtered(q, rows);
    ReportedPartition(q, rows, o.carrier);
    var ordered := Ordered(filtered, o.carrier);
    var second: Row :| second in PartitionOf(filtered, o.carrier)
                       && second.maxStopSequence == Some(m) && second.stopSequence == 2;
    var penultimate: Row :| penultimate in PartitionOf(filtered, o.carrier)
                            && penultimate.maxStopSequence == Some(m) && penultimate.stopSequence == m - 1;
    assert second in ordered && penultimate in ordered;
    assert ordered[0] in ordered && ordered[|ordered| - 1] in ordered;
  }

  /** All of the trip's filtered rows name the same maximum. */
  ghost predicate AgreeOnMax(q: Query, rows: seq<Row>, r: Row, m: int) {
    forall x | OfTrip(q, rows, r, x) :: x.maxStopSequence == Some(m)
  }

  /** When a trip's rows agree on their maximum m, its reported route runs from stop 2 to stop m-1. */
  lemma AgreeingTripRunsToPenultimate(q: Query, rows: seq<Row>, o: Route, m: int)
    requires Unique(rows) && IsRoute(q, rows, o)
    requires AgreeOnMax(q, rows, o.carrier, m)
    ensures o.first.stopSequence == 2 && o.last.stopSequence == m - 1
    ensures HasBoundary(PartitionOf(Filtered(q, rows), o.carrier), m)
  {
    var filtered := Filtered(q, rows);
    ReportedPartition(q, rows, o.carrier);
    var part := PartitionOf(filtered, o.carrier);
    var r: Row :| r in part && r.maxStopSequence.Some? && HasBoundary(part, r.maxStopSequence.value);
    assert r in Ordered(filtered, o.carrier);
    ReportedEnds(q, rows, o, m);
  }

  /** The filtered rows of r's trip and date name one vehicle between them. */
  ghost predicate OneVehicle(q: Query, rows: seq<Row>, r: Row) {
    exists x :: OfTrip(q, rows, r, x) && x.licensePlate.Some?
                && forall y | OfTrip(q, rows, r, y) && y.licensePlate.Some? :: y.licensePlate == x.licensePlate
  }

  /** Some two of them, stop 2 and a stop m-1, give the trip the same length m. */
  ghost predicate BothEnds(q: Query, rows: seq<Row>, r: Row) {
    exists x, y :: OfTrip(q, rows, r, x) && OfTrip(q, rows, r, y)
                   && x.stopSequence == 2 && x.maxStopSequence.Some? && x.maxStopSequence == y.maxStopSequence
                   && y.stopSequence == y.maxStopSequence.value - 1
  }

  /** Which trips the query reports, before the limit: those of one vehicle with both ends recorded
      and not more than 90 s early at stop 2. */
  lemma ReportedIff(q: Query, rows: seq<Row>, picks: seq<Route>, r: Row)
    requires Unique(rows) && IsDistinctOn(q, rows, picks) && r in Filtered(q, rows)
    ensures Seen(picks, r)
       <==> && OneVehicle(q, rows, r) && BothEnds(q, rows, r)
            && forall x | OfTrip(q, rows, r, x) && x.stopSequence == 2 :: x.delaySeconds >= -90
  {
    SeenIffBounds(q, rows, picks, r);
    HasBoundsIff(q, rows, r);
  }

  lemma HasBoundsIff(q: Query, rows: seq<Row>, r: Row)
    requires Unique(rows) && r in Filtered(q, rows)
    ensures Bounds(Filtered(q, rows), r).Some?
       <==> && OneVehicle(q, rows, r) && BothEnds(q, rows, r)
            && forall x | OfTrip(q, rows, r, x) && x.stopSequence == 2 :: x.delaySeconds >= -90
  {
    ValidTripIff(q, rows, r);
    if BothEnds(q, rows, r) {
      SecondStopIsFirst(q, rows, r);
    }
  }

  lemma ValidTripIff(q: Query, rows: seq<Row>, r: Row)
    requires Unique(rows) && r in Filtered(q, rows)
    ensures Ordered(Filtered(q, rows), r) != []
    ensures ValidTrip(PartitionOf(Filtered(q, rows), r)) <==> OneVehicle(q, rows, r) && BothEnds(q, rows, r)
  {
    var part := PartitionOf(Filtered(q, rows), r);
    ReportedPartition(q, rows, r);
    assert forall x :: x in part <==> OfTrip(q, rows, r, x);
    PlatesAreOne(q, rows, r, part);
    EndsAreBoundary(q, rows, r, part);
  }

  lemma SecondStopIsFirst(q: Query, rows: seq<Row>, r: Row)
    requires Unique(rows) && r in Filtered(q, rows) && BothEnds(q, rows, r)
    ensures var ordered := Ordered(Filtered(q, rows), r);
            ordered != [] && forall x :: x == ordered[0] <==> OfTrip(q, rows, r, x) && x.stopSequence == 2
  {
    var ordered := Ordered(Filtered(q, rows), r);
    ReportedPartition(q, rows, r);
    var x :| OfTrip(q, rows, r, x) && x.stopSequence == 2;
    FirstIsSecondStop(ordered, x);
  }

  lemma SeenIffBounds(q: Query, rows: seq<Row>, picks: seq<Route>, r: Row)
    requires IsDistinctOn(q, rows, picks) && r in Filtered(q, rows)
    ensures Seen(picks, r) <==> Bounds(Filtered(q, rows), r).Some?
  {
    if Seen(picks, r) {
      var o :| o in picks && SamePartition(o.carrier, r);
      SamePartitionSameBounds(Filtered(q, rows), o.carrier, r);
    }
  }

  /** A whole trip as it should be reported: ridden by one vehicle, with both ends recorded, from
      its row at stop 2, not more than 90 s early there, to its row furthest along. */
  ghost predicate WholeTrip(q: Query, rows: seq<Row>, o: Route) {
    && OfTrip(q, rows, o.carrier, o.carrier) && OneVehicle(q, rows, o.carrier) && BothEnds(q, rows, o.carrier)
    && OfTrip(q, rows, o.carrier, o.first) && o.first.stopSequence == 2
    && o.first.delaySeconds >= -90
    && OfTrip(q, rows, o.carrier, o.last)
    && forall x | OfTrip(q, rows, o.carrier, x) :: x.stopSequence <= o.last.stopSequence
  }

  /** The rows DISTINCT ON chooses from are exactly the whole trips, each once per row. */
  lemma RoutesAreWholeTrips(q: Query, rows: seq<Row>, o: Route)
    requires Unique(rows)
    ensures IsRoute(q, rows, o) <==> WholeTrip(q, rows, o)
  {
    var r := o.carrier;
    FilteredExact(q, rows);
    if r in Filtered(q, rows) {
      ValidTripIff(q, rows, r);
      if BothEnds(q, rows, r) {
        EndsAreFirstAndLast(q, rows, r, o.first, o.last);
      }
    }
  }

  lemma EndsAreFirstAndLast(q: Query, rows: seq<Row>, r: Row, first: Row, last: Row)
    requires Unique(rows) && r in Filtered(q, rows) && BothEnds(q, rows, r)
    ensures var ordered := Ordered(Filtered(q, rows), r);
            && ordered != []
            && (first == ordered[0] <==> OfTrip(q, rows, r, first) && first.stopSequence == 2)
            && (last == ordered[|ordered| - 1]
                <==> && OfTrip(q, rows, r, last)
                     && forall x | OfTrip(q, rows, r, x) :: x.stopSequence <= last.stopSequence)
  {
    var ordered := Ordered(Filtered(q, rows), r);
    SecondStopIsFirst(q, rows, r);
    ReportedPartition(q, rows, r);
    assert ordered[|ordered| - 1] in ordered;
    if last in ordered && forall y | y in ordered :: y.stopSequence <= last.stopSequence {
      LastIsFurthest(ordered, last);
    }
  }

  lemma LastIsFurthest(ordered: seq<Row>, x: Row)
    requires StrictlyOrdered(ordered) && x in ordered
    requires forall y | y in ordered :: y.stopSequence <= x.stopSequence
    ensures ordered[|ordered| - 1] == x
  {
    assert ordered[|ordered| - 1] in ordered;
    var i :| 0 <= i < |ordered| && ordered[i] == x;
    assert i == |ordered| - 1;
  }

  lemma FirstIsSecondStop(ordered: seq<Row>, x: Row)
    requires StrictlyOrdered(ordered) && x in ordered && x.stopSequence == 2
    requires forall y | y in ordered :: y.stopSequence > 1
    ensures ordered[0] == x
    ensures forall y | y in ordered && y.stopSequence == 2 :: y == x
  {
    assert ordered[0] in ordered;
    var i :| 0 <= i < |ordered| && ordered[i] == x;
    forall y | y in ordered && y.stopSequence == 2
      ensures y == x
    {
      var j :| 0 <= j < |ordered| && ordered[j] == y;
      assert i == j;
    }
  }

  lemma PlatesAreOne(q: Query, rows: seq<Row>, r: Row, part: seq<Row>)
    requires forall x :: x in part <==> OfTrip(q, rows, r, x)
    ensures |Plates(part)| == 1 <==> OneVehicle(q, rows, r)
  {
    if |Plates(part)| == 1 {
      var plate :| plate in Plates(part);
      assert Plates(part) - {plate} == {} by {
        assert |Plates(part) - {plate}| == 0;
      }
      var x :| x in part && x.licensePlate == Some(plate);
      forall y | OfTrip(q, rows, r, y) && y.licensePlate.Some?
        ensures y.licensePlate == x.licensePlate
      {
        assert y.licensePlate.value in Plates(part);
      }
      assert OfTrip(q, rows, r, x);
    }
    if OneVehicle(q, rows, r) {
      var x :| OfTrip(q, rows, r, x) && x.licensePlate.Some?
               && forall y | OfTrip(q, rows, r, y) && y.licensePlate.Some? :: y.licensePlate == x.licensePlate;
      assert x in part;
      assert Plates(part) == {x.licensePlate.value};
    }
  }

  lemma EndsAreBoundary(q: Query, rows: seq<Row>, r: Row, part: seq<Row>)
    requires forall x :: x in part <==> OfTrip(q, rows, r, x)
    ensures (exists x | x in part && x.maxStopSequence.Some? :: HasBoundary(part, x.maxStopSequence.value))
            <==> BothEnds(q, rows, r)
  {
    if z: Row :| z in part && z.maxStopSequence.Some? && HasBoundary(part, z.maxStopSequence.value) {
      var m := z.maxStopSequence.value;
      var x: Row :| x in part && x.maxStopSequence == Some(m) && x.stopSequence == 2;
      var y: Row :| y in part && y.maxStopSequence == Some(m) && y.stopSequence == m - 1;
      assert OfTrip(q, rows, r, x) && OfTrip(q, rows, r, y);
    }
    if BothEnds(q, rows, r) {
      var x, y :| OfTrip(q, rows, r, x) && OfTrip(q, rows, r, y)
                  && x.stopSequence == 2 && x.maxStopSequence.Some? && x.maxStopSequence == y.maxStopSequence
                  && y.stopSequence == y.maxStopSequence.value - 1;
      assert x in part && y in part;
      assert HasBoundary(part, x.maxStopSequence.value);
    }
  }

  // ----- telescoping -----

  /** What LAG generates along a list of rows in stop order, summed up. */
  function SumOfHops(xs: seq<Row>): int {
    if |xs| < 2 then 0
    else SumOfHops(xs[..|xs| - 1]) + xs[|xs| - 1].delaySeconds - xs[|xs| - 2].delaySeconds
  }

  lemma {:induction false} HopsTelescope(xs: seq<Row>)
    requires xs != []
    ensures SumOfHops(xs) == xs[|xs| - 1].delaySeconds - xs[0].delaySeconds
  {
    if |xs| >= 2 {
      HopsTelescope(xs[..|xs| - 1]);
    }
  }

  lemma {:induction false} SomeHopReachesTheAverage(xs: seq<Row>) returns (i: nat)
    requires |xs| >= 2
    ensures 0 < i < |xs|
    ensures (xs[i].delaySeconds - xs[i - 1].delaySeconds) * (|xs| - 1) >= SumOfHops(xs)
  {
    if |xs| == 2 {
      i := 1;
      assert xs[..1][..1] == xs[..1] && SumOfHops(xs[..1]) == 0;
    } else {
      var front, n := xs[..|xs| - 1], |xs| - 2;
      i := SomeHopReachesTheAverage(front);
      var a, d := xs[i].delaySeconds - xs[i - 1].delaySeconds, xs[|xs| - 1].delaySeconds - xs[|xs| - 2].delaySeconds;
      assert a * n >= SumOfHops(front);
      LargerReachesMore(a, d, n, SumOfHops(front));
      if d > a {
        i := |xs| - 1;
      }
    }
  }

  lemma LargerReachesMore(a: int, d: int, n: nat, sum: int)
    requires a * n >= sum
    ensures d <= a ==> a * (n + 1) >= sum + d
    ensures d > a ==> d * (n + 1) >= sum + d
  {
    if d > a {
      MulMonotone(a, d, n);
    }
  }

  lemma MulMonotone(a: int, d: int, n: nat)
    requires a <= d
    ensures a * n <= d * n
  {}

  ghost predicate HasStop(xs: seq<Row>, k: int) {
    exists x :: x in xs && x.stopSequence == k
  }

  /** Every stop of the trip between the first and the last is among its filtered rows. */
  ghost predicate Complete(q: Query, rows: seq<Row>, r: Row, m: int) {
    forall k | 2 <= k < m :: HasStop(PartitionOf(Filtered(q, rows), r), k)
  }

  lemma {:induction false} ConsecutiveStops(xs: seq<Row>, i: nat)
    requires StrictlyOrdered(xs) && i < |xs| && xs[0].stopSequence == 2
    requires forall k | 2 <= k <= xs[|xs| - 1].stopSequence :: HasStop(xs, k)
    ensures xs[i].stopSequence == 2 + i
  {
    if i > 0 {
      ConsecutiveStops(xs, i - 1);
      var k := 2 + i;
      assert k <= xs[i].stopSequence && xs[i].stopSequence <= xs[|xs| - 1].stopSequence;
      assert HasStop(xs, k);
      var x :| x in xs && x.stopSequence == k;
      var j :| 0 <= j < |xs| && xs[j] == x;
      assert i <= j;
    }
  }

  /** When a trip's rows agree on its length and none of its stops 2..m-1 is missing, they stand in
      stop order without a gap. */
  lemma CompleteTripHasNoGap(q: Query, rows: seq<Row>, o: Route, m: int)
    requires Unique(rows) && IsRoute(q, rows, o)
    requires AgreeOnMax(q, rows, o.carrier, m) && Complete(q, rows, o.carrier, m)
    ensures var ordered := Ordered(Filtered(q, rows), o.carrier);
            |ordered| == m - 2 && forall i | 0 <= i < |ordered| :: ordered[i].stopSequence == 2 + i
  {
    var filtered := Filtered(q, rows);
    var ordered := Ordered(filtered, o.carrier);
    ReportedPartition(q, rows, o.carrier);
    AgreeingTripRunsToPenultimate(q, rows, o, m);
    forall k | 2 <= k <= ordered[|ordered| - 1].stopSequence
      ensures HasStop(ordered, k)
    {
      assert HasStop(PartitionOf(filtered, o.carrier), k);
      var x :| x in PartitionOf(filtered, o.carrier) && x.stopSequence == k;
      assert x in ordered;
    }
    forall i | 0 <= i < |ordered|
      ensures ordered[i].stopSequence == 2 + i
    {
      ConsecutiveStops(ordered, i);
    }
    assert ordered[|ordered| - 1].stopSequence == 2 + (|ordered| - 1);
  }

  /** The delay reported for a trip is the sum of what is generated from each of its rows to the
      next, gaps or not. */
  lemma RouteDelayIsSumOfHops(q: Query, rows: seq<Row>, o: Route)
    requires Unique(rows) && IsRoute(q, rows, o)
    ensures o.GeneratedDelay() == SumOfHops(Ordered(Filtered(q, rows), o.carrier))
  {
    var filtered := Filtered(q, rows);
    ReportedPartition(q, rows, o.carrier);
    HopsTelescope(Ordered(filtered, o.carrier));
  }

  /** From each row of a partition to the next is what LAG generates. */
  lemma LagAlongPartition(filtered: seq<Row>, r: Row, i: nat)
    requires Unique(filtered) && 0 < i < |Ordered(filtered, r)|
    ensures Lag(filtered, Ordered(filtered, r)[i]) == Some(Ordered(filtered, r)[i - 1])
  {
    var ordered := Ordered(filtered, r);
    OrderedIsStrict(filtered, r);
    assert ordered[i] in ordered;
    BeforeAt(ordered, i);
    SamePartitionSameRows(filtered, ordered[i], r);
  }

  /** LAG pairs the row with the stop before it, and the hop generates at least the n-th part of
      the total. */
  predicate CarriesShare(filtered: seq<Row>, to: Row, n: int, total: int) {
    var lag := Lag(filtered, to);
    && lag.Some? && to.stopSequence == lag.value.stopSequence + 1
    && (to.delaySeconds - lag.value.delaySeconds) * n >= total
  }

  /** On a complete trip of more than three stops, some hop between neighbouring stops, as LAG sees
      it, generates at least the average of the reported delay over the trip's m-3 hops. */
  lemma SomeHopExplainsTheRoute(q: Query, rows: seq<Row>, o: Route, m: int)
    requires Unique(rows) && IsRoute(q, rows, o)
    requires AgreeOnMax(q, rows, o.carrier, m) && Complete(q, rows, o.carrier, m) && m > 3
    ensures exists to :: to in Filtered(q, rows) && SamePartition(to, o.carrier)
                         && CarriesShare(Filtered(q, rows), to, m - 3, o.GeneratedDelay())
  {
    var filtered := Filtered(q, rows);
    var ordered := Ordered(filtered, o.carrier);
    CompleteTripHasNoGap(q, rows, o, m);
    RouteDelayIsSumOfHops(q, rows, o);
    var i := SomeHopReachesTheAverage(ordered);
    FilteredExact(q, rows);
    LagAlongPartition(filtered, o.carrier, i);
    HopCarriesShare(filtered, ordered, i, o.GeneratedDelay());
    OrderedMember(q, rows, o.carrier, i);
  }

  lemma HopCarriesShare(filtered: seq<Row>, ordered: seq<Row>, i: nat, total: int)
    requires 0 < i < |ordered| && Lag(filtered, ordered[i]) == Some(ordered[i - 1])
    requires ordered[i].stopSequence == ordered[i - 1].stopSequence + 1
    requires (ordered[i].delaySeconds - ordered[i - 1].delaySeconds) * (|ordered| - 1) >= total
    ensures CarriesShare(filtered, ordered[i], |ordered| - 1, total)
  {}

  lemma OrderedMember(q: Query, rows: seq<Row>, r: Row, i: nat)
    requires Unique(rows) && r in Filtered(q, rows) && i < |Ordered(Filtered(q, rows), r)|
    ensures var x := Ordered(Filtered(q, rows), r)[i];
            x in Filtered(q, rows) && SamePartition(x, r)
  {
    ReportedPartition(q, rows, r);
    FilteredExact(q, rows);
    assert Ordered(Filtered(q, rows), r)[i] in Ordered(Filtered(q, rows), r);
  }

  // ----- when a trip's rows disagree on the maximum -----

  function StopRow(stopSequence: int, max: int): Row {
    Row("t", 0, stopSequence, "S", None, 0, "1", Some("p"), 0, 0, STOPPED_AT, Some(max), false)
  }

  function GrownTrip(): seq<Row> {
    [StopRow(2, 5), StopRow(4, 5), StopRow(6, 8)]
  }

  const ALL := Query("1", 0, 0, false)

  lemma GrownTripRows(x: Row)
    ensures OfTrip(ALL, GrownTrip(), StopRow(2, 5), x) <==> x in GrownTrip()
    ensures x in GrownTrip() <==> x == StopRow(2, 5) || x == StopRow(4, 5) || x == StopRow(6, 8)
  {
    var rows := GrownTrip();
    assert rows[0] == StopRow(2, 5) && rows[1] == StopRow(4, 5) && rows[2] == StopRow(6, 8);
  }

  lemma GrownTripIsOneVehicle()
    ensures OneVehicle(ALL, GrownTrip(), StopRow(2, 5))
  {
    var r := StopRow(2, 5);
    GrownTripRows(r);
    forall y | OfTrip(ALL, GrownTrip(), r, y)
      ensures y.licensePlate == Some("p")
    {
      GrownTripRows(y);
    }
    assert OfTrip(ALL, GrownTrip(), r, r);
  }

  lemma GrownTripHasBothEnds()
    ensures BothEnds(ALL, GrownTrip(), StopRow(2, 5))
  {
    var x, y := StopRow(2, 5), StopRow(4, 5);
    GrownTripRows(x);
    GrownTripRows(y);
    assert OfTrip(ALL, GrownTrip(), x, x) && OfTrip(ALL, GrownTrip(), x, y);
  }

  lemma GrownTripIsUnique()
    ensures Unique(GrownTrip())
  {}

  lemma GrownTripIsRoute() returns (o: Route)
    ensures IsRoute(ALL, GrownTrip(), o) && o.last.stopSequence == 6
  {
    o := Route(StopRow(2, 5), StopRow(2, 5), StopRow(6, 8));
    GrownTripIsUnique();
    GrownTripIsOneVehicle();
    GrownTripHasBothEnds();
    forall x
      ensures OfTrip(ALL, GrownTrip(), o.carrier, x) ==> x.stopSequence <= 6
    {
      GrownTripRows(x);
    }
    GrownTripRows(o.first);
    GrownTripRows(o.last);
    RoutesAreWholeTrips(ALL, GrownTrip(), o);
  }

  /** A trip whose schedule grew while it was being recorded is reported with a last stop that is
      the penultimate of neither version. */
  lemma DisagreeingTripRunsElsewhere()
    ensures Unique(GrownTrip())
    ensures exists o :: IsRoute(ALL, GrownTrip(), o)
                        && o.last.stopSequence != 5 - 1 && o.last.stopSequence != 8 - 1
  {
    GrownTripIsUnique();
    var o := GrownTripIsRoute();
  }

  // ----- the answer -----

  /** One row for each of the trips along which the delay grew most: in order, no more than ten, and
      no trip is left out unless ten others grew by as much or more. */
  ghost predicate BestTrips(out: seq<Route>, choice: iset<Route>) {
    && OnePerPartition(out) && |out| <= 10 && (forall o | o in out :: o in choice)
    && (forall i, j | 0 <= i < j < |out| ::
          out[i].last.delaySeconds - out[i].first.delaySeconds >= out[j].last.delaySeconds - out[j].first.delaySeconds)
    && (forall o, a | o in choice && !Seen(out, o.carrier) && a in out ::
          a.last.delaySeconds - a.first.delaySeconds >= o.last.delaySeconds - o.first.delaySeconds)
    && (forall o | o in choice && !Seen(out, o.carrier) :: |out| == 10)
  }

  ghost function WholeTrips(q: Query, rows: seq<Row>): iset<Route> {
    iset o | WholeTrip(q, rows, o)
  }

  /** The answers to the query are exactly the best whole trips by generated delay. */
  lemma MaxRouteDelayIsTopTen(q: Query, rows: seq<Row>, out: seq<Route>)
    requires Unique(rows)
    ensures Answers(q, rows, out) <==> BestTrips(out, WholeTrips(q, rows))
    ensures Answers(q, rows, MaxRouteDelay(q, rows))
  {
    RoutesAreTheWholeTrips(q, rows);
    if picks :| IsDistinctOn(q, rows, picks) && IsTopTen(out, picks, Descending) {
      TopTenIsBest(q, rows, picks, out);
    }
    if BestTrips(out, WholeTrips(q, rows)) {
      BestIsTopTen(q, rows, out);
    }
    DistinctIsDistinctOn(q, rows);
    FirstTenOfSorted(Distinct(Filtered(q, rows), Filtered(q, rows)), Descending);
  }

  lemma RoutesAreTheWholeTrips(q: Query, rows: seq<Row>)
    requires Unique(rows)
    ensures WholeTrips(q, rows) == iset o | IsRoute(q, rows, o)
  {
    forall o: Route
      ensures IsRoute(q, rows, o) <==> WholeTrip(q, rows, o)
    {
      RoutesAreWholeTrips(q, rows, o);
    }
  }

  lemma OnePerPartitionNoRepeats(out: seq<Route>)
    requires OnePerPartition(out)
    ensures NoRepeats(out)
  {
    forall i, j | 0 <= i < j < |out|
      ensures out[i] != out[j]
    {
      assert !SamePartition(out[i].carrier, out[j].carrier);
    }
  }

  lemma TopTenIsBest(q: Query, rows: seq<Row>, picks: seq<Route>, out: seq<Route>)
    requires IsDistinctOn(q, rows, picks) && IsTopTen(out, picks, Descending)
    ensures BestTrips(out, iset o | IsRoute(q, rows, o))
  {
    OnePerPartitionNoRepeats(picks);
    TopTenMembers(out, picks, Descending);
    PartStaysOnePerPartition(picks, out);
    InFallingOrder(out);
    OthersAreNoBetter(q, rows, picks, out);
  }

  lemma OthersAreNoBetter(q: Query, rows: seq<Row>, picks: seq<Route>, out: seq<Route>)
    requires IsDistinctOn(q, rows, picks)
    requires forall b | b in picks && b !in out ::
               |out| == LIMIT && forall a | a in out :: Descending(a) <= Descending(b)
    ensures forall o | IsRoute(q, rows, o) && !Seen(out, o.carrier) :: |out| == LIMIT
    ensures forall o, a | IsRoute(q, rows, o) && !Seen(out, o.carrier) && a in out ::
              a.last.delaySeconds - a.first.delaySeconds >= o.last.delaySeconds - o.first.delaySeconds
  {
    forall o | IsRoute(q, rows, o) && !Seen(out, o.carrier)
      ensures |out| == LIMIT && forall a | a in out :: a.GeneratedDelay() >= o.GeneratedDelay()
    {
      LeftOutOfPicks(q, rows, picks, out, o);
    }
  }

  lemma InFallingOrder(out: seq<Route>)
    requires SortedBy(out, Descending)
    ensures forall i, j | 0 <= i < j < |out| ::
              out[i].last.delaySeconds - out[i].first.delaySeconds
              >= out[j].last.delaySeconds - out[j].first.delaySeconds
  {
    assert forall i, j | 0 <= i < j < |out| :: Descending(out[i]) <= Descending(out[j]);
  }

  lemma LeftOutOfPicks(q: Query, rows: seq<Row>, picks: seq<Route>, out: seq<Route>, o: Route)
    requires IsDistinctOn(q, rows, picks) && IsRoute(q, rows, o) && !Seen(out, o.carrier)
    requires forall b | b in picks && b !in out ::
               |out| == LIMIT && forall a | a in out :: Descending(a) <= Descending(b)
    ensures |out| == LIMIT && forall a | a in out :: a.GeneratedDelay() >= o.GeneratedDelay()
  {
    var p := PickFor(q, rows, picks, o);
    LeftOutRoute(picks, out, p, o);
  }

  lemma PickFor(q: Query, rows: seq<Row>, picks: seq<Route>, o: Route) returns (p: Route)
    requires IsDistinctOn(q, rows, picks) && IsRoute(q, rows, o)
    ensures p in picks && SamePartition(p.carrier, o.carrier) && p.GeneratedDelay() == o.GeneratedDelay()
  {
    assert Seen(picks, o.carrier);
    p :| p in picks && SamePartition(p.carrier, o.carrier);
    SamePartitionSameBounds(Filtered(q, rows), p.carrier, o.carrier);
  }

  lemma LeftOutRoute(picks: seq<Route>, out: seq<Route>, p: Route, o: Route)
    requires p in picks && SamePartition(p.carrier, o.carrier) && p.GeneratedDelay() == o.GeneratedDelay()
    requires !Seen(out, o.carrier)
    requires forall b | b in picks && b !in out ::
               |out| == LIMIT && forall a | a in out :: Descending(a) <= Descending(b)
    ensures |out| == LIMIT && forall a | a in out :: a.GeneratedDelay() >= o.GeneratedDelay()
  {
    assert p !in out;
    forall a | a in out
      ensures a.GeneratedDelay() >= o.GeneratedDelay()
    {
      assert Descending(a) <= Descending(p);
    }
  }

  lemma PartStaysOnePerPartition(picks: seq<Route>, out: seq<Route>)
    requires OnePerPartition(picks) && NoRepeats(out) && forall o | o in out :: o in picks
    ensures OnePerPartition(out)
  {
    forall i, j | 0 <= i < j < |out|
      ensures !SamePartition(out[i].carrier, out[j].carrier)
    {
      assert out[i] in picks && out[j] in picks && out[i] != out[j];
      var m :| 0 <= m < |picks| && picks[m] == out[i];
      var n :| 0 <= n < |picks| && picks[n] == out[j];
    }
  }

  /** The best trips, with one row each for those left out behind them, are what DISTINCT ON might
      have kept. */
  lemma BestIsTopTen(q: Query, rows: seq<Row>, out: seq<Route>)
    requires BestTrips(out, iset o | IsRoute(q, rows, o))
    ensures Answers(q, rows, out)
  {
    var rest := LeftBehind(q, rows, out);
    assert IsTopTen(out, out + rest, Descending) by {
      RestComesLast(q, rows, out, rest);
    }
  }

  lemma RestComesLast(q: Query, rows: seq<Row>, out: seq<Route>, rest: seq<Route>)
    requires BestTrips(out, iset o | IsRoute(q, rows, o))
    requires forall o | o in rest :: IsRoute(q, rows, o) && !Seen(out, o.carrier)
    ensures IsTopTen(out, out + rest, Descending)
  {
    if rest != [] {
      assert rest[0] in rest;
    }
    forall a, b | a in out && b in rest
      ensures Descending(a) <= Descending(b)
    {
      assert IsRoute(q, rows, b) && !Seen(out, b.carrier);
    }
    TopTenBeforeRest(out, rest, Descending);
  }

  lemma LeftBehind(q: Query, rows: seq<Row>, out: seq<Route>) returns (rest: seq<Route>)
    requires OnePerPartition(out) && forall o | o in out :: IsRoute(q, rows, o)
    ensures IsDistinctOn(q, rows, out + rest)
    ensures forall o | o in rest :: IsRoute(q, rows, o) && !Seen(out, o.carrier)
  {
    var all := Distinct(Filtered(q, rows), Filtered(q, rows));
    DistinctIsDistinctOn(q, rows);
    var left: Route -> bool := (o: Route) => !Seen(out, o.carrier);
    rest := Where(all, left);
    WhereExact(all, left);
    WhereOnePerPartition(all, left);
    JoinsToDistinctOn(q, rows, all, out, rest);
  }

  lemma JoinsToDistinctOn(q: Query, rows: seq<Row>, all: seq<Route>, out: seq<Route>, rest: seq<Route>)
    requires IsDistinctOn(q, rows, all) && OnePerPartition(out) && OnePerPartition(rest)
    requires (forall o | o in out :: IsRoute(q, rows, o))
    requires forall o :: o in rest <==> o in all && !Seen(out, o.carrier)
    ensures IsDistinctOn(q, rows, out + rest)
  {
    var picks := out + rest;
    forall i, j | 0 <= i < j < |picks|
      ensures !SamePartition(picks[i].carrier, picks[j].carrier)
    {
      if i < |out| <= j {
        assert picks[i] in out && picks[j] in rest;
      }
    }
    forall r | r in Filtered(q, rows) && Bounds(Filtered(q, rows), r).Some?
      ensures Seen(picks, r)
    {
      assert Seen(all, r);
      var o :| o in all && SamePartition(o.carrier, r);
      if o in rest {
        assert o in picks;
      } else {
        var o' :| o' in out && SamePartition(o'.carrier, o.carrier);
        assert o' in picks && SamePartition(o'.carrier, r);
      }
    }
  }

  lemma {:induction false} WhereOnePerPartition(xs: seq<Route>, keep: Route -> bool)
    requires OnePerPartition(xs)
    ensures OnePerPartition(Where(xs, keep))
  {
    if xs != [] {
      var front, last := xs[..|xs| - 1], xs[|xs| - 1];
      assert forall i | 0 <= i < |front| :: front[i] == xs[i];
      WhereOnePerPartition(front, keep);
      WhereExact(front, keep);
      var kept := Where(front, keep);
      forall i | 0 <= i < |kept|
        ensures !SamePartition(kept[i].carrier, last.carrier)
      {
        assert kept[i] in front;
        var j :| 0 <= j < |front| && front[j] == kept[i];
        assert xs[j] == kept[i];
      }
    }
  }
}
