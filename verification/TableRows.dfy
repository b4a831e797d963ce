/** The statistics read what the stop writer wrote: from vehicle positions to the answers. */
module TableRows {
  import opened Domain
  import opened Detection
  import opened GtfsStatic
  import opened Pipeline
  import opened SaveLog
  import opened ServiceDay
  import opened StatsRows
  import opened Writer
  import HopDelay
  import RouteDelay

  function MethodCode(m: DetectionMethod): int {
    match m
    case ByStoppedAt => 1
    case BySeqJump => 2
    case ByTimeout => 3
  }

  function RowOf(e: StopEvent): Row {
    Row(e.tripId, e.serviceDate, e.stopSequence, e.stopName, e.headsign, e.delaySeconds, e.lineNumber, e.licensePlate,
        e.plannedTime, e.eventTime, MethodCode(e.detectionMethod), Some(e.maxStopSequence), e.isEstimated)
  }

  function RowsOf(events: seq<StopEvent>): seq<Row> {
    seq(|events|, i requires 0 <= i < |events| => RowOf(events[i]))
  }

  lemma RowsOfExact(events: seq<StopEvent>)
    ensures forall r :: r in RowsOf(events) <==> exists e :: e in events && RowOf(e) == r
  {
    forall e | e in events
      ensures RowOf(e) in RowsOf(events)
    {
      var i :| 0 <= i < |events| && events[i] == e;
      assert RowsOf(events)[i] == RowOf(e);
    }
  }

  // ----- reading the table -----

  /** The table's rows in the order some scan meets them. */
  ghost predicate Scans(events: seq<StopEvent>, table: Table) {
    && (forall i, j | 0 <= i < j < |events| :: events[i] != events[j])
    && forall e :: e in events <==> e in table.Values
  }

  /** Rows whose events some run marked, no two for one stop of a trip and date. */
  ghost predicate FromRun(data: StaticData, inputs: seq<Input>, rows: seq<Row>) {
    && Unique(rows)
    && forall r | r in rows :: exists e :: e in RunMarked(data, EMPTY, inputs) && RowOf(e) == r
  }

  lemma DistinctRowsAreUnique(events: seq<StopEvent>)
    requires DistinctRows(events)
    ensures Unique(RowsOf(events))
  {
    var rows := RowsOf(events);
    forall i, j | 0 <= i < j < |rows|
      ensures !(SamePartition(rows[i], rows[j]) && rows[i].stopSequence == rows[j].stopSequence)
    {
      assert RowKeyOf(events[i]) != RowKeyOf(events[j]);
    }
  }

  /** The rows of the events a run returned are unique when no trip is shared between agencies. */
  lemma RunRowsUnique(data: StaticData, inputs: seq<Input>)
    requires OneAgencyPerTrip(inputs)
    ensures Unique(RowsOf(RunReturned(data, EMPTY, inputs)))
    ensures FromRun(data, inputs, RowsOf(RunReturned(data, EMPTY, inputs)))
  {
    ReturnedRowsAreDistinct(data, inputs);
    DistinctRowsAreUnique(RunReturned(data, EMPTY, inputs));
    RowsOfExact(RunReturned(data, EMPTY, inputs));
    RunReturnsMarked(data, EMPTY, inputs);
  }

  /** The rows of the table are unique whatever the stop writer has been through. Once all is
      flushed, and no trip is shared between agencies, they are the rows of the returned events. */
  lemma TableRowsUnique(data: StaticData, inputs: seq<Input>, table: Table, allFlushed: bool, events: seq<StopEvent>)
    requires Durable(data, inputs, table, allFlushed) && Scans(events, table)
    ensures FromRun(data, inputs, RowsOf(events))
    ensures allFlushed && OneAgencyPerTrip(inputs) ==>
              forall r :: r in RowsOf(events) <==> r in RowsOf(RunReturned(data, EMPTY, inputs))
  {
    var returned := RunReturned(data, EMPTY, inputs);
    var n :| 0 <= n <= |returned| && table == InsertIgnore(map[], returned[..n]);
    RowsWereInserted(returned[..n]);
    ScanIsDistinct(events, table);
    DistinctRowsAreUnique(events);
    RowsOfExact(events);
    RowsOfExact(returned);
    RunReturnsMarked(data, EMPTY, inputs);
    if allFlushed && OneAgencyPerTrip(inputs) {
      SameEvents(events, table, returned);
    }
  }

  lemma ScanIsDistinct(events: seq<StopEvent>, table: Table)
    requires Scans(events, table) && forall k | k in table :: RowKeyOf(table[k]) == k
    ensures DistinctRows(events)
  {
    forall i, j | 0 <= i < j < |events|
      ensures RowKeyOf(events[i]) != RowKeyOf(events[j])
    {
      assert events[i] in events && events[j] in events;
      var k :| k in table && table[k] == events[i];
      var l :| l in table && table[l] == events[j];
    }
  }

  lemma SameEvents(events: seq<StopEvent>, table: Table, returned: seq<StopEvent>)
    requires Scans(events, table) && HoldsExactly(table, returned)
    ensures forall e :: e in events <==> e in returned
  {
    forall e | e in returned
      ensures e in events
    {
      var i :| 0 <= i < |returned| && returned[i] == e;
      assert RowKeyOf(e) in table && table[RowKeyOf(e)] == e;
    }
    forall e | e in events
      ensures e in returned
    {
      var k :| k in table && table[k] == e;
    }
  }

  // ----- the answers -----

  /** A row recorded by a run says 1 for its method exactly if its stop was observed, and names a
      vehicle that reported the trip. */
  lemma RowLabels(data: StaticData, inputs: seq<Input>, rows: seq<Row>, r: Row)
    requires FromRun(data, inputs, rows) && r in rows
    ensures r.detectionMethod == 1 <==> !r.isEstimated
    ensures r.licensePlate.Some? && exists agency :: Reported(inputs, agency, r.tripId, r.licensePlate.value)
  {
    RunIsReported(data, inputs);
    var e :| e in RunMarked(data, EMPTY, inputs) && RowOf(e) == r;
    assert WellLabelled(inputs, e);
  }

  /** Scheduled seconds of a stop of a trip. */
  function Scheduled(data: StaticData, tripId: string, stopSequence: int): int {
    match data.StopTimeAt(tripId, stopSequence)
    case Some(row) => row.arrivalSeconds
    case None => 0
  }

  /** The difference of the delays at two of a trip's stops is the time taken between them less the
      time the static feed schedules for it. */
  predicate TakenLessScheduled(data: StaticData, from: Row, to: Row) {
    to.delaySeconds - from.delaySeconds ==
    (to.eventTime - from.eventTime)
    - (Scheduled(data, to.tripId, to.stopSequence) - Scheduled(data, from.tripId, from.stopSequence))
  }

  lemma RowFromRun(data: StaticData, inputs: seq<Input>, rows: seq<Row>, r: Row)
    requires FromRun(data, inputs, rows) && r in rows
    ensures r.delaySeconds ==
              r.eventTime - PlannedTime(data.tz, r.serviceDate, Scheduled(data, r.tripId, r.stopSequence))
    ensures r.maxStopSequence.Some? && r.maxStopSequence == data.MaxStopSequence(r.tripId)
    ensures r.tripId in data.trips && r.lineNumber == data.trips[r.tripId].routeShortName
    ensures r.headsign == data.trips[r.tripId].headsign
    ensures var row := data.StopTimeAt(r.tripId, r.stopSequence);
            && row.Some? && row.value.stopId in data.stops && r.stopName == data.stops[row.value.stopId].stopName
            && r.plannedTime == PlannedTime(data.tz, r.serviceDate, row.value.arrivalSeconds)
  {
    RunIsGood(data, EMPTY, inputs);
    var e :| e in RunMarked(data, EMPTY, inputs) && RowOf(e) == r;
  }

  lemma PairFromRun(data: StaticData, inputs: seq<Input>, rows: seq<Row>, from: Row, to: Row)
    requires FromRun(data, inputs, rows) && from in rows && to in rows && SamePartition(from, to)
    ensures TakenLessScheduled(data, from, to)
  {
    RowFromRun(data, inputs, rows, from);
    RowFromRun(data, inputs, rows, to);
  }

  /** On rows that a run recorded, the hop query answers with the largest growth among the pairs of
      the self-join. Each is of one vehicle that reported the trip, its growth is time taken less
      time scheduled, and it is flagged as estimated exactly if one of its stops was. */
  lemma HopQueryOnRun(data: StaticData, inputs: seq<Input>, q: Query, rows: seq<Row>, out: seq<HopDelay.Hop>)
    requires FromRun(data, inputs, rows)
    ensures HopDelay.Answers(q, rows, out) <==> HopDelay.LargestGrowth(out, HopDelay.SelfJoin(q, rows))
    ensures HopDelay.Answers(q, rows, out) ==> forall h | h in out ::
              && TakenLessScheduled(data, h.from, h.to)
              && (h.IsEstimated() <==> h.from.isEstimated || h.to.isEstimated)
              && RiddenBy(inputs, h.from, h.to)
  {
    HopDelay.MaxDelayIsTopTenOfSelfJoin(q, rows, out);
    if HopDelay.Answers(q, rows, out) {
      forall h | h in out
        ensures TakenLessScheduled(data, h.from, h.to)
        ensures h.IsEstimated() <==> h.from.isEstimated || h.to.isEstimated
        ensures RiddenBy(inputs, h.from, h.to)
      {
        assert HopDelay.Joined(q, rows, h);
        PairFromRun(data, inputs, rows, h.from, h.to);
        RowLabels(data, inputs, rows, h.from);
        RowLabels(data, inputs, rows, h.to);
      }
    }
  }

  /** Both rows are of one trip and date and of one vehicle, which reported the trip. */
  ghost predicate RiddenBy(inputs: seq<Input>, from: Row, to: Row) {
    && from.tripId == to.tripId && from.serviceDate == to.serviceDate
    && from.licensePlate.Some? && from.licensePlate == to.licensePlate
    && exists agency :: Reported(inputs, agency, from.tripId, from.licensePlate.value)
  }

  /** On rows that a run recorded, every reported route runs from stop 2 to the last stop but one
      of its trip, and its delay is time taken less time scheduled. */
  lemma RouteQueryOnRun(data: StaticData, inputs: seq<Input>, q: Query, rows: seq<Row>, out: seq<RouteDelay.Route>)
    requires FromRun(data, inputs, rows)
    ensures RouteDelay.Answers(q, rows, out) <==> RouteDelay.BestTrips(out, RouteDelay.WholeTrips(q, rows))
    ensures RouteDelay.Answers(q, rows, out) ==> forall o | o in out ::
              && data.MaxStopSequence(o.carrier.tripId).Some?
              && o.first.stopSequence == 2
              && o.last.stopSequence == data.MaxStopSequence(o.carrier.tripId).value - 1
              && TakenLessScheduled(data, o.first, o.last)
  {
    RouteDelay.MaxRouteDelayIsTopTen(q, rows, out);
    if RouteDelay.Answers(q, rows, out) {
      forall o | o in out
        ensures data.MaxStopSequence(o.carrier.tripId).Some?
        ensures o.first.stopSequence == 2
        ensures o.last.stopSequence == data.MaxStopSequence(o.carrier.tripId).value - 1
        ensures TakenLessScheduled(data, o.first, o.last)
      {
        assert RouteDelay.WholeTrip(q, rows, o);
        RouteFromRun(data, inputs, q, rows, o);
      }
    }
  }

  lemma RouteFromRun(data: StaticData, inputs: seq<Input>, q: Query, rows: seq<Row>, o: RouteDelay.Route)
    requires FromRun(data, inputs, rows) && RouteDelay.WholeTrip(q, rows, o)
    ensures data.MaxStopSequence(o.carrier.tripId).Some? && o.first.stopSequence == 2
    ensures o.last.stopSequence == data.MaxStopSequence(o.carrier.tripId).value - 1
    ensures TakenLessScheduled(data, o.first, o.last)
  {
    RowFromRun(data, inputs, rows, o.carrier);
    var m := data.MaxStopSequence(o.carrier.tripId).value;
    forall x | RouteDelay.OfTrip(q, rows, o.carrier, x)
      ensures x.maxStopSequence == Some(m)
    {
      RowFromRun(data, inputs, rows, x);
    }
    RouteDelay.RoutesAreWholeTrips(q, rows, o);
    RouteDelay.AgreeingTripRunsToPenultimate(q, rows, o, m);
    PairFromRun(data, inputs, rows, o.first, o.last);
  }

  /** From positions to statistics: after a last flush that succeeded, and when no trip is shared
      between agencies, both queries answer over the stop writer's table exactly as the events its
      detector returned call for, whatever failed on the way and in whatever order rows are read. */
  lemma StatisticsOfTheRun(data: StaticData, inputs: seq<Input>, table: Table, events: seq<StopEvent>, q: Query,
                           hops: seq<HopDelay.Hop>, routes: seq<RouteDelay.Route>)
    requires Durable(data, inputs, table, true) && OneAgencyPerTrip(inputs) && Scans(events, table)
    ensures var returned := RowsOf(RunReturned(data, EMPTY, inputs));
            && (HopDelay.Answers(q, RowsOf(events), hops)
                <==> HopDelay.LargestGrowth(hops, HopDelay.SelfJoin(q, returned)))
            && (RouteDelay.Answers(q, RowsOf(events), routes)
                <==> RouteDelay.BestTrips(routes, RouteDelay.WholeTrips(q, returned)))
  {
    var rows, returned := RowsOf(events), RowsOf(RunReturned(data, EMPTY, inputs));
    TableRowsUnique(data, inputs, table, true, events);
    HopQueryOnRun(data, inputs, q, rows, hops);
    RouteQueryOnRun(data, inputs, q, rows, routes);
    SameRowsSameJoin(q, rows, returned);
    SameRowsSameTrips(q, rows, returned);
  }

  lemma SameRowsSameJoin(q: Query, a: seq<Row>, b: seq<Row>)
    requires forall r :: r in a <==> r in b
    ensures HopDelay.SelfJoin(q, a) == HopDelay.SelfJoin(q, b)
  {
    forall h: HopDelay.Hop
      ensures HopDelay.Joined(q, a, h) <==> HopDelay.Joined(q, b, h)
    {}
  }

  lemma SameRowsSameTrips(q: Query, a: seq<Row>, b: seq<Row>)
    requires forall r :: r in a <==> r in b
    ensures RouteDelay.WholeTrips(q, a) == RouteDelay.WholeTrips(q, b)
  {
    forall o: RouteDelay.Route
      ensures RouteDelay.WholeTrip(q, a, o) <==> RouteDelay.WholeTrip(q, b, o)
    {
      assert forall r, x :: RouteDelay.OfTrip(q, a, r, x) <==> RouteDelay.OfTrip(q, b, r, x);
    }
  }
}
