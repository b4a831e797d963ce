/** Where the detector's guarantees stop: runs that show why each of them carries its condition. */
module Limits {
  import opened Domain
  import opened GtfsStatic
  import opened Detection
  import opened SaveLog
  import opened ServiceDay
  import opened Writer
  import opened Pipeline

  /** A trip of two stops, a minute apart at 10:00, known to two agencies. */
  function TwoStops(): StaticData {
    StaticData(
      0,
      map["t" := Trip("1", None, None)],
      map["s" := Stop("S", None)],
      map["t" := [StopTime(1, "s", 36000), StopTime(2, "s", 36060)]],
      map[Mpk := "h", Mobilis := "h"])
  }

  /** A vehicle of the agency standing at a stop of the trip. */
  function Standing(agency: Agency, stopSequence: int, at: Instant): VehiclePosition {
    VehiclePosition(agency, "t", "", Some("p"), Some(stopSequence), Some(StoppedAt), at)
  }

  function Scheduled(stopSequence: int): int {
    if stopSequence == 1 then 36000 else 36060
  }

  function EventOf(agency: Agency, stopSequence: int, at: Instant): StopEvent {
    StopEvent(agency, "t", 0, stopSequence, "s", "1", "S", None, None, None, Scheduled(stopSequence), at,
              at - Scheduled(stopSequence), None, Some("p"), ByStoppedAt, false, "h", 2)
  }

  lemma TwoStopsLookups()
    ensures var data := TwoStops();
            && data.StopTimeAt("t", 1) == Some(StopTime(1, "s", 36000))
            && data.StopTimeAt("t", 2) == Some(StopTime(2, "s", 36060))
            && data.MaxStopSequence("t") == Some(2)
  {
    var rows := TwoStops().StopTimesForTrip("t");
    assert rows[..1] == [StopTime(1, "s", 36000)];
    assert rows[..1][..0] == [];
    assert MaxOf(rows[..1]) == Some(1);
  }

  /** Standing at a stop that is new to the store and neither early nor ahead of its saved
      predecessor yields that stop's event and nothing else. */
  lemma StandingIsReturned(stores: Stores, agency: Agency, q: int, at: Instant)
    requires q == 1 || q == 2
    requires agency in TwoStops().hashes && 36000 <= at < 39600
    requires var key := VehicleKey(agency, "p");
             key in stores.vehicles ==>
               stores.vehicles[key].tripId == "t" && stores.vehicles[key].currentStopSequence >= q
    requires SavedKey(TripDay(agency, "t", 0), q) !in stores.saved
    requires q == 2 ==> SavedKey(TripDay(agency, "t", 0), 1) !in stores.saved && at >= 36060
    ensures var out := ProcessedUpdate(TwoStops(), stores, Standing(agency, q, at));
            && out.Marked() == [EventOf(agency, q, at)] == out.returned
            && out.stores.saved ==
                 stores.saved[SavedKey(TripDay(agency, "t", 0), q) := SavedData(at - Scheduled(q), at)]
            && out.stores.vehicles == stores.vehicles[VehicleKey(agency, "p") := StateOf(Standing(agency, q, at))]
  {
    StandingYieldsOne(stores, agency, q, at);
    StandingIsAcceptable(stores.saved, agency, q, at);
    SingleDetection(TwoStops(), stores, Standing(agency, q, at), EventOf(agency, q, at));
  }

  lemma StandingYieldsOne(stores: Stores, agency: Agency, q: int, at: Instant)
    requires q == 1 || q == 2
    requires agency in TwoStops().hashes && 36000 <= at < 39600
    requires var key := VehicleKey(agency, "p");
             key in stores.vehicles ==>
               stores.vehicles[key].tripId == "t" && stores.vehicles[key].currentStopSequence >= q
    requires SavedKey(TripDay(agency, "t", 0), q) !in stores.saved
    ensures Recorded(TwoStops(), Standing(agency, q, at)) && !ChangesTrip(stores, Standing(agency, q, at))
    ensures var ctx := ContextOf(TwoStops(), stores.vehicles, Standing(agency, q, at));
            && ctx.serviceDate == 0
            && Detected(TwoStops(), stores.saved, stores.predictions, ctx) == [EventOf(agency, q, at)]
  {
    StandingIsRecorded(agency, q, at);
    StandingIsDetected(stores, ContextOf(TwoStops(), stores.vehicles, Standing(agency, q, at)), agency, q, at);
  }

  lemma StandingIsRecorded(agency: Agency, q: int, at: Instant)
    requires q == 1 || q == 2
    requires 36000 <= at < 39600
    ensures var data, vp := TwoStops(), Standing(agency, q, at);
            && Recorded(data, vp)
            && data.StopTimeAt("t", q).value == StopTime(q, "s", Scheduled(q))
            && ServiceDate(data.tz, at, Scheduled(q)) == 0
  {
    TwoStopsLookups();
  }

  lemma StandingIsAcceptable(saved: SavedStore, agency: Agency, q: int, at: Instant)
    requires q == 1 || q == 2
    requires 36000 <= at < 39600
    requires q == 2 ==> SavedKey(TripDay(agency, "t", 0), 1) !in saved && at >= 36060
    ensures var e := EventOf(agency, q, at);
            FiledUnder(e, agency, "t", Some(0)) && Acceptable(saved, e, DayOf(e))
  {}

  /** A position that yields one acceptable event marks and returns just that. */
  lemma SingleDetection(data: StaticData, stores: Stores, vp: VehiclePosition, e: StopEvent)
    requires Recorded(data, vp) && !ChangesTrip(stores, vp)
    requires var ctx := ContextOf(data, stores.vehicles, vp);
             && Detected(data, stores.saved, stores.predictions, ctx) == [e]
             && FiledUnder(e, vp.agency, vp.tripId, Some(ctx.serviceDate)) && Acceptable(stores.saved, e, DayOf(e))
    ensures var out := ProcessedUpdate(data, stores, vp);
            && out.Marked() == [e] == out.returned
            && out.stores.saved == stores.saved[EventKey(e) := DataOf(e)]
            && out.stores.vehicles == stores.vehicles[VehicleKey(vp.agency, vp.licensePlate.value) := StateOf(vp)]
  {
    PersistSingle(stores.saved, e, vp.agency, vp.tripId, Some(ContextOf(data, stores.vehicles, vp).serviceDate));
  }

  lemma StandingIsDetected(stores: Stores, ctx: Context, agency: Agency, q: int, at: Instant)
    requires (q == 1 || q == 2) && agency in TwoStops().hashes && 36000 <= at < 39600
    requires ctx.vp == Standing(agency, q, at) && ctx.serviceDate == 0 && ctx.stopSequence == q
    requires ctx.trip == TwoStops().trips["t"] && ctx.stopTime == StopTime(q, "s", Scheduled(q))
    requires ctx.prevState.Some? ==> ctx.prevState.value.tripId == "t" && ctx.prevState.value.currentStopSequence >= q
    requires SavedKey(TripDay(agency, "t", 0), q) !in stores.saved
    ensures Detected(TwoStops(), stores.saved, stores.predictions, ctx) == [EventOf(agency, q, at)]
  {
    TwoStopsLookups();
    assert StoppedAtEvents(TwoStops(), stores.saved, ctx) == [EventOf(agency, q, at)];
    assert SeqJumpEvents(TwoStops(), stores.saved, stores.predictions, ctx) == [];
  }

  lemma PersistSingle(saved: SavedStore, e: StopEvent, agency: Agency, tripId: string, serviceDate: Option<Date>)
    requires FiledUnder(e, agency, tripId, serviceDate) && Acceptable(saved, e, DayOf(e))
    ensures Persist(saved, [e], agency, tripId, serviceDate) == Persisted(saved[EventKey(e) := DataOf(e)], [e])
  {
    PersistOne(saved, [e], agency, tripId, serviceDate);
    assert [e][..0] == [];
  }

  lemma TwoSteps(data: StaticData, a: Input, b: Input)
    ensures var first := Step(data, EMPTY, a);
            var second := Step(data, first.stores, b);
            && RunMarked(data, EMPTY, [a, b]) == first.Marked() + second.Marked()
            && RunReturned(data, EMPTY, [a, b]) == first.returned + second.returned
  {
    assert [a, b][..1] == [a];
    assert [a][..0] == [];
    assert RunStores(data, EMPTY, [a]) == Step(data, EMPTY, a).stores;
    assert RunMarked(data, EMPTY, [a]) == Step(data, EMPTY, a).Marked();
    assert RunReturned(data, EMPTY, [a]) == Step(data, EMPTY, a).returned;
  }

  /** Saved stops are not ordered in time when the earlier stop is saved later: a vehicle that
      stands at stop 2 and then at stop 1 has both events saved, stop 1 at the later time. */
  lemma StopsSavedBackwardsAreNotOrdered()
    ensures var log := RunMarked(TwoStops(), EMPTY,
                                 [Position(Standing(Mpk, 2, 36060)), Position(Standing(Mpk, 1, 36120))]);
            && |log| == 2 && DayOf(log[0]) == DayOf(log[1])
            && log[1].stopSequence == 1 && log[0].stopSequence == 2
            && log[0].eventTime < log[1].eventTime
  {
    var a, b := Standing(Mpk, 2, 36060), Standing(Mpk, 1, 36120);
    StandingIsReturned(EMPTY, Mpk, 2, 36060);
    StandingIsReturned(ProcessedUpdate(TwoStops(), EMPTY, a).stores, Mpk, 1, 36120);
    TwoSteps(TwoStops(), Position(a), Position(b));
  }

  /** Two agencies report the same trip, the second one at stop q. */
  function SharedTrip(q: int): seq<Input> {
    [Position(Standing(Mpk, 1, 36000)), Position(Standing(Mobilis, q, 36060))]
  }

  lemma SharedTripReturns(q: int)
    requires q == 1 || q == 2
    ensures RunReturned(TwoStops(), EMPTY, SharedTrip(q)) == [EventOf(Mpk, 1, 36000), EventOf(Mobilis, q, 36060)]
  {
    var a, b := Standing(Mpk, 1, 36000), Standing(Mobilis, q, 36060);
    StandingIsReturned(EMPTY, Mpk, 1, 36000);
    StandingIsReturned(ProcessedUpdate(TwoStops(), EMPTY, a).stores, Mobilis, q, 36060);
    TwoSteps(TwoStops(), Position(a), Position(b));
  }

  lemma TripIsShared(q: int)
    ensures !OneAgencyPerTrip(SharedTrip(q))
  {
    var inputs := SharedTrip(q);
    assert inputs[0].vp.tripId == inputs[1].vp.tripId && inputs[0].vp.agency != inputs[1].vp.agency;
  }

  /** When two agencies report the same stop of the same trip, the second one's event is returned
      and then dropped by the table, whose key does not tell agencies apart. */
  lemma SharedTripLosesAnEvent()
    ensures var returned := RunReturned(TwoStops(), EMPTY, SharedTrip(1));
            && !OneAgencyPerTrip(SharedTrip(1))
            && |returned| == 2 && returned[1] !in InsertIgnore(map[], returned).Values
  {
    SharedTripReturns(1);
    TripIsShared(1);
    SecondIsDropped(EventOf(Mpk, 1, 36000), EventOf(Mobilis, 1, 36060));
  }

  /** Sharing a trip need not cost an event: the agencies may report different stops of it. */
  lemma SharedTripMayLoseNothing()
    ensures var returned := RunReturned(TwoStops(), EMPTY, SharedTrip(2));
            && !OneAgencyPerTrip(SharedTrip(2))
            && |returned| == 2 && HoldsExactly(InsertIgnore(map[], returned), returned)
  {
    SharedTripReturns(2);
    TripIsShared(2);
    DistinctRowsAllLand([EventOf(Mpk, 1, 36000), EventOf(Mobilis, 2, 36060)]);
  }

  lemma SecondIsDropped(a: StopEvent, b: StopEvent)
    requires RowKeyOf(a) == RowKeyOf(b)
    ensures InsertIgnore(map[], [a, b]) == map[RowKeyOf(a) := a]
  {
    assert [a, b][..1] == [a];
    assert [a][..0] == [];
    assert InsertIgnore(map[], [a]) == map[RowKeyOf(a) := a];
  }
}
