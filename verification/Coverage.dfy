/** Which stops of a trip get examined for an estimate while one vehicle serves it, how often, and
    what becomes of them. Other vehicles and the prediction feed may act in between. */
module Coverage {
  import opened Domain
  import opened GtfsStatic
  import opened Predictions
  import opened ServiceDay
  import opened Detection
  import opened SaveLog

  predicate IsPositionOf(input: Input, v: VehicleKey) {
    input.Position? && input.vp.agency == v.agency && input.vp.licensePlate == Some(v.licensePlate)
    && input.vp.stopSequence.Some?
  }

  /** The store files each vehicle's state under that vehicle. */
  ghost predicate WellKeyed(vehicles: VehicleStore) {
    forall k | k in vehicles :: VehicleKey(vehicles[k].agency, vehicles[k].licensePlate) == k
  }

  lemma StepKeepsWellKeyed(data: StaticData, stores: Stores, input: Input)
    requires WellKeyed(stores.vehicles)
    ensures WellKeyed(Step(data, stores, input).stores.vehicles)
  {}

  lemma {:induction false} RunKeepsWellKeyed(data: StaticData, stores: Stores, inputs: seq<Input>)
    requires WellKeyed(stores.vehicles)
    ensures WellKeyed(RunStores(data, stores, inputs).vehicles)
  {
    if inputs != [] {
      RunKeepsWellKeyed(data, stores, inputs[..|inputs| - 1]);
      StepKeepsWellKeyed(data, RunStores(data, stores, inputs[..|inputs| - 1]), inputs[|inputs| - 1]);
    }
  }

  /** What is known of a vehicle, from its own positions alone: the latest one that names a stop of
      a known trip, unless a later one left that trip for a stop or trip unknown. */
  function Tracked(data: StaticData, inputs: seq<Input>, v: VehicleKey): Option<VehicleState> {
    if inputs == [] then None
    else
      var before, last := Tracked(data, inputs[..|inputs| - 1], v), inputs[|inputs| - 1];
      if !IsPositionOf(last, v) then before
      else if last.vp.tripId in data.trips && data.StopTimeAt(last.vp.tripId, last.vp.stopSequence.value).Some? then
        Some(VehicleState(v.agency, v.licensePlate, last.vp.tripId, last.vp.stopSequence.value, last.vp.timestamp))
      else if before.Some? && before.value.tripId != last.vp.tripId then None
      else before
  }

  /** In every run the stored state of a vehicle depends on that vehicle's positions alone. */
  lemma {:induction false} VehiclesAreIndependent(data: StaticData, inputs: seq<Input>, v: VehicleKey)
    ensures Get(RunStores(data, EMPTY, inputs).vehicles, v) == Tracked(data, inputs, v)
  {
    if inputs != [] {
      var front, last := inputs[..|inputs| - 1], inputs[|inputs| - 1];
      VehiclesAreIndependent(data, front, v);
      RunKeepsWellKeyed(data, EMPTY, front);
      StepTracks(data, RunStores(data, EMPTY, front), last, v);
    }
  }

  lemma StepTracks(data: StaticData, stores: Stores, input: Input, v: VehicleKey)
    requires WellKeyed(stores.vehicles)
    ensures var before := Get(stores.vehicles, v);
            Get(Step(data, stores, input).stores.vehicles, v) ==
              if !IsPositionOf(input, v) then before
              else if Recorded(data, input.vp) then Some(StateOf(input.vp))
              else if before.Some? && before.value.tripId != input.vp.tripId then None
              else before
  {}

  /** Vehicle `v` is being tracked on trip `trip`. */
  ghost predicate On(stores: Stores, v: VehicleKey, trip: string) {
    WellKeyed(stores.vehicles) && v in stores.vehicles && stores.vehicles[v].tripId == trip
  }

  function SeqOf(stores: Stores, v: VehicleKey): int
    requires v in stores.vehicles
  {
    stores.vehicles[v].currentStopSequence
  }

  /** Every position of the vehicle names this trip. */
  ghost predicate StaysOn(inputs: seq<Input>, v: VehicleKey, trip: string) {
    forall i | 0 <= i < |inputs| && IsPositionOf(inputs[i], v) :: inputs[i].vp.tripId == trip
  }

  /** The vehicle's recorded stop moves only when one of its positions names a stop of the trip. */
  lemma StepMovesVehicle(data: StaticData, stores: Stores, input: Input, v: VehicleKey, trip: string)
    requires On(stores, v, trip)
    requires IsPositionOf(input, v) ==> input.vp.tripId == trip
    ensures On(Step(data, stores, input).stores, v, trip)
    ensures SeqOf(Step(data, stores, input).stores, v) ==
              if IsPositionOf(input, v) && Recorded(data, input.vp) then input.vp.stopSequence.value
              else SeqOf(stores, v)
  {
    StepKeepsWellKeyed(data, stores, input);
  }

  lemma {:induction false} RunStaysOn(data: StaticData, stores: Stores, inputs: seq<Input>, v: VehicleKey, trip: string)
    requires On(stores, v, trip) && StaysOn(inputs, v, trip)
    ensures On(RunStores(data, stores, inputs), v, trip)
  {
    if inputs != [] {
      RunStaysOn(data, stores, inputs[..|inputs| - 1], v, trip);
      StepMovesVehicle(data, RunStores(data, stores, inputs[..|inputs| - 1]), inputs[|inputs| - 1], v, trip);
    }
  }

  // ----- examinations -----

  /** The step scans stop q of `trip` for a missed stop of vehicle v. */
  predicate JumpExamines(data: StaticData, stores: Stores, input: Input, v: VehicleKey, trip: string, q: int) {
    && IsPositionOf(input, v) && Recorded(data, input.vp) && input.vp.tripId == trip
    && JumpWindow(ContextOf(data, stores.vehicles, input.vp).prevState, trip, input.vp.stopSequence.value).Has(q)
  }

  /** The step scans stop q of `trip` because vehicle v leaves the trip. */
  predicate FinalExamines(data: StaticData, stores: Stores, input: Input, v: VehicleKey, trip: string, q: int) {
    && IsPositionOf(input, v) && ChangesTrip(stores, input.vp)
    && stores.vehicles[v].tripId == trip
    && FinalWindow(data, stores.vehicles[v]).Has(q)
  }

  /** How often a run scans stop q of `trip` on behalf of vehicle v. */
  function Examinations(data: StaticData, stores: Stores, inputs: seq<Input>, v: VehicleKey, trip: string, q: int)
    : nat
  {
    if inputs == [] then 0
    else
      var front, last := inputs[..|inputs| - 1], inputs[|inputs| - 1];
      var before := RunStores(data, stores, front);
      Examinations(data, stores, front, v, trip, q)
      + Ones(JumpExamines(data, before, last, v, trip, q)) + Ones(FinalExamines(data, before, last, v, trip, q))
  }

  /** How often a run records vehicle v back at or before stop q after it was beyond it. */
  function FallsBack(data: StaticData, stores: Stores, inputs: seq<Input>, v: VehicleKey, q: int): nat {
    if inputs == [] then 0
    else
      var front := inputs[..|inputs| - 1];
      var before, after := RunStores(data, stores, front), RunStores(data, stores, inputs);
      FallsBack(data, stores, front, v, q)
      + Ones(v in before.vehicles && v in after.vehicles && SeqOf(after, v) <= q < SeqOf(before, v))
  }

  /** While a vehicle stays on a trip, the number of scans of a stop is exactly its net crossings
      of that stop plus the times it fell back over it. */
  lemma {:induction false} CrossingsBalance(data: StaticData, stores: Stores, inputs: seq<Input>, v: VehicleKey,
                                            trip: string, q: int)
    requires On(stores, v, trip) && StaysOn(inputs, v, trip)
    ensures On(RunStores(data, stores, inputs), v, trip)
    ensures var start, end := SeqOf(stores, v), SeqOf(RunStores(data, stores, inputs), v);
            Examinations(data, stores, inputs, v, trip, q) + Ones(end <= q < start)
            == FallsBack(data, stores, inputs, v, q) + Ones(start <= q < end)
  {
    RunStaysOn(data, stores, inputs, v, trip);
    if inputs != [] {
      var front, last := inputs[..|inputs| - 1], inputs[|inputs| - 1];
      CrossingsBalance(data, stores, front, v, trip, q);
      var before := RunStores(data, stores, front);
      StepMovesVehicle(data, before, last, v, trip);
      StepCrossing(data, before, last, v, trip, q);
    }
  }

  lemma StepCrossing(data: StaticData, before: Stores, input: Input, v: VehicleKey, trip: string, q: int)
    requires On(before, v, trip)
    requires IsPositionOf(input, v) ==> input.vp.tripId == trip
    requires var after := Step(data, before, input).stores;
             && v in after.vehicles
             && SeqOf(after, v) ==
                  if IsPositionOf(input, v) && Recorded(data, input.vp) then input.vp.stopSequence.value
                  else SeqOf(before, v)
    ensures var after := Step(data, before, input).stores;
            && !FinalExamines(data, before, input, v, trip, q)
            && (JumpExamines(data, before, input, v, trip, q) <==> SeqOf(before, v) <= q < SeqOf(after, v))
  {}

  /** The vehicle, tracked on `trip` through `inputs`, then reports a position on another trip. */
  ghost predicate Leg(stores: Stores, inputs: seq<Input>, departure: Input, v: VehicleKey, trip: string) {
    && On(stores, v, trip) && StaysOn(inputs, v, trip)
    && IsPositionOf(departure, v) && departure.vp.tripId != trip
  }

  /** From the stop where tracking began to the end of the trip, every stop is scanned exactly once
      unless the vehicle fell back over it, except the one it was last recorded at, which no scan
      reaches: the exact number of scans of every stop. */
  lemma LegScans(data: StaticData, stores: Stores, inputs: seq<Input>, departure: Input, v: VehicleKey, trip: string,
                 q: int)
    requires Leg(stores, inputs, departure, v, trip)
    requires trip in data.trips && data.MaxStopSequence(trip).Some?
    ensures On(RunStores(data, stores, inputs), v, trip)
    ensures var start, end := SeqOf(stores, v), SeqOf(RunStores(data, stores, inputs), v);
            start <= q <= data.MaxStopSequence(trip).value ==>
              Examinations(data, stores, inputs + [departure], v, trip, q)
              == FallsBack(data, stores, inputs, v, q) + Ones(q != end)
  {
    CrossingsBalance(data, stores, inputs, v, trip, q);
    var whole := inputs + [departure];
    assert whole[..|whole| - 1] == inputs;
  }

  /** Covered exactly once if and only if not the last recorded stop and never fallen back over;
      or the last recorded stop, and fallen back over once. */
  lemma ScannedOnceIff(data: StaticData, stores: Stores, inputs: seq<Input>, departure: Input, v: VehicleKey,
                       trip: string, q: int)
    requires Leg(stores, inputs, departure, v, trip)
    requires trip in data.trips && data.MaxStopSequence(trip).Some?
    requires SeqOf(stores, v) <= q <= data.MaxStopSequence(trip).value
    ensures On(RunStores(data, stores, inputs), v, trip)
    ensures Examinations(data, stores, inputs + [departure], v, trip, q) == 1
       <==> FallsBack(data, stores, inputs, v, q) == Ones(q == SeqOf(RunStores(data, stores, inputs), v))
  {
    LegScans(data, stores, inputs, departure, v, trip, q);
  }

  /** The recorded stop of the vehicle never decreases. */
  ghost predicate NeverFallsBack(data: StaticData, stores: Stores, inputs: seq<Input>, v: VehicleKey) {
    inputs != [] ==>
      var front := inputs[..|inputs| - 1];
      var before, after := RunStores(data, stores, front), RunStores(data, stores, inputs);
      && NeverFallsBack(data, stores, front, v)
      && (v in before.vehicles && v in after.vehicles ==> SeqOf(before, v) <= SeqOf(after, v))
  }

  lemma {:induction false} NoFallBack(data: StaticData, stores: Stores, inputs: seq<Input>, v: VehicleKey, q: int)
    requires NeverFallsBack(data, stores, inputs, v)
    ensures FallsBack(data, stores, inputs, v, q) == 0
  {
    if inputs != [] {
      NoFallBack(data, stores, inputs[..|inputs| - 1], v, q);
    }
  }

  /** On a trip whose recorded stops never decrease, the scans tile it: each stop from the first
      tracked one to the last of the trip is scanned exactly once, but for the last recorded one. */
  lemma ScansTileTheTrip(data: StaticData, stores: Stores, inputs: seq<Input>, departure: Input, v: VehicleKey,
                         trip: string, q: int)
    requires Leg(stores, inputs, departure, v, trip) && NeverFallsBack(data, stores, inputs, v)
    requires data.StopTimeAt(trip, q).Some? && SeqOf(stores, v) <= q
    requires trip in data.trips && data.MaxStopSequence(trip).Some?
    ensures On(RunStores(data, stores, inputs), v, trip)
    ensures Examinations(data, stores, inputs + [departure], v, trip, q)
            == Ones(q != SeqOf(RunStores(data, stores, inputs), v))
  {
    NoFallBack(data, stores, inputs, v, q);
    MaxBoundsLookups(data, trip, q);
    LegScans(data, stores, inputs, departure, v, trip, q);
  }

  // ----- what becomes of an examined stop -----

  /** The factory has no stop, no feed version or no length for the trip. */
  predicate FactoryRefuses(data: StaticData, agency: Agency, tripId: string, stopTime: StopTime) {
    || stopTime.stopId !in data.stops
    || agency !in data.hashes || data.hashes[agency] == ""
    || data.MaxStopSequence(tripId).None?
  }

  /** After its turn a fresh candidate is saved, or breaks an acceptance rule. */
  lemma {:induction false} CandidateIsSettled(data: StaticData, saved: SavedStore, raw: seq<StopEvent>, agency: Agency,
                                              tripId: string, serviceDate: Option<Date>, i: nat)
    requires Fresh(data, saved, raw, agency, tripId, serviceDate) && i < |raw|
    ensures var p := Persist(saved, raw, agency, tripId, serviceDate);
            && (EventKey(raw[i]) in p.saved || !Acceptable(p.saved, raw[i], DayOf(raw[i])))
            && (raw[i] in p.events <==> EventKey(raw[i]) in p.saved)
  {
    var front, last := raw[..|raw| - 1], raw[|raw| - 1];
    var before := Persist(saved, front, agency, tripId, serviceDate);
    var p := Persist(saved, raw, agency, tripId, serviceDate);
    LastIsSettled(data, saved, raw, agency, tripId, serviceDate);
    if i < |front| {
      FreshFront(data, saved, raw, agency, tripId, serviceDate);
      CandidateIsSettled(data, saved, front, agency, tripId, serviceDate, i);
      assert raw[i] == front[i] && EventKey(raw[i]) != EventKey(last);
      RefusedStaysRefused(before.saved, p.saved, raw[i]);
    }
  }

  lemma LastIsSettled(data: StaticData, saved: SavedStore, raw: seq<StopEvent>, agency: Agency, tripId: string,
                      serviceDate: Option<Date>)
    requires Fresh(data, saved, raw, agency, tripId, serviceDate) && raw != []
    ensures var last := raw[|raw| - 1];
            var before := Persist(saved, raw[..|raw| - 1], agency, tripId, serviceDate);
            var p := Persist(saved, raw, agency, tripId, serviceDate);
            && EventKey(last) !in before.saved && last !in before.events
            && p == (if Acceptable(before.saved, last, DayOf(last))
                     then Persisted(before.saved[EventKey(last) := DataOf(last)], before.events + [last]) else before)
  {
    var front, last := raw[..|raw| - 1], raw[|raw| - 1];
    var before := Persist(saved, front, agency, tripId, serviceDate);
    FreshFront(data, saved, raw, agency, tripId, serviceDate);
    PersistOne(saved, raw, agency, tripId, serviceDate);
    PersistMarksGoodLog(data, saved, front, agency, tripId, serviceDate);
    NewCandidateIsNew(saved, front, last, before.events);
    CandidateNotAlreadyIn(front, last, before.events);
  }

  /** The acceptance rules in closed form. */
  predicate MeetsRules(saved: SavedStore, e: StopEvent) {
    var previous := SavedKey(DayOf(e), e.stopSequence - 1);
    && (e.stopSequence == 1 || e.delaySeconds >= -180)
    && (e.stopSequence >= 2 && previous in saved ==>
          saved[previous].eventTime < e.eventTime && saved[previous].delay <= e.delaySeconds + 180)
  }

  /** A fresh candidate is saved and returned as marked if and only if it meets the rules against
      the store as it is when its turn comes. */
  lemma {:induction false} SavedIffMeetsRules(data: StaticData, saved: SavedStore, raw: seq<StopEvent>, agency: Agency,
                                              tripId: string, serviceDate: Option<Date>, i: nat)
    requires Fresh(data, saved, raw, agency, tripId, serviceDate) && i < |raw|
    ensures raw[i] in Persist(saved, raw, agency, tripId, serviceDate).events
       <==> MeetsRules(Persist(saved, raw[..i], agency, tripId, serviceDate).saved, raw[i])
  {
    var front, last := raw[..|raw| - 1], raw[|raw| - 1];
    FreshFront(data, saved, raw, agency, tripId, serviceDate);
    LastIsSettled(data, saved, raw, agency, tripId, serviceDate);
    if i < |front| {
      SavedIffMeetsRules(data, saved, front, agency, tripId, serviceDate, i);
      assert raw[..i] == front[..i] && raw[i] == front[i] && raw[i] != last;
    } else {
      AcceptableIffMeetsRules(Persist(saved, front, agency, tripId, serviceDate).saved, last);
    }
  }

  lemma AcceptableIffMeetsRules(saved: SavedStore, e: StopEvent)
    ensures Acceptable(saved, e, DayOf(e)) <==> MeetsRules(saved, e)
  {}

  lemma FreshFront(data: StaticData, saved: SavedStore, raw: seq<StopEvent>, agency: Agency, tripId: string,
                   serviceDate: Option<Date>)
    requires Fresh(data, saved, raw, agency, tripId, serviceDate) && raw != []
    ensures Fresh(data, saved, raw[..|raw| - 1], agency, tripId, serviceDate)
    ensures FiledUnder(raw[|raw| - 1], agency, tripId, serviceDate)
    ensures raw == raw[..|raw| - 1] + [raw[|raw| - 1]] && EventKey(raw[|raw| - 1]) !in saved
    ensures forall i | 0 <= i < |raw| - 1 :: EventKey(raw[i]) != EventKey(raw[|raw| - 1])
  {
    assert raw[|raw| - 1] in raw;
  }

  lemma CandidateNotAlreadyIn(front: seq<StopEvent>, e: StopEvent, marked: seq<StopEvent>)
    requires DistinctStops(front + [e])
    requires forall m | m in marked :: m in front
    ensures e !in marked
  {
    forall m | m in marked
      ensures m != e
    {
      var j :| 0 <= j < |front| && front[j] == m;
      assert (front + [e])[j] == m && (front + [e])[|front|] == e;
    }
  }

  /** A store that only gains entries never turns a refusal into an acceptance. */
  lemma RefusedStaysRefused(saved: SavedStore, more: SavedStore, e: StopEvent)
    requires forall k | k in saved :: k in more && more[k] == saved[k]
    ensures Acceptable(more, e, DayOf(e)) ==> Acceptable(saved, e, DayOf(e))
  {}

  /** After a position made the detector scan stop q for a jump: the stop is saved, or had no
      predicted arrival, or no event could be built, or the event at that arrival breaks an
      acceptance rule. */
  ghost predicate JumpSettled(data: StaticData, stores: Stores, vp: VehiclePosition, q: int)
    requires Recorded(data, vp)
  {
    var ctx, saved := ContextOf(data, stores.vehicles, vp), ProcessedUpdate(data, stores, vp).stores.saved;
    var stopTime := data.StopTimeAt(vp.tripId, q);
    var arrival := PredictedArrival(stores.predictions, TripKey(vp.agency, vp.tripId), q);
    || SavedKey(ctx.Day(), q) in saved
    || arrival.None?
    || stopTime.None? || FactoryRefuses(data, vp.agency, vp.tripId, stopTime.value)
    || exists e :: DayOf(e) == ctx.Day() && e.stopSequence == q && e.eventTime == arrival.value
                   && AgreesWithFeed(data, e) && !Acceptable(saved, e, ctx.Day())
  }

  lemma JumpSettles(data: StaticData, stores: Stores, vp: VehiclePosition, q: int)
    requires Recorded(data, vp)
    requires JumpWindow(ContextOf(data, stores.vehicles, vp).prevState, vp.tripId, vp.stopSequence.value).Has(q)
    ensures JumpSettled(data, stores, vp, q)
  {
    var ctx := ContextOf(data, stores.vehicles, vp);
    JumpCandidateExplained(data, stores.saved, stores.predictions, ctx, q);
    DetectionIsGood(data, stores, vp);
    MarkedDataStays(stores.saved, ProcessedUpdate(data, stores, vp).detection);
    if JumpEventAt(data, stores.saved, stores.predictions, ctx, q).Some? {
      JumpCandidateIsSettled(data, stores.saved, stores.predictions, ctx, q);
    }
  }

  lemma JumpCandidateExplained(data: StaticData, saved: SavedStore, predictions: PredictionStore, ctx: Context, q: int)
    requires Grounded(data, ctx)
    ensures var arrival := PredictedArrival(predictions, TripKey(ctx.vp.agency, ctx.vp.tripId), q);
            var stopTime := data.StopTimeAt(ctx.vp.tripId, q);
            match JumpEventAt(data, saved, predictions, ctx, q)
            case None =>
              || SavedKey(ctx.Day(), q) in saved
              || arrival.None?
              || stopTime.None? || FactoryRefuses(data, ctx.vp.agency, ctx.vp.tripId, stopTime.value)
            case Some(e) =>
              DayOf(e) == ctx.Day() && e.stopSequence == q && Some(e.eventTime) == arrival && AgreesWithFeed(data, e)
  {}

  lemma JumpCandidateIsSettled(data: StaticData, saved: SavedStore, predictions: PredictionStore, ctx: Context, q: int)
    requires Grounded(data, ctx)
    requires JumpWindow(ctx.prevState, ctx.vp.tripId, ctx.stopSequence).Has(q)
    requires JumpCandidate(data, saved, predictions, ctx)(q).Some?
    ensures var e := JumpCandidate(data, saved, predictions, ctx)(q).value;
            var p := Persist(saved, Detected(data, saved, predictions, ctx), ctx.vp.agency, ctx.vp.tripId,
                             Some(ctx.serviceDate));
            EventKey(e) in p.saved || !Acceptable(p.saved, e, DayOf(e))
  {
    var candidate := JumpCandidate(data, saved, predictions, ctx);
    var raw, e := Detected(data, saved, predictions, ctx), candidate(q).value;
    var w := JumpWindow(ctx.prevState, ctx.vp.tripId, ctx.stopSequence);
    JumpCandidatesFresh(data, saved, predictions, ctx);
    CollectExact(candidate, w.lo, w.hi);
    assert e in raw by { assert e in SeqJumpEvents(data, saved, predictions, ctx); }
    var i :| 0 <= i < |raw| && raw[i] == e;
    DetectedFresh(data, saved, predictions, ctx);
    CandidateIsSettled(data, saved, raw, ctx.vp.agency, ctx.vp.tripId, Some(ctx.serviceDate), i);
  }

  /** After a vehicle left the trip of `prev` and stop q was scanned for it: the stop is saved, or
      had no prediction, or no event could be built, or the event breaks an acceptance rule. Its
      arrival is the first one predicted for the last stop of the trip, the last one for others. */
  ghost predicate FinalSettled(data: StaticData, stores: Stores, vp: VehiclePosition, q: int)
    requires ChangesTrip(stores, vp)
    requires data.StopTimeAt(stores.vehicles[VehicleKey(vp.agency, vp.licensePlate.value)].tripId, q).Some?
  {
    var prev := stores.vehicles[VehicleKey(vp.agency, vp.licensePlate.value)];
    var stopTime, saved := data.StopTimeAt(prev.tripId, q).value, AfterTripChange(data, stores, vp).saved;
    var day := TripDay(prev.agency, prev.tripId, ServiceDate(data.tz, prev.lastTimestamp, stopTime.arrivalSeconds));
    var key := TripKey(prev.agency, prev.tripId);
    || SavedKey(day, q) in saved
    || PredictedArrival(stores.predictions, key, q).None?
    || FactoryRefuses(data, prev.agency, prev.tripId, stopTime)
    || exists e :: DayOf(e) == day && e.stopSequence == q
                   && e.eventTime == (if Some(q) == data.MaxStopSequence(prev.tripId)
                                      then stores.predictions[key].stops[q].firstSeenArrival
                                      else stores.predictions[key].stops[q].lastSeenArrival)
                   && AgreesWithFeed(data, e) && !Acceptable(saved, e, day)
  }

  lemma FinalSettles(data: StaticData, stores: Stores, vp: VehiclePosition, q: int)
    requires ChangesTrip(stores, vp)
    requires FinalWindow(data, stores.vehicles[VehicleKey(vp.agency, vp.licensePlate.value)]).Has(q)
    requires data.StopTimeAt(stores.vehicles[VehicleKey(vp.agency, vp.licensePlate.value)].tripId, q).Some?
    ensures FinalSettled(data, stores, vp, q)
  {
    var prev := stores.vehicles[VehicleKey(vp.agency, vp.licensePlate.value)];
    var candidate := FinalCandidate(data, stores.saved, stores.predictions, prev, data.trips[prev.tripId],
                                    data.MaxStopSequence(prev.tripId).value);
    FinalCandidateExplained(data, stores.saved, stores.predictions, prev, q);
    CompletionIsGood(data, stores, vp);
    MarkedDataStays(stores.saved, CompletionEvents(data, stores, vp));
    if candidate(q).Some? {
      FinalCandidateIsSettled(data, stores.saved, stores.predictions, prev, q);
    }
  }

  lemma FinalCandidateExplained(data: StaticData, saved: SavedStore, predictions: PredictionStore, prev: VehicleState,
                                q: int)
    requires prev.tripId in data.trips && data.MaxStopSequence(prev.tripId).Some?
    requires data.StopTimeAt(prev.tripId, q).Some?
    ensures var maxSeq := data.MaxStopSequence(prev.tripId);
            var candidate := FinalCandidate(data, saved, predictions, prev, data.trips[prev.tripId], maxSeq.value);
            var stopTime, key := data.StopTimeAt(prev.tripId, q).value, TripKey(prev.agency, prev.tripId);
            var day := TripDay(prev.agency, prev.tripId,
                               ServiceDate(data.tz, prev.lastTimestamp, stopTime.arrivalSeconds));
            match candidate(q)
            case None =>
              || SavedKey(day, q) in saved
              || PredictedArrival(predictions, key, q).None?
              || FactoryRefuses(data, prev.agency, prev.tripId, stopTime)
            case Some(e) =>
              && DayOf(e) == day && e.stopSequence == q && AgreesWithFeed(data, e)
              && key in predictions && q in predictions[key].stops
              && e.eventTime == if Some(q) == maxSeq then predictions[key].stops[q].firstSeenArrival
                                else predictions[key].stops[q].lastSeenArrival
  {}

  lemma FinalCandidateIsSettled(data: StaticData, saved: SavedStore, predictions: PredictionStore, prev: VehicleState,
                                q: int)
    requires prev.tripId in data.trips && data.MaxStopSequence(prev.tripId).Some?
    requires FinalWindow(data, prev).Has(q)
    requires FinalCandidate(data, saved, predictions, prev, data.trips[prev.tripId],
                            data.MaxStopSequence(prev.tripId).value)(q).Some?
    ensures var e := FinalCandidate(data, saved, predictions, prev, data.trips[prev.tripId],
                                    data.MaxStopSequence(prev.tripId).value)(q).value;
            var p := Persist(saved, FinalEvents(data, saved, predictions, prev), prev.agency, prev.tripId, None);
            EventKey(e) in p.saved || !Acceptable(p.saved, e, DayOf(e))
  {
    var maxSeq, trip := data.MaxStopSequence(prev.tripId).value, data.trips[prev.tripId];
    var candidate := FinalCandidate(data, saved, predictions, prev, trip, maxSeq);
    var raw, e := FinalEvents(data, saved, predictions, prev), candidate(q).value;
    FinalCandidatesFresh(data, saved, predictions, prev, trip, maxSeq);
    CollectExact(candidate, FinalWindow(data, prev).lo, FinalWindow(data, prev).hi);
    assert e in raw;
    var i :| 0 <= i < |raw| && raw[i] == e;
    FinalEventsFresh(data, saved, predictions, prev);
    CandidateIsSettled(data, saved, raw, prev.agency, prev.tripId, None, i);
  }

  /** The step scans stop q of the trip for vehicle v and settles it. */
  ghost predicate SettledBy(data: StaticData, stores: Stores, input: Input, v: VehicleKey, trip: string, q: int)
    requires data.StopTimeAt(trip, q).Some?
  {
    || (JumpExamines(data, stores, input, v, trip, q) && JumpSettled(data, stores, input.vp, q))
    || (FinalExamines(data, stores, input, v, trip, q) && FinalSettled(data, stores, input.vp, q))
  }

  lemma ExaminedIsSettled(data: StaticData, stores: Stores, input: Input, v: VehicleKey, trip: string, q: int)
    requires data.StopTimeAt(trip, q).Some?
    requires JumpExamines(data, stores, input, v, trip, q) || FinalExamines(data, stores, input, v, trip, q)
    ensures SettledBy(data, stores, input, v, trip, q)
  {
    if JumpExamines(data, stores, input, v, trip, q) {
      JumpSettles(data, stores, input.vp, q);
    } else {
      assert VehicleKey(input.vp.agency, input.vp.licensePlate.value) == v;
      FinalSettles(data, stores, input.vp, q);
    }
  }

  /** A stop that a run scans at all is settled by one of its steps. */
  lemma ScannedIsSettled(data: StaticData, stores: Stores, inputs: seq<Input>, v: VehicleKey, trip: string, q: int)
    returns (n: nat)
    requires data.StopTimeAt(trip, q).Some? && Examinations(data, stores, inputs, v, trip, q) >= 1
    ensures n < |inputs| && SettledBy(data, RunStores(data, stores, inputs[..n]), inputs[n], v, trip, q)
  {
    n := ScannedSomewhere(data, stores, inputs, v, trip, q);
    ExaminedIsSettled(data, RunStores(data, stores, inputs[..n]), inputs[n], v, trip, q);
  }

  lemma {:induction false} ScannedSomewhere(data: StaticData, stores: Stores, inputs: seq<Input>, v: VehicleKey,
                                            trip: string, q: int) returns (n: nat)
    requires Examinations(data, stores, inputs, v, trip, q) >= 1
    ensures n < |inputs|
    ensures var before := RunStores(data, stores, inputs[..n]);
            JumpExamines(data, before, inputs[n], v, trip, q) || FinalExamines(data, before, inputs[n], v, trip, q)
  {
    var front, last := inputs[..|inputs| - 1], inputs[|inputs| - 1];
    var before := RunStores(data, stores, front);
    if JumpExamines(data, before, last, v, trip, q) || FinalExamines(data, before, last, v, trip, q) {
      n := |front|;
    } else {
      n := ScannedSomewhere(data, stores, front, v, trip, q);
      assert front[..n] == inputs[..n];
    }
  }

  /** While a vehicle serves a trip without falling back and then leaves it, every stop of the trip
      from the first tracked one on gets settled by exactly one scan, but for the last recorded. */
  lemma TripIsSettled(data: StaticData, stores: Stores, inputs: seq<Input>, departure: Input, v: VehicleKey,
                      trip: string, q: int)
    returns (n: nat)
    requires Leg(stores, inputs, departure, v, trip) && NeverFallsBack(data, stores, inputs, v)
    requires data.StopTimeAt(trip, q).Some? && SeqOf(stores, v) <= q
    requires trip in data.trips && data.MaxStopSequence(trip).Some?
    requires On(RunStores(data, stores, inputs), v, trip) && q != SeqOf(RunStores(data, stores, inputs), v)
    ensures n <= |inputs|
    ensures SettledBy(data, RunStores(data, stores, (inputs + [departure])[..n]), (inputs + [departure])[n], v, trip, q)
    ensures Examinations(data, stores, inputs + [departure], v, trip, q) == 1
  {
    ScansTileTheTrip(data, stores, inputs, departure, v, trip, q);
    n := ScannedIsSettled(data, stores, inputs + [departure], v, trip, q);
  }
}
