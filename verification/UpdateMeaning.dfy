/** What one vehicle position marks as saved and returns, said without reference to how the
    detector works it out: for every event, if and only if. */
module UpdateMeaning {
  import opened Domain
  import opened GtfsStatic
  import opened Predictions
  import opened ServiceDay
  import opened Detection
  import opened SaveLog
  import opened Coverage
  import opened BatchPruning

  /** The feed knows all the event says of its stop, and has a version to name. */
  predicate Backed(data: StaticData, e: StopEvent) {
    AgreesWithFeed(data, e) && e.staticHash != ""
  }

  /** The event is of the vehicle and trip that the position reports. */
  predicate OfReport(e: StopEvent, vp: VehiclePosition) {
    && e.agency == vp.agency && e.tripId == vp.tripId && e.licensePlate == vp.licensePlate
    && e.vehicleId == if vp.vehicleId == "" then None else Some(vp.vehicleId)
  }

  /** The event is filed under the service date of being at stop q of its trip at a given time. */
  predicate DatedBy(data: StaticData, e: StopEvent, q: int, at: Instant) {
    && data.StopTimeAt(e.tripId, q).Some?
    && e.serviceDate == ServiceDate(data.tz, at, data.StopTimeAt(e.tripId, q).value.arrivalSeconds)
  }

  /** The stop that a standing vehicle reports, at the time it reports it. */
  predicate IsObserved(data: StaticData, saved: SavedStore, vp: VehiclePosition, e: StopEvent) {
    && vp.licensePlate.Some? && vp.status == Some(StoppedAt) && vp.stopSequence == Some(e.stopSequence)
    && OfReport(e, vp) && DatedBy(data, e, e.stopSequence, vp.timestamp)
    && e.eventTime == vp.timestamp && e.detectionMethod == ByStoppedAt && !e.isEstimated
    && Backed(data, e) && EventKey(e) !in saved
  }

  /** A stop from the one the vehicle was last seen at up to, and without, the one it is at now, at
      the arrival last predicted for it. */
  predicate IsMissed(data: StaticData, stores: Stores, vp: VehiclePosition, e: StopEvent) {
    && vp.licensePlate.Some? && vp.stopSequence.Some?
    && var v, trip := VehicleKey(vp.agency, vp.licensePlate.value), TripKey(vp.agency, vp.tripId);
    && v in stores.vehicles && stores.vehicles[v].tripId == vp.tripId
    && stores.vehicles[v].currentStopSequence <= e.stopSequence < vp.stopSequence.value
    && OfReport(e, vp) && DatedBy(data, e, vp.stopSequence.value, vp.timestamp)
    && trip in stores.predictions && e.stopSequence in stores.predictions[trip].stops
    && e.eventTime == stores.predictions[trip].stops[e.stopSequence].lastSeenArrival
    && e.detectionMethod == BySeqJump && e.isEstimated
    && Backed(data, e) && EventKey(e) !in stores.saved
  }

  /** The last stop of a trip is a timeout at the arrival first predicted for it, any other a jump at
      the one last predicted. */
  predicate FinalTime(predictions: PredictionStore, trip: TripKey, e: StopEvent, maxSeq: int) {
    && trip in predictions && e.stopSequence in predictions[trip].stops
    && var cached := predictions[trip].stops[e.stopSequence];
       if e.stopSequence == maxSeq
       then e.detectionMethod == ByTimeout && e.eventTime == cached.firstSeenArrival
       else e.detectionMethod == BySeqJump && e.eventTime == cached.lastSeenArrival
  }

  /** A stop past the last one seen of a trip that the vehicle has left. */
  predicate IsLeftAhead(data: StaticData, stores: Stores, vp: VehiclePosition, e: StopEvent) {
    && vp.licensePlate.Some? && vp.stopSequence.Some?
    && var v := VehicleKey(vp.agency, vp.licensePlate.value);
    && v in stores.vehicles && stores.vehicles[v].tripId != vp.tripId
    && var prev := stores.vehicles[v];
    && prev.currentStopSequence < e.stopSequence <= e.maxStopSequence
    && e.agency == prev.agency && e.tripId == prev.tripId
    && e.licensePlate == Some(prev.licensePlate) && e.vehicleId == None
    && DatedBy(data, e, e.stopSequence, prev.lastTimestamp)
    && FinalTime(stores.predictions, TripKey(prev.agency, prev.tripId), e, e.maxStopSequence)
    && e.isEstimated
    && Backed(data, e) && EventKey(e) !in stores.saved
  }

  // ----- candidates -----

  lemma CreatedIff(data: StaticData, source: Source, q: int, at: Instant, date: Date, trip: Trip, stopTime: StopTime,
                   how: DetectionMethod, isEstimated: bool, e: StopEvent)
    requires Get(data.trips, source.tripId) == Some(trip) && data.StopTimeAt(source.tripId, q) == Some(stopTime)
    ensures CreatedEvent(data, source, q, at, date, trip, stopTime, how, isEstimated) == Some(e)
       <==> && Backed(data, e)
            && e.agency == source.agency && e.tripId == source.tripId && e.serviceDate == date
            && e.stopSequence == q && e.eventTime == at
            && e.vehicleId == source.vehicleId && e.licensePlate == source.licensePlate
            && e.detectionMethod == how && e.isEstimated == isEstimated
  {}

  lemma ObservedIff(data: StaticData, saved: SavedStore, vp: VehiclePosition, prev: Option<VehicleState>, e: StopEvent)
    requires Recorded(data, vp)
    ensures e in StoppedAtEvents(data, saved, ContextFrom(data, vp, prev)) <==> IsObserved(data, saved, vp, e)
  {
    var ctx := ContextFrom(data, vp, prev);
    CreatedIff(data, ctx.Origin(), ctx.stopSequence, vp.timestamp, ctx.serviceDate, ctx.trip, ctx.stopTime,
               ByStoppedAt, false, e);
  }

  lemma JumpIff(data: StaticData, saved: SavedStore, predictions: PredictionStore, ctx: Context, q: int, e: StopEvent)
    requires Grounded(data, ctx)
    ensures JumpEventAt(data, saved, predictions, ctx, q) == Some(e)
       <==> && Backed(data, e) && EventKey(e) !in saved
            && OfReport(e, ctx.vp) && e.serviceDate == ctx.serviceDate && e.stopSequence == q
            && PredictedArrival(predictions, TripKey(ctx.vp.agency, ctx.vp.tripId), q) == Some(e.eventTime)
            && e.detectionMethod == BySeqJump && e.isEstimated
  {
    var arrival := PredictedArrival(predictions, TripKey(ctx.vp.agency, ctx.vp.tripId), q);
    var stopTime := data.StopTimeAt(ctx.vp.tripId, q);
    if arrival.Some? && stopTime.Some? {
      CreatedIff(data, ctx.Origin(), q, arrival.value, ctx.serviceDate, ctx.trip, stopTime.value, BySeqJump, true, e);
    }
  }

  lemma MissedIff(data: StaticData, stores: Stores, vp: VehiclePosition, e: StopEvent)
    requires Recorded(data, vp)
    ensures e in SeqJumpEvents(data, stores.saved, stores.predictions, ContextOf(data, stores.vehicles, vp))
       <==> IsMissed(data, stores, vp, e)
  {
    var ctx := ContextOf(data, stores.vehicles, vp);
    var w := JumpWindow(ctx.prevState, vp.tripId, ctx.stopSequence);
    JumpCandidatesFresh(data, stores.saved, stores.predictions, ctx);
    CollectExact(JumpCandidate(data, stores.saved, stores.predictions, ctx), w.lo, w.hi);
    JumpIff(data, stores.saved, stores.predictions, ctx, e.stopSequence, e);
  }

  lemma FinalIff(data: StaticData, saved: SavedStore, predictions: PredictionStore, prev: VehicleState, trip: Trip,
                 maxSeq: int, e: StopEvent)
    requires Get(data.trips, prev.tripId) == Some(trip) && data.MaxStopSequence(prev.tripId) == Some(maxSeq)
    ensures FinalEventAt(data, saved, predictions, prev, trip, maxSeq, e.stopSequence) == Some(e)
       <==> && Backed(data, e) && EventKey(e) !in saved
            && e.agency == prev.agency && e.tripId == prev.tripId
            && e.licensePlate == Some(prev.licensePlate) && e.vehicleId == None
            && DatedBy(data, e, e.stopSequence, prev.lastTimestamp)
            && FinalTime(predictions, TripKey(prev.agency, prev.tripId), e, maxSeq)
            && e.isEstimated
  {
    var q, key := e.stopSequence, TripKey(prev.agency, prev.tripId);
    var stopTime := data.StopTimeAt(prev.tripId, q);
    if stopTime.Some? && key in predictions && q in predictions[key].stops {
      var cached := predictions[key].stops[q];
      var date := ServiceDate(data.tz, prev.lastTimestamp, stopTime.value.arrivalSeconds);
      var source := Source(prev.agency, prev.tripId, None, Some(prev.licensePlate));
      CreatedIff(data, source, q, cached.firstSeenArrival, date, trip, stopTime.value, ByTimeout, true, e);
      CreatedIff(data, source, q, cached.lastSeenArrival, date, trip, stopTime.value, BySeqJump, true, e);
    }
  }

  lemma LeftAheadIff(data: StaticData, stores: Stores, vp: VehiclePosition, e: StopEvent)
    requires ChangesTrip(stores, vp)
    ensures var prev := stores.vehicles[VehicleKey(vp.agency, vp.licensePlate.value)];
            e in FinalEvents(data, stores.saved, stores.predictions, prev) <==> IsLeftAhead(data, stores, vp, e)
  {
    var prev := stores.vehicles[VehicleKey(vp.agency, vp.licensePlate.value)];
    var maxSeq := data.MaxStopSequence(prev.tripId);
    if prev.tripId in data.trips && maxSeq.Some? {
      var trip := data.trips[prev.tripId];
      FinalCandidatesFresh(data, stores.saved, stores.predictions, prev, trip, maxSeq.value);
      CollectExact(FinalCandidate(data, stores.saved, stores.predictions, prev, trip, maxSeq.value),
                   prev.currentStopSequence + 1, maxSeq.value + 1);
      FinalIff(data, stores.saved, stores.predictions, prev, trip, maxSeq.value, e);
    }
  }

  // ----- which candidates are marked -----

  /** Persisting leaves alone what none of its later candidates is about. */
  lemma {:induction false} PersistElsewhere(saved: SavedStore, raw: seq<StopEvent>, agency: Agency, tripId: string,
                                            serviceDate: Option<Date>, i: nat, k: SavedKey)
    requires i <= |raw| && forall j | i <= j < |raw| :: FiledUnder(raw[j], agency, tripId, serviceDate)
    requires forall j | i <= j < |raw| :: EventKey(raw[j]) != k
    ensures Get(Persist(saved, raw, agency, tripId, serviceDate).saved, k)
            == Get(Persist(saved, raw[..i], agency, tripId, serviceDate).saved, k)
  {
    if i == |raw| {
      assert raw[..i] == raw;
    } else {
      var front := raw[..|raw| - 1];
      PersistOne(saved, raw, agency, tripId, serviceDate);
      PersistElsewhere(saved, front, agency, tripId, serviceDate, i, k);
      assert front[..i] == raw[..i];
    }
  }

  /** The rules look at nothing but the entry of the stop before. */
  lemma RulesLookBack(saved: SavedStore, saved': SavedStore, e: StopEvent)
    requires Get(saved, SavedKey(DayOf(e), e.stopSequence - 1)) == Get(saved', SavedKey(DayOf(e), e.stopSequence - 1))
    ensures MeetsRules(saved, e) <==> MeetsRules(saved', e)
  {}

  /** When no later candidate is of the stop before, a candidate is marked if and only if it meets
      the rules against the store the batch leaves. */
  lemma MarkedByFinalStore(data: StaticData, saved: SavedStore, raw: seq<StopEvent>, agency: Agency, tripId: string,
                           serviceDate: Option<Date>, i: nat)
    requires Fresh(data, saved, raw, agency, tripId, serviceDate) && i < |raw|
    requires forall j | i < j < |raw| :: raw[j].stopSequence > raw[i].stopSequence
    ensures raw[i] in Persist(saved, raw, agency, tripId, serviceDate).events
       <==> MeetsRules(Persist(saved, raw, agency, tripId, serviceDate).saved, raw[i])
  {
    SavedIffMeetsRules(data, saved, raw, agency, tripId, serviceDate, i);
    var k := SavedKey(DayOf(raw[i]), raw[i].stopSequence - 1);
    assert forall j | i <= j < |raw| :: raw[j] in raw;
    PersistElsewhere(saved, raw, agency, tripId, serviceDate, i, k);
    RulesLookBack(Persist(saved, raw, agency, tripId, serviceDate).saved,
                  Persist(saved, raw[..i], agency, tripId, serviceDate).saved, raw[i]);
  }

  /** Completing a trip marks exactly the stops left ahead that meet the rules against the store
      it leaves. */
  lemma CompletedIff(data: StaticData, stores: Stores, vp: VehiclePosition, e: StopEvent)
    ensures e in CompletionEvents(data, stores, vp)
       <==> IsLeftAhead(data, stores, vp, e) && MeetsRules(AfterTripChange(data, stores, vp).saved, e)
  {
    if ChangesTrip(stores, vp) {
      var prev := stores.vehicles[VehicleKey(vp.agency, vp.licensePlate.value)];
      var raw := FinalEvents(data, stores.saved, stores.predictions, prev);
      LeftAheadIff(data, stores, vp, e);
      PersistedAreCandidates(stores.saved, raw, prev.agency, prev.tripId, None);
      FinalEventsFresh(data, stores.saved, stores.predictions, prev);
      FinalEventsAscend(data, stores.saved, stores.predictions, prev);
      if e in raw {
        var i :| 0 <= i < |raw| && raw[i] == e;
        MarkedByFinalStore(data, stores.saved, raw, prev.agency, prev.tripId, None, i);
      }
    }
  }

  lemma FinalEventsAscend(data: StaticData, saved: SavedStore, predictions: PredictionStore, prev: VehicleState)
    ensures Ascending(FinalEvents(data, saved, predictions, prev))
  {
    var maxSeq := data.MaxStopSequence(prev.tripId);
    if prev.tripId in data.trips && maxSeq.Some? {
      FinalCandidatesFresh(data, saved, predictions, prev, data.trips[prev.tripId], maxSeq.value);
      CollectExact(FinalCandidate(data, saved, predictions, prev, data.trips[prev.tripId], maxSeq.value),
                   prev.currentStopSequence + 1, maxSeq.value + 1);
    }
  }

  /** Detection marks exactly the observed stop if it meets the rules against the store it finds,
      and the missed stops that meet them against the store it leaves. */
  lemma DetectedIff(data: StaticData, stores: Stores, vp: VehiclePosition, prev: Option<VehicleState>, e: StopEvent)
    requires Recorded(data, vp) && prev == PrevOnTrip(stores.vehicles, vp)
    ensures e in PersistedPosition(data, stores, vp, prev).events
       <==> || (IsObserved(data, stores.saved, vp, e) && MeetsRules(stores.saved, e))
            || (IsMissed(data, stores, vp, e) && MeetsRules(PersistedPosition(data, stores, vp, prev).saved, e))
  {
    var ctx := ContextFrom(data, vp, prev);
    var raw := Detected(data, stores.saved, stores.predictions, ctx);
    ObservedIff(data, stores.saved, vp, prev, e);
    MissedIff(data, stores, vp, e);
    PersistedAreCandidates(stores.saved, raw, vp.agency, vp.tripId, Some(ctx.serviceDate));
    if IsObserved(data, stores.saved, vp, e) {
      ObservedIsMarkedFirst(data, stores.saved, stores.predictions, ctx, e);
    } else if IsMissed(data, stores, vp, e) {
      MissedIsMarked(data, stores.saved, stores.predictions, ctx, e);
    }
  }

  lemma ObservedIsMarkedFirst(data: StaticData, saved: SavedStore, predictions: PredictionStore, ctx: Context,
                              e: StopEvent)
    requires Grounded(data, ctx) && e in StoppedAtEvents(data, saved, ctx)
    ensures e in Persist(saved, Detected(data, saved, predictions, ctx), ctx.vp.agency, ctx.vp.tripId,
                         Some(ctx.serviceDate)).events
       <==> MeetsRules(saved, e)
  {
    var raw := Detected(data, saved, predictions, ctx);
    StoppedAtEventsFresh(data, saved, ctx);
    DetectedFresh(data, saved, predictions, ctx);
    assert raw[0] == e && raw[..0] == [];
    SavedIffMeetsRules(data, saved, raw, ctx.vp.agency, ctx.vp.tripId, Some(ctx.serviceDate), 0);
  }

  lemma MissedIsMarked(data: StaticData, saved: SavedStore, predictions: PredictionStore, ctx: Context, e: StopEvent)
    requires Grounded(data, ctx) && e in SeqJumpEvents(data, saved, predictions, ctx)
    ensures var p := Persist(saved, Detected(data, saved, predictions, ctx), ctx.vp.agency, ctx.vp.tripId,
                             Some(ctx.serviceDate));
            e in p.events <==> MeetsRules(p.saved, e)
  {
    DetectedFresh(data, saved, predictions, ctx);
    var i := LaterAreFurther(data, saved, predictions, ctx, e);
    MarkedByFinalStore(data, saved, Detected(data, saved, predictions, ctx), ctx.vp.agency, ctx.vp.tripId,
                       Some(ctx.serviceDate), i);
  }

  lemma LaterAreFurther(data: StaticData, saved: SavedStore, predictions: PredictionStore, ctx: Context, e: StopEvent)
    returns (n: nat)
    requires Grounded(data, ctx) && e in SeqJumpEvents(data, saved, predictions, ctx)
    ensures var raw := Detected(data, saved, predictions, ctx);
            && n < |raw| && raw[n] == e
            && forall j | n < j < |raw| :: raw[j].stopSequence > e.stopSequence
  {
    JumpEventsFresh(data, saved, predictions, ctx);
    n := FurtherBehind(StoppedAtEvents(data, saved, ctx), SeqJumpEvents(data, saved, predictions, ctx), e);
  }

  lemma FurtherBehind(stopped: seq<StopEvent>, jumped: seq<StopEvent>, e: StopEvent) returns (n: nat)
    requires Ascending(jumped) && e in jumped
    ensures n < |stopped + jumped| && (stopped + jumped)[n] == e
    ensures forall j | n < j < |stopped + jumped| :: (stopped + jumped)[j].stopSequence > e.stopSequence
  {
    var i :| 0 <= i < |jumped| && jumped[i] == e;
    n := |stopped| + i;
    forall j | n < j < |stopped + jumped|
      ensures (stopped + jumped)[j].stopSequence > e.stopSequence
    {
      assert (stopped + jumped)[j] == jumped[j - |stopped|];
    }
  }

  // ----- one update -----

  /** What is saved of a trip other than those of some events is not touched by marking them. */
  lemma {:induction false} OtherTripsStay(saved: SavedStore, log: seq<StopEvent>, k: SavedKey)
    requires forall e | e in log :: e.tripId != k.day.tripId
    ensures Get(MarkAll(saved, log), k) == Get(saved, k)
  {
    if log != [] {
      assert log[|log| - 1] in log;
      OtherTripsStay(saved, log[..|log| - 1], k);
    }
  }

  /** What an update makes of its vehicle's trip does not depend on what it completes of another. */
  lemma ObservedBeforeOrAfter(data: StaticData, stores: Stores, vp: VehiclePosition, e: StopEvent)
    requires e.tripId == vp.tripId
    ensures var after := AfterTripChange(data, stores, vp).saved;
            && (IsObserved(data, after, vp, e) <==> IsObserved(data, stores.saved, vp, e))
            && (MeetsRules(after, e) <==> MeetsRules(stores.saved, e))
  {
    var completion := CompletionEvents(data, stores, vp);
    CompletionIsGood(data, stores, vp);
    OtherTripsStay(stores.saved, completion, EventKey(e));
    OtherTripsStay(stores.saved, completion, SavedKey(DayOf(e), e.stopSequence - 1));
    RulesLookBack(stores.saved, AfterTripChange(data, stores, vp).saved, e);
  }

  /** The meaning of an update, first part. Of the trip left behind it marks exactly the stops left
      ahead that meet the rules; of the current trip exactly the observed stop, judged by what was
      saved before, and the missed stops, judged by what is saved in the end. */
  lemma MarkedIff(data: StaticData, stores: Stores, vp: VehiclePosition, e: StopEvent)
    ensures var out := ProcessedUpdate(data, stores, vp);
            && (e in out.completion <==> IsLeftAhead(data, stores, vp, e) && MeetsRules(out.stores.saved, e))
            && (e in out.detection
                <==> || (IsObserved(data, stores.saved, vp, e) && MeetsRules(stores.saved, e))
                     || (IsMissed(data, stores, vp, e) && MeetsRules(out.stores.saved, e)))
  {
    CompletedIff(data, stores, vp, e);
    if vp.licensePlate.Some? && vp.stopSequence.Some? {
      if Recorded(data, vp) {
        CompletionInTheEnd(data, stores, vp, e);
        DetectionInTheEnd(data, stores, vp, e);
      }
    }
  }

  lemma CompletionInTheEnd(data: StaticData, stores: Stores, vp: VehiclePosition, e: StopEvent)
    requires Recorded(data, vp)
    ensures IsLeftAhead(data, stores, vp, e) ==>
              (MeetsRules(AfterTripChange(data, stores, vp).saved, e)
               <==> MeetsRules(ProcessedUpdate(data, stores, vp).stores.saved, e))
  {
    if IsLeftAhead(data, stores, vp, e) {
      var after, out := AfterTripChange(data, stores, vp), ProcessedUpdate(data, stores, vp);
      DetectionIsGood(data, stores, vp);
      OtherTripsStay(after.saved, out.detection, SavedKey(DayOf(e), e.stopSequence - 1));
      RulesLookBack(after.saved, out.stores.saved, e);
    }
  }

  lemma DetectionInTheEnd(data: StaticData, stores: Stores, vp: VehiclePosition, e: StopEvent)
    requires Recorded(data, vp)
    ensures var out := ProcessedUpdate(data, stores, vp);
            e in out.detection
            <==> || (IsObserved(data, stores.saved, vp, e) && MeetsRules(stores.saved, e))
                 || (IsMissed(data, stores, vp, e) && MeetsRules(out.stores.saved, e))
  {
    var after := AfterTripChange(data, stores, vp);
    if ChangesTrip(stores, vp) {
      NothingMissedOnANewTrip(data, stores, vp, e);
    } else {
      DetectedIff(data, stores, vp, PrevOnTrip(stores.vehicles, vp), e);
    }
  }

  lemma NothingMissedOnANewTrip(data: StaticData, stores: Stores, vp: VehiclePosition, e: StopEvent)
    requires Recorded(data, vp) && ChangesTrip(stores, vp)
    ensures !IsMissed(data, stores, vp, e)
    ensures e in PersistedPosition(data, AfterTripChange(data, stores, vp), vp, None).events
       <==> IsObserved(data, stores.saved, vp, e) && MeetsRules(stores.saved, e)
  {
    var after := AfterTripChange(data, stores, vp);
    var ctx := ContextFrom(data, vp, None);
    ObservedIff(data, after.saved, vp, None, e);
    PersistedAreCandidates(after.saved, Detected(data, after.saved, after.predictions, ctx), vp.agency, vp.tripId,
                           Some(ctx.serviceDate));
    if IsObserved(data, after.saved, vp, e) {
      ObservedIsMarkedFirst(data, after.saved, after.predictions, ctx, e);
    }
    if e.tripId == vp.tripId {
      ObservedBeforeOrAfter(data, stores, vp, e);
    }
  }

  /** The estimate contradicts the observed event: later in time, or over 180 s more delayed. */
  predicate Contradicts(e: StopEvent, r: StopEvent) {
    e.isEstimated && (e.eventTime > r.eventTime || e.delaySeconds > r.delaySeconds + 180)
  }

  /** The meaning of an update, second part. It returns what it marked, but for estimates that
      contradict the event observed in the same update. */
  lemma ReturnedIff(data: StaticData, stores: Stores, vp: VehiclePosition, e: StopEvent)
    ensures var out := ProcessedUpdate(data, stores, vp);
            e in out.returned
            <==> || e in out.completion
                 || (e in out.detection
                     && !exists r :: r in out.detection && r.detectionMethod == ByStoppedAt && Contradicts(e, r))
  {
    var out := ProcessedUpdate(data, stores, vp);
    if Recorded(data, vp) {
      if r :| r in out.detection && r.detectionMethod == ByStoppedAt {
        DetectionShape(data, stores, vp);
        ReturnedBesideObserved(data, stores, vp, r);
      } else {
        AllReturnedWithoutObserved(data, stores, vp);
      }
    }
  }

  // ----- what follows for single stops -----

  /** The stop that a standing vehicle reports is saved, or no event can be built for it, or the
      event at the reported time breaks a rule against what was saved before. */
  lemma StandingSettles(data: StaticData, stores: Stores, vp: VehiclePosition)
    requires Recorded(data, vp) && vp.status == Some(StoppedAt)
    ensures var q, day := vp.stopSequence.value, ContextOf(data, stores.vehicles, vp).Day();
            || SavedKey(day, q) in ProcessedUpdate(data, stores, vp).stores.saved
            || FactoryRefuses(data, vp.agency, vp.tripId, data.StopTimeAt(vp.tripId, q).value)
            || exists e :: DayOf(e) == day && e.stopSequence == q && e.eventTime == vp.timestamp
                           && AgreesWithFeed(data, e) && !MeetsRules(stores.saved, e)
  {
    var ctx, out := ContextOf(data, stores.vehicles, vp), ProcessedUpdate(data, stores, vp);
    CompletionIsGood(data, stores, vp);
    MarkedDataStays(stores.saved, CompletionEvents(data, stores, vp));
    DetectionIsGood(data, stores, vp);
    MarkedDataStays(AfterTripChange(data, stores, vp).saved, out.detection);
    var made := CreatedEvent(data, ctx.Origin(), ctx.stopSequence, vp.timestamp, ctx.serviceDate, ctx.trip,
                             ctx.stopTime, ByStoppedAt, false);
    if made.Some? && SavedKey(ctx.Day(), ctx.stopSequence) !in stores.saved {
      var e := made.value;
      ObservedIff(data, stores.saved, vp, ctx.prevState, e);
      assert e in StoppedAtEvents(data, stores.saved, ctx);
      MarkedIff(data, stores, vp, e);
    }
  }

  /** Every estimate an update marks is of a stop that it scans: a jump's lies in the window of
      skipped stops, a completion's past the last recorded stop and up to the trip's last. */
  lemma MarkedWasExamined(data: StaticData, stores: Stores, vp: VehiclePosition, e: StopEvent)
    requires WellKeyed(stores.vehicles)
    ensures var out := ProcessedUpdate(data, stores, vp);
            && (e in out.completion ==>
                  && vp.licensePlate.Some?
                  && var v := VehicleKey(vp.agency, vp.licensePlate.value);
                     && FinalExamines(data, stores, Position(vp), v, e.tripId, e.stopSequence)
                     && stores.vehicles[v].currentStopSequence < e.stopSequence <= e.maxStopSequence)
            && (e in out.detection && e.isEstimated ==>
                  && vp.licensePlate.Some?
                  && JumpExamines(data, stores, Position(vp), VehicleKey(vp.agency, vp.licensePlate.value), e.tripId,
                                  e.stopSequence))
  {
    MarkedIff(data, stores, vp, e);
    if e in ProcessedUpdate(data, stores, vp).detection {
      assert Recorded(data, vp);
    }
  }
}
