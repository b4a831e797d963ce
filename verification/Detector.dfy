/** The detector as the stop writer runs it: repositories that hold the stores, the strategies that
    scan them, and the update that changes them step by step. */
module Detector {
  import opened Domain
  import opened GtfsStatic
  import opened Predictions
  import opened ServiceDay
  import opened Detection

  class VehicleStateRepository {
    var store: VehicleStore

    constructor ()
      ensures store == map[]
    {
      store := map[];
    }

    function Lookup(agency: Agency, licensePlate: string): Option<VehicleState>
      reads this
    {
      Get(store, VehicleKey(agency, licensePlate))
    }

    method Save(state: VehicleState)
      modifies this
      ensures store == old(store)[VehicleKey(state.agency, state.licensePlate) := state]
    {
      store := store[VehicleKey(state.agency, state.licensePlate) := state];
    }

    method Delete(agency: Agency, licensePlate: string)
      modifies this
      ensures store == old(store) - {VehicleKey(agency, licensePlate)}
    {
      store := store - {VehicleKey(agency, licensePlate)};
    }
  }

  class SavedSequencesRepository {
    var store: SavedStore

    constructor ()
      ensures store == map[]
    {
      store := map[];
    }

    predicate IsSaved(day: TripDay, stopSequence: int)
      reads this
    {
      SavedKey(day, stopSequence) in store
    }

    /** All stops saved for one trip and date. */
    function AllSequences(day: TripDay): (s: set<int>)
      reads this
      ensures forall q :: q in s <==> IsSaved(day, q)
    {
      set k | k in store && k.day == day :: k.stopSequence
    }

    function SavedDataAt(day: TripDay, stopSequence: int): Option<SavedData>
      reads this
    {
      Get(store, SavedKey(day, stopSequence))
    }

    method MarkSaved(day: TripDay, stopSequence: int, delaySeconds: int, eventTime: Instant)
      modifies this
      ensures store == old(store)[SavedKey(day, stopSequence) := SavedData(delaySeconds, eventTime)]
    {
      store := store[SavedKey(day, stopSequence) := SavedData(delaySeconds, eventTime)];
    }
  }

  class EventFactory {
    const cache: GtfsCache

    constructor (cache: GtfsCache)
      ensures this.cache == cache
    {
      this.cache := cache;
    }

    method Create(source: Source, stopSequence: int, eventTime: Instant, serviceDate: Date, trip: Trip,
                  stopTime: StopTime, how: DetectionMethod, isEstimated: bool) returns (e: Option<StopEvent>)
      requires cache.Valid()
      modifies cache
      ensures cache.Valid()
      ensures e == CreatedEvent(cache.data, source, stopSequence, eventTime, serviceDate, trip, stopTime, how,
                                isEstimated)
    {
      var stop := cache.GetStop(stopTime.stopId);
      if stop.None? {
        return None;
      }
      var staticHash := cache.GetCurrentHash(source.agency);
      if staticHash.None? || staticHash.value == "" {
        return None;
      }
      var maxSeq := cache.GetMaxStopSequence(source.tripId);
      if maxSeq.None? {
        return None;
      }
      var planned := PlannedTime(cache.data.tz, serviceDate, stopTime.arrivalSeconds);
      var delay := DelaySeconds(eventTime, planned);
      return Some(StopEvent(
                    source.agency, source.tripId, serviceDate, stopSequence, stopTime.stopId,
                    trip.routeShortName, stop.value.stopName, stop.value.stopDesc, trip.directionId, trip.headsign,
                    planned, eventTime, delay, source.vehicleId, source.licensePlate, how, isEstimated,
                    staticHash.value, maxSeq.value));
    }
  }

  class StoppedAtStrategy {
    const factory: EventFactory
    const savedSeqs: SavedSequencesRepository

    constructor (factory: EventFactory, savedSeqs: SavedSequencesRepository)
      ensures this.factory == factory && this.savedSeqs == savedSeqs
    {
      this.factory, this.savedSeqs := factory, savedSeqs;
    }

    method Detect(ctx: Context) returns (events: seq<StopEvent>)
      requires factory.cache.Valid()
      modifies factory.cache
      ensures factory.cache.Valid()
      ensures events == StoppedAtEvents(factory.cache.data, savedSeqs.store, ctx)
    {
      if ctx.vp.status != Some(StoppedAt) {
        return [];
      }
      if savedSeqs.IsSaved(ctx.Day(), ctx.stopSequence) {
        return [];
      }
      var e := factory.Create(ctx.Origin(), ctx.stopSequence, ctx.vp.timestamp, ctx.serviceDate, ctx.trip, ctx.stopTime,
                              ByStoppedAt, false);
      return if e.Some? then [e.value] else [];
    }
  }

  class SeqJumpStrategy {
    const factory: EventFactory
    const savedSeqs: SavedSequencesRepository
    const tripUpdates: TripUpdatesRepository

    constructor (factory: EventFactory, savedSeqs: SavedSequencesRepository, tripUpdates: TripUpdatesRepository)
      ensures this.factory == factory && this.savedSeqs == savedSeqs && this.tripUpdates == tripUpdates
    {
      this.factory, this.savedSeqs, this.tripUpdates := factory, savedSeqs, tripUpdates;
    }

    method Detect(ctx: Context) returns (events: seq<StopEvent>)
      requires factory.cache.Valid()
      modifies factory.cache
      ensures factory.cache.Valid()
      ensures events == SeqJumpEvents(factory.cache.data, savedSeqs.store, tripUpdates.store, ctx)
    {
      events := [];
      if ctx.prevState.None? || ctx.prevState.value.tripId != ctx.vp.tripId {
        return;
      }
      var prevSeq, currSeq := ctx.prevState.value.currentStopSequence, ctx.stopSequence;
      if currSeq <= prevSeq {
        return;
      }
      events := ScanMissed(ctx, prevSeq, currSeq);
    }

    method ScanMissed(ctx: Context, prevSeq: int, currSeq: int) returns (events: seq<StopEvent>)
      requires factory.cache.Valid() && prevSeq < currSeq
      modifies factory.cache
      ensures factory.cache.Valid()
      ensures events ==
                Collect(JumpCandidate(factory.cache.data, savedSeqs.store, tripUpdates.store, ctx), prevSeq, currSeq)
    {
      var alreadySaved := savedSeqs.AllSequences(ctx.Day());
      var tripCache := tripUpdates.Lookup(ctx.vp.agency, ctx.vp.tripId);
      events := [];
      ghost var saved, predictions := savedSeqs.store, tripUpdates.store;
      ghost var candidate := JumpCandidate(factory.cache.data, saved, predictions, ctx);
      for missed := prevSeq to currSeq
        invariant factory.cache.Valid() && savedSeqs.store == saved && tripUpdates.store == predictions
        invariant events == Collect(candidate, prevSeq, missed)
      {
        var e := DetectMissed(ctx, alreadySaved, tripCache, missed);
        CollectNext(candidate, prevSeq, missed, e);
        if e.Some? {
          events := events + [e.value];
        }
      }
    }

    /** One turn of the scan: the event for a missed stop, unless something about it is missing. */
    method DetectMissed(ctx: Context, alreadySaved: set<int>, tripCache: Option<TripUpdateCache>, missed: int)
      returns (e: Option<StopEvent>)
      requires factory.cache.Valid()
      requires alreadySaved == savedSeqs.AllSequences(ctx.Day())
      requires tripCache == tripUpdates.Lookup(ctx.vp.agency, ctx.vp.tripId)
      modifies factory.cache
      ensures factory.cache.Valid()
      ensures e == JumpEventAt(factory.cache.data, savedSeqs.store, tripUpdates.store, ctx, missed)
    {
      if missed in alreadySaved {
        return None;
      }
      if tripCache.None? {
        return None;
      }
      var cachedStop := Get(tripCache.value.stops, missed);
      if cachedStop.None? {
        return None;
      }
      var eventTime := cachedStop.value.lastSeenArrival;
      var missedStopTime := factory.cache.GetStopTime(ctx.vp.tripId, missed);
      if missedStopTime.None? {
        return None;
      }
      e := factory.Create(ctx.Origin(), missed, eventTime, ctx.serviceDate, ctx.trip, missedStopTime.value, BySeqJump,
                          true);
    }
  }

  class TripFinalizer {
    const factory: EventFactory
    const savedSeqs: SavedSequencesRepository
    const tripUpdates: TripUpdatesRepository

    constructor (factory: EventFactory, savedSeqs: SavedSequencesRepository, tripUpdates: TripUpdatesRepository)
      ensures this.factory == factory && this.savedSeqs == savedSeqs && this.tripUpdates == tripUpdates
    {
      this.factory, this.savedSeqs, this.tripUpdates := factory, savedSeqs, tripUpdates;
    }

    method Finalize(prev: VehicleState) returns (events: seq<StopEvent>)
      requires factory.cache.Valid()
      modifies factory.cache
      ensures factory.cache.Valid()
      ensures events == FinalEvents(factory.cache.data, savedSeqs.store, tripUpdates.store, prev)
    {
      events := [];
      var trip := factory.cache.GetTrip(prev.tripId);
      if trip.None? {
        return;
      }
      var maxSeq := factory.cache.GetMaxStopSequence(prev.tripId);
      if maxSeq.None? {
        return;
      }
      events := ScanAhead(prev, trip.value, maxSeq.value);
    }

    method ScanAhead(prev: VehicleState, trip: Trip, maxSeq: int) returns (events: seq<StopEvent>)
      requires factory.cache.Valid()
      modifies factory.cache
      ensures factory.cache.Valid()
      ensures events == FinalScan(factory.cache.data, savedSeqs.store, tripUpdates.store, prev, trip, maxSeq)
    {
      ghost var data, saved, predictions := factory.cache.data, savedSeqs.store, tripUpdates.store;
      ghost var candidate := FinalCandidate(data, saved, predictions, prev, trip, maxSeq);
      FinalScanCollects(data, saved, predictions, prev, trip, maxSeq);
      events := ScanRange(prev, trip, maxSeq, prev.currentStopSequence + 1, maxSeq + 1, candidate);
    }

    method ScanRange(prev: VehicleState, trip: Trip, maxSeq: int, first: int, end: int,
                     ghost candidate: int -> Option<StopEvent>)
      returns (events: seq<StopEvent>)
      requires factory.cache.Valid()
      requires candidate == FinalCandidate(factory.cache.data, savedSeqs.store, tripUpdates.store, prev, trip, maxSeq)
      modifies factory.cache
      ensures factory.cache.Valid()
      ensures events == Collect(candidate, first, end)
    {
      events := [];
      if end <= first {
        return;
      }
      for q := first to end
        invariant factory.cache.Valid()
        invariant candidate ==
                    FinalCandidate(factory.cache.data, savedSeqs.store, tripUpdates.store, prev, trip, maxSeq)
        invariant events == Collect(candidate, first, q)
      {
        var found := FinalizeStop(prev, trip, maxSeq, q);
        CollectNext(candidate, first, q, found);
        if found.Some? {
          events := events + [found.value];
        }
      }
    }

    /** One turn of the scan: the event for stop q, unless something about it is missing. */
    method FinalizeStop(prev: VehicleState, trip: Trip, maxSeq: int, q: int) returns (e: Option<StopEvent>)
      requires factory.cache.Valid()
      modifies factory.cache
      ensures factory.cache.Valid()
      ensures e == FinalEventAt(factory.cache.data, savedSeqs.store, tripUpdates.store, prev, trip, maxSeq, q)
    {
      var stopTime := factory.cache.GetStopTime(prev.tripId, q);
      if stopTime.None? {
        return None;
      }
      var serviceDate := ServiceDate(factory.cache.data.tz, prev.lastTimestamp, stopTime.value.arrivalSeconds);
      if savedSeqs.IsSaved(TripDay(prev.agency, prev.tripId, serviceDate), q) {
        return None;
      }
      var cache := tripUpdates.Lookup(prev.agency, prev.tripId);
      if cache.None? {
        return None;
      }
      var cachedStop := Get(cache.value.stops, q);
      if cachedStop.None? {
        return None;
      }
      e := CreateEstimate(prev, trip, maxSeq, stopTime.value, q, serviceDate, cachedStop.value);
    }

    method CreateEstimate(prev: VehicleState, trip: Trip, maxSeq: int, stopTime: StopTime, q: int, serviceDate: Date,
                          cached: CachedStopTime) returns (e: Option<StopEvent>)
      requires factory.cache.Valid()
      modifies factory.cache
      ensures factory.cache.Valid()
      ensures e == FinalEventFrom(factory.cache.data, prev, trip, maxSeq, stopTime, q, serviceDate, cached)
    {
      var eventTime, how := cached.lastSeenArrival, BySeqJump;
      if q == maxSeq {
        eventTime, how := cached.firstSeenArrival, ByTimeout;
      }
      var isEstimated := how == BySeqJump || how == ByTimeout;
      var source := Source(prev.agency, prev.tripId, None, Some(prev.licensePlate));
      e := factory.Create(source, q, eventTime, serviceDate, trip, stopTime, how, isEstimated);
    }
  }

  class EventValidator {
    const savedSeqs: SavedSequencesRepository

    constructor (savedSeqs: SavedSequencesRepository)
      ensures this.savedSeqs == savedSeqs
    {
      this.savedSeqs := savedSeqs;
    }

    static method ValidateInBatch(events: seq<StopEvent>) returns (validated: seq<StopEvent>)
      ensures validated == ValidatedInBatch(events)
    {
      var stoppedAt: Option<StopEvent> := None;
      for i := 0 to |events|
        invariant stoppedAt == LastObserved(events[..i])
      {
        PrefixFront(events, i);
        if events[i].detectionMethod == ByStoppedAt {
          stoppedAt := Some(events[i]);
        }
      }
      assert events[..|events|] == events;
      if stoppedAt.None? {
        return events;
      }
      var reference := stoppedAt.value;
      validated := [];
      for i := 0 to |events|
        invariant validated == KeepBeside(events[..i], reference)
      {
        PrefixFront(events, i);
        var e := events[i];
        if !e.isEstimated {
          validated := validated + [e];
          continue;
        }
        if e.stopSequence >= reference.stopSequence {
          validated := validated + [e];
          continue;
        }
        if e.eventTime > reference.eventTime {
          continue;
        }
        if e.delaySeconds - reference.delaySeconds > DELAY_DROP_THRESHOLD {
          continue;
        }
        validated := validated + [e];
      }
    }

    method ValidateEvent(e: StopEvent, day: TripDay) returns (ok: bool)
      ensures ok == Acceptable(savedSeqs.store, e, day)
    {
      if e.delaySeconds < MIN_EARLY_DELAY_SECONDS && e.stopSequence != 1 {
        return false;
      }
      var prevSeq := e.stopSequence - 1;
      if prevSeq < 1 {
        return true;
      }
      var prevData := savedSeqs.SavedDataAt(day, prevSeq);
      if prevData.None? {
        return true;
      }
      var SavedData(prevDelay, prevEventTime) := prevData.value;
      if prevDelay - e.delaySeconds > DELAY_DROP_THRESHOLD {
        return false;
      }
      if prevEventTime >= e.eventTime {
        return false;
      }
      return true;
    }
  }

  class StopEventDetector {
    const vehicleState: VehicleStateRepository
    const tripUpdates: TripUpdatesRepository
    const savedSeqs: SavedSequencesRepository
    const gtfsCache: GtfsCache
    const stoppedAt: StoppedAtStrategy
    const seqJump: SeqJumpStrategy
    const finalizer: TripFinalizer
    const validator: EventValidator

    ghost predicate Valid()
      reads gtfsCache
    {
      Wired() && gtfsCache.Valid()
    }

    /** All parts work on the same repositories and cache. */
    ghost predicate Wired() {
      && stoppedAt.factory.cache == seqJump.factory.cache == finalizer.factory.cache == gtfsCache
      && stoppedAt.savedSeqs == seqJump.savedSeqs == finalizer.savedSeqs == validator.savedSeqs == savedSeqs
      && seqJump.tripUpdates == finalizer.tripUpdates == tripUpdates
    }

    ghost function State(): Stores
      reads vehicleState, savedSeqs, tripUpdates
    {
      Stores(vehicleState.store, savedSeqs.store, tripUpdates.store)
    }

    constructor (data: StaticData, vehicleState: VehicleStateRepository, tripUpdates: TripUpdatesRepository,
                 savedSeqs: SavedSequencesRepository)
      ensures Valid() && fresh(gtfsCache) && gtfsCache.data == data
      ensures this.vehicleState == vehicleState && this.tripUpdates == tripUpdates && this.savedSeqs == savedSeqs
    {
      var cache := new GtfsCache(data);
      var factory := new EventFactory(cache);
      this.vehicleState, this.tripUpdates, this.savedSeqs, gtfsCache := vehicleState, tripUpdates, savedSeqs, cache;
      stoppedAt := new StoppedAtStrategy(factory, savedSeqs);
      seqJump := new SeqJumpStrategy(factory, savedSeqs, tripUpdates);
      finalizer := new TripFinalizer(factory, savedSeqs, tripUpdates);
      validator := new EventValidator(savedSeqs);
    }

    method PersistEvents(raw: seq<StopEvent>, agency: Agency, tripId: string, serviceDate: Option<Date>)
      returns (validated: seq<StopEvent>)
      requires Valid()
      modifies savedSeqs
      ensures Persisted(savedSeqs.store, validated) == Persist(old(savedSeqs.store), raw, agency, tripId, serviceDate)
    {
      validated := [];
      for i := 0 to |raw|
        invariant Persisted(savedSeqs.store, validated) ==
                    Persist(old(savedSeqs.store), raw[..i], agency, tripId, serviceDate)
      {
        PrefixFront(raw, i);
        var e := raw[i];
        var day := TripDay(agency, tripId, if serviceDate.Some? then serviceDate.value else e.serviceDate);
        var ok := validator.ValidateEvent(e, day);
        if !ok {
          continue;
        }
        validated := validated + [e];
        savedSeqs.MarkSaved(day, e.stopSequence, e.delaySeconds, e.eventTime);
      }
      assert raw[..|raw|] == raw;
    }

    /** Finalises the trip the vehicle was on, then drops its predictions and its state. */
    method CompleteTrip(vp: VehiclePosition, prev: VehicleState) returns (events: seq<StopEvent>)
      requires Valid() && ChangesTrip(State(), vp)
      requires prev == vehicleState.store[VehicleKey(vp.agency, vp.licensePlate.value)]
      modifies vehicleState, savedSeqs, tripUpdates, gtfsCache
      ensures Valid()
      ensures State() == AfterTripChange(gtfsCache.data, old(State()), vp)
      ensures events == CompletionEvents(gtfsCache.data, old(State()), vp)
    {
      events := FinalizeTrip(prev);
      label Finalized:
      tripUpdates.Delete(vp.agency, prev.tripId);
      vehicleState.Delete(vp.agency, prev.licensePlate);
      assert unchanged@Finalized(gtfsCache) && unchanged@Finalized(savedSeqs);
    }

    method FinalizeTrip(prev: VehicleState) returns (events: seq<StopEvent>)
      requires Valid()
      modifies savedSeqs, gtfsCache
      ensures Valid()
      ensures Persisted(savedSeqs.store, events) ==
                Persist(old(savedSeqs.store),
                        FinalEvents(gtfsCache.data, old(savedSeqs.store), tripUpdates.store, prev),
                        prev.agency, prev.tripId, None)
    {
      var raw := finalizer.Finalize(prev);
      events := PersistEvents(raw, prev.agency, prev.tripId, None);
    }

    method ProcessUpdate(vp: VehiclePosition) returns (events: seq<StopEvent>)
      requires Valid()
      modifies vehicleState, savedSeqs, tripUpdates, gtfsCache
      ensures Valid()
      ensures State() == ProcessedUpdate(gtfsCache.data, old(State()), vp).stores
      ensures events == ProcessedUpdate(gtfsCache.data, old(State()), vp).returned
    {
      if vp.stopSequence.None? || vp.licensePlate.None? {
        return [];
      }
      var prevState := vehicleState.Lookup(vp.agency, vp.licensePlate.value);
      var completion: seq<StopEvent> := [];
      if prevState.Some? && prevState.value.tripId != vp.tripId {
        completion := CompleteTrip(vp, prevState.value);
        prevState := None;
      }
      var detection := ExaminePosition(vp, prevState);
      return completion + detection;
    }

    /** Looks the reported stop up and, if it is known, detects, prunes and records. */
    method ExaminePosition(vp: VehiclePosition, prevState: Option<VehicleState>) returns (detection: seq<StopEvent>)
      requires Valid() && vp.stopSequence.Some? && vp.licensePlate.Some?
      modifies vehicleState, savedSeqs, gtfsCache
      ensures Valid()
      ensures Examined(State(), detection) == ExaminedPosition(gtfsCache.data, old(State()), vp, prevState)
    {
      var ctx := LocatePosition(vp, prevState);
      if ctx.None? {
        return [];
      }
      detection := RecordPosition(vp, ctx.value);
    }

    /** Detects, prunes and records at a known stop. */
    method RecordPosition(vp: VehiclePosition, ctx: Context) returns (detection: seq<StopEvent>)
      requires Valid() && vp.stopSequence.Some? && vp.licensePlate.Some? && ctx.vp == vp
      modifies vehicleState, savedSeqs, gtfsCache
      ensures Valid()
      ensures vehicleState.store ==
                old(vehicleState.store)[VehicleKey(vp.agency, vp.licensePlate.value) := StateOf(vp)]
      ensures var persisted :=
                Persist(old(savedSeqs.store), Detected(gtfsCache.data, old(savedSeqs.store), tripUpdates.store, ctx),
                        vp.agency, vp.tripId, Some(ctx.serviceDate));
              savedSeqs.store == persisted.saved && detection == Pruned(vp, persisted.events)
    {
      detection := DetectAndPersist(ctx);
      detection := Prune(vp, detection);
      vehicleState.Save(StateOf(vp));
    }

    /** The context of the position, if it names a stop of a known trip. */
    method LocatePosition(vp: VehiclePosition, prevState: Option<VehicleState>) returns (ctx: Option<Context>)
      requires Valid() && vp.stopSequence.Some? && vp.licensePlate.Some?
      modifies gtfsCache
      ensures Valid()
      ensures ctx == if Recorded(gtfsCache.data, vp) then Some(ContextFrom(gtfsCache.data, vp, prevState)) else None
    {
      var trip := gtfsCache.GetTrip(vp.tripId);
      if trip.None? {
        return None;
      }
      var stopTime := gtfsCache.GetStopTime(vp.tripId, vp.stopSequence.value);
      if stopTime.None? {
        return None;
      }
      var serviceDate := ServiceDate(gtfsCache.data.tz, vp.timestamp, stopTime.value.arrivalSeconds);
      return Some(Context(vp, prevState, serviceDate, trip.value, stopTime.value, vp.stopSequence.value));
    }

    /** Checks estimated events against the observed one when an update produced both. */
    static method Prune(vp: VehiclePosition, events: seq<StopEvent>) returns (pruned: seq<StopEvent>)
      ensures pruned == Pruned(vp, events)
    {
      pruned := events;
      if vp.status == Some(StoppedAt) && |events| > 1 {
        pruned := EventValidator.ValidateInBatch(events);
      }
    }

    /** Runs the strategies in turn and persists what they found. */
    method DetectAndPersist(ctx: Context) returns (detection: seq<StopEvent>)
      requires Valid()
      modifies savedSeqs, gtfsCache
      ensures Valid()
      ensures Persisted(savedSeqs.store, detection) ==
                Persist(old(savedSeqs.store), Detected(gtfsCache.data, old(savedSeqs.store), tripUpdates.store, ctx),
                        ctx.vp.agency, ctx.vp.tripId, Some(ctx.serviceDate))
    {
      var observed := stoppedAt.Detect(ctx);
      var jumped := seqJump.Detect(ctx);
      detection := PersistEvents(observed + jumped, ctx.vp.agency, ctx.vp.tripId, Some(ctx.serviceDate));
    }
  }

  /** The poller's side of the prediction cache. */
  class Publisher {
    const tripUpdates: TripUpdatesRepository
    const stopIds: StopIdCache

    constructor (data: StaticData, tripUpdates: TripUpdatesRepository)
      ensures this.tripUpdates == tripUpdates && fresh(stopIds) && stopIds.Valid() && stopIds.data == data
    {
      this.tripUpdates := tripUpdates;
      stopIds := new StopIdCache(data);
    }

    method ProcessTripUpdate(u: TripUpdate, now: Instant)
      requires stopIds.Valid()
      modifies tripUpdates, stopIds
      ensures stopIds.Valid()
      ensures tripUpdates.store == PredictionsAfter(stopIds.data, old(tripUpdates.store), u, now)
    {
      var stopIdToSeq := stopIds.GetStopIdToSeq(u.tripId);
      tripUpdates.Update(u, stopIdToSeq, now);
    }

    /** The trip updates of a feed, one after the other. */
    method ProcessTripUpdates(feed: seq<FeedUpdate>)
      requires stopIds.Valid()
      modifies tripUpdates, stopIds
      ensures stopIds.Valid()
      ensures tripUpdates.store == FedPredictions(stopIds.data, old(tripUpdates.store), feed)
    {
      for i := 0 to |feed|
        invariant stopIds.Valid()
        invariant tripUpdates.store == FedPredictions(stopIds.data, old(tripUpdates.store), feed[..i])
      {
        PrefixFront(feed, i);
        ProcessTripUpdate(feed[i].update, feed[i].now);
      }
      assert feed[..|feed|] == feed;
    }
  }
}
