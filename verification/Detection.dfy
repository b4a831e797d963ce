/** What the detector decides, as functions of its stores: candidate events, the acceptance rules,
    and one whole update. The classes in Detector.dfy are proved to compute these. */
module Detection {
  import opened Domain
  import opened GtfsStatic
  import opened Predictions
  import opened ServiceDay

  const DELAY_DROP_THRESHOLD := 180
  const MIN_EARLY_DELAY_SECONDS := -180

  datatype VehicleKey = VehicleKey(agency: Agency, licensePlate: string)

  datatype VehicleState = VehicleState(
    agency: Agency,
    licensePlate: string,
    tripId: string,
    currentStopSequence: int,
    lastTimestamp: Instant)

  datatype TripDay = TripDay(agency: Agency, tripId: string, serviceDate: Date)

  /** A field of the saved-sequences hash: the hash's key and the stop sequence in it. */
  datatype SavedKey = SavedKey(day: TripDay, stopSequence: int)

  datatype SavedData = SavedData(delay: int, eventTime: Instant)

  type VehicleStore = map<VehicleKey, VehicleState>

  type SavedStore = map<SavedKey, SavedData>

  function DayOf(e: StopEvent): TripDay {
    TripDay(e.agency, e.tripId, e.serviceDate)
  }

  function EventKey(e: StopEvent): SavedKey {
    SavedKey(DayOf(e), e.stopSequence)
  }

  function DataOf(e: StopEvent): SavedData {
    SavedData(e.delaySeconds, e.eventTime)
  }

  // ----- acceptance -----

  /** The rules a candidate must meet against what is already saved for `day`. */
  predicate Acceptable(saved: SavedStore, e: StopEvent, day: TripDay) {
    if e.delaySeconds < MIN_EARLY_DELAY_SECONDS && e.stopSequence != 1 then false
    else
      var prevSeq := e.stopSequence - 1;
      if prevSeq < 1 then true
      else
        match Get(saved, SavedKey(day, prevSeq))
        case None => true
        case Some(prev) =>
          prev.delay - e.delaySeconds <= DELAY_DROP_THRESHOLD && prev.eventTime < e.eventTime
  }

  datatype Persisted = Persisted(saved: SavedStore, events: seq<StopEvent>)

  /** Accepts or refuses candidates in order, each against the store left by the ones before. With
      no `serviceDate` given, each event is filed under its own. */
  function Persist(saved: SavedStore, raw: seq<StopEvent>, agency: Agency, tripId: string, serviceDate: Option<Date>)
    : Persisted
  {
    if raw == [] then Persisted(saved, [])
    else
      var before := Persist(saved, raw[..|raw| - 1], agency, tripId, serviceDate);
      var e := raw[|raw| - 1];
      var day := TripDay(agency, tripId, if serviceDate.Some? then serviceDate.value else e.serviceDate);
      if Acceptable(before.saved, e, day) then
        Persisted(before.saved[SavedKey(day, e.stopSequence) := DataOf(e)], before.events + [e])
      else
        before
  }

  /** The rule that prunes estimated events of an update against the observed one. */
  predicate KeptBeside(e: StopEvent, reference: StopEvent) {
    || !e.isEstimated
    || e.stopSequence >= reference.stopSequence
    || (e.eventTime <= reference.eventTime && e.delaySeconds - reference.delaySeconds <= DELAY_DROP_THRESHOLD)
  }

  function KeepBeside(events: seq<StopEvent>, reference: StopEvent): seq<StopEvent> {
    if events == [] then []
    else
      var e := events[|events| - 1];
      KeepBeside(events[..|events| - 1], reference) + if KeptBeside(e, reference) then [e] else []
  }

  /** The last event of the list that was observed at its stop. */
  function LastObserved(events: seq<StopEvent>): Option<StopEvent> {
    if events == [] then None
    else if events[|events| - 1].detectionMethod == ByStoppedAt then Some(events[|events| - 1])
    else LastObserved(events[..|events| - 1])
  }

  function ValidatedInBatch(events: seq<StopEvent>): seq<StopEvent> {
    match LastObserved(events)
    case None => events
    case Some(reference) => KeepBeside(events, reference)
  }

  // ----- candidates -----

  /** What every candidate of one trip and vehicle shares. */
  datatype Source = Source(
    agency: Agency,
    tripId: string,
    vehicleId: Option<string>,
    licensePlate: Option<string>)

  function NonEmpty(s: string): Option<string> {
    if s == "" then None else Some(s)
  }

  function CreatedEvent(data: StaticData, source: Source, stopSequence: int, eventTime: Instant, serviceDate: Date,
                        trip: Trip, stopTime: StopTime, how: DetectionMethod, isEstimated: bool): Option<StopEvent>
  {
    var stop := Get(data.stops, stopTime.stopId);
    var hash := Get(data.hashes, source.agency);
    var maxSeq := data.MaxStopSequence(source.tripId);
    if stop.None? || hash.None? || hash.value == "" || maxSeq.None? then None
    else
      var planned := PlannedTime(data.tz, serviceDate, stopTime.arrivalSeconds);
      Some(StopEvent(
             source.agency, source.tripId, serviceDate, stopSequence, stopTime.stopId,
             trip.routeShortName, stop.value.stopName, stop.value.stopDesc, trip.directionId, trip.headsign,
             planned, eventTime, DelaySeconds(eventTime, planned),
             source.vehicleId, source.licensePlate, how, isEstimated, hash.value, maxSeq.value))
  }

  /** The events a scan over the stop sequences lo..hi collects, in order. */
  function Collect(candidate: int -> Option<StopEvent>, lo: int, hi: int): seq<StopEvent>
    decreases hi - lo
  {
    if hi <= lo then []
    else
      Collect(candidate, lo, hi - 1)
      + match candidate(hi - 1) case None => [] case Some(e) => [e]
  }

  lemma CollectNext(candidate: int -> Option<StopEvent>, lo: int, q: int, found: Option<StopEvent>)
    requires lo <= q && candidate(q) == found
    ensures Collect(candidate, lo, q + 1) ==
              Collect(candidate, lo, q) + if found.Some? then [found.value] else []
  {}

  datatype Context = Context(
    vp: VehiclePosition,
    prevState: Option<VehicleState>,
    serviceDate: Date,
    trip: Trip,
    stopTime: StopTime,
    stopSequence: int)
  {
    function Origin(): Source {
      Source(vp.agency, vp.tripId, NonEmpty(vp.vehicleId), vp.licensePlate)
    }

    function Day(): TripDay {
      TripDay(vp.agency, vp.tripId, serviceDate)
    }
  }

  function StoppedAtEvents(data: StaticData, saved: SavedStore, ctx: Context): seq<StopEvent> {
    if ctx.vp.status != Some(StoppedAt) then []
    else if SavedKey(ctx.Day(), ctx.stopSequence) in saved then []
    else
      match CreatedEvent(data, ctx.Origin(), ctx.stopSequence, ctx.vp.timestamp, ctx.serviceDate, ctx.trip,
                         ctx.stopTime, ByStoppedAt, false)
      case None => []
      case Some(e) => [e]
  }

  /** The estimate for a missed stop of the current trip, from its predicted arrival. */
  function JumpEventAt(data: StaticData, saved: SavedStore, predictions: PredictionStore, ctx: Context, missed: int)
    : Option<StopEvent>
  {
    if SavedKey(ctx.Day(), missed) in saved then None
    else
      var arrival := PredictedArrival(predictions, TripKey(ctx.vp.agency, ctx.vp.tripId), missed);
      var stopTime := data.StopTimeAt(ctx.vp.tripId, missed);
      if arrival.None? || stopTime.None? then None
      else CreatedEvent(data, ctx.Origin(), missed, arrival.value, ctx.serviceDate, ctx.trip, stopTime.value, BySeqJump,
                        true)
  }

  function JumpCandidate(data: StaticData, saved: SavedStore, predictions: PredictionStore, ctx: Context)
    : int -> Option<StopEvent>
  {
    (missed: int) => JumpEventAt(data, saved, predictions, ctx, missed)
  }

  /** A half-open range of stop sequences. */
  datatype Window = Window(lo: int, hi: int) {
    predicate Has(q: int) {
      lo <= q < hi
    }
  }

  /** The stops a vehicle skipped: from the one it was last recorded at up to, and without, the
      one it is at now. */
  function JumpWindow(prevState: Option<VehicleState>, tripId: string, stopSequence: int): Window {
    if prevState.None? || prevState.value.tripId != tripId || stopSequence <= prevState.value.currentStopSequence
    then Window(0, 0)
    else Window(prevState.value.currentStopSequence, stopSequence)
  }

  function SeqJumpEvents(data: StaticData, saved: SavedStore, predictions: PredictionStore, ctx: Context)
    : seq<StopEvent>
  {
    var w := JumpWindow(ctx.prevState, ctx.vp.tripId, ctx.stopSequence);
    Collect(JumpCandidate(data, saved, predictions, ctx), w.lo, w.hi)
  }

  /** The estimate for a stop of a trip the vehicle has left. */
  function FinalEventAt(data: StaticData, saved: SavedStore, predictions: PredictionStore, prev: VehicleState,
                        trip: Trip, maxSeq: int, q: int): Option<StopEvent>
  {
    match data.StopTimeAt(prev.tripId, q)
    case None => None
    case Some(stopTime) =>
      var serviceDate := ServiceDate(data.tz, prev.lastTimestamp, stopTime.arrivalSeconds);
      if SavedKey(TripDay(prev.agency, prev.tripId, serviceDate), q) in saved then None
      else
        var cache := Get(predictions, TripKey(prev.agency, prev.tripId));
        if cache.None? || q !in cache.value.stops then None
        else FinalEventFrom(data, prev, trip, maxSeq, stopTime, q, serviceDate, cache.value.stops[q])
  }

  /** The last stop's arrival is the one predicted first, any other's the one predicted last. */
  function FinalEventFrom(data: StaticData, prev: VehicleState, trip: Trip, maxSeq: int, stopTime: StopTime, q: int,
                          serviceDate: Date, cached: CachedStopTime): Option<StopEvent>
  {
    var source := Source(prev.agency, prev.tripId, None, Some(prev.licensePlate));
    if q == maxSeq then
      CreatedEvent(data, source, q, cached.firstSeenArrival, serviceDate, trip, stopTime, ByTimeout, true)
    else
      CreatedEvent(data, source, q, cached.lastSeenArrival, serviceDate, trip, stopTime, BySeqJump, true)
  }

  function FinalCandidate(data: StaticData, saved: SavedStore, predictions: PredictionStore, prev: VehicleState,
                          trip: Trip, maxSeq: int): int -> Option<StopEvent>
  {
    (q: int) => FinalEventAt(data, saved, predictions, prev, trip, maxSeq, q)
  }

  /** The stops left ahead of a vehicle when it leaves a trip. */
  function FinalWindow(data: StaticData, prev: VehicleState): Window {
    if prev.tripId !in data.trips || data.MaxStopSequence(prev.tripId).None? then Window(0, 0)
    else Window(prev.currentStopSequence + 1, data.MaxStopSequence(prev.tripId).value + 1)
  }

  function FinalScan(data: StaticData, saved: SavedStore, predictions: PredictionStore, prev: VehicleState,
                     trip: Trip, maxSeq: int): seq<StopEvent>
  {
    Collect(FinalCandidate(data, saved, predictions, prev, trip, maxSeq), prev.currentStopSequence + 1, maxSeq + 1)
  }

  function FinalEvents(data: StaticData, saved: SavedStore, predictions: PredictionStore, prev: VehicleState)
    : seq<StopEvent>
  {
    var maxSeq := data.MaxStopSequence(prev.tripId);
    if prev.tripId !in data.trips || maxSeq.None? then []
    else
      FinalScan(data, saved, predictions, prev, data.trips[prev.tripId], maxSeq.value)
  }

  lemma FinalScanCollects(data: StaticData, saved: SavedStore, predictions: PredictionStore, prev: VehicleState,
                          trip: Trip, maxSeq: int)
    ensures FinalScan(data, saved, predictions, prev, trip, maxSeq) ==
              Collect(FinalCandidate(data, saved, predictions, prev, trip, maxSeq),
                      prev.currentStopSequence + 1, maxSeq + 1)
  {}

  // ----- one update -----

  datatype Stores = Stores(vehicles: VehicleStore, saved: SavedStore, predictions: PredictionStore)

  /** An update's outcome. `completion` and `detection` are the events marked as saved, for the
      trip left behind and for the current one; `returned` is what the caller gets. */
  datatype Outcome = Outcome(stores: Stores, completion: seq<StopEvent>, detection: seq<StopEvent>,
                             returned: seq<StopEvent>) {
    function Marked(): seq<StopEvent> {
      completion + detection
    }
  }

  predicate ChangesTrip(stores: Stores, vp: VehiclePosition) {
    && vp.licensePlate.Some? && vp.stopSequence.Some?
    && var key := VehicleKey(vp.agency, vp.licensePlate.value);
       key in stores.vehicles && stores.vehicles[key].tripId != vp.tripId
  }

  /** The stores after the trip a vehicle left has been finalised and cleaned up. */
  function Completed(data: StaticData, stores: Stores, vp: VehiclePosition): Persisted
    requires ChangesTrip(stores, vp)
  {
    var prev := stores.vehicles[VehicleKey(vp.agency, vp.licensePlate.value)];
    Persist(stores.saved, FinalEvents(data, stores.saved, stores.predictions, prev), prev.agency, prev.tripId, None)
  }

  function AfterTripChange(data: StaticData, stores: Stores, vp: VehiclePosition): Stores {
    if !ChangesTrip(stores, vp) then stores
    else
      var prev := stores.vehicles[VehicleKey(vp.agency, vp.licensePlate.value)];
      Stores(stores.vehicles - {VehicleKey(vp.agency, prev.licensePlate)},
             Completed(data, stores, vp).saved,
             stores.predictions - {TripKey(vp.agency, prev.tripId)})
  }

  function CompletionEvents(data: StaticData, stores: Stores, vp: VehiclePosition): seq<StopEvent> {
    if ChangesTrip(stores, vp) then Completed(data, stores, vp).events else []
  }

  /** Whether a position names a stop of a known trip, so that it is examined and recorded. */
  predicate Recorded(data: StaticData, vp: VehiclePosition) {
    && vp.licensePlate.Some? && vp.stopSequence.Some?
    && vp.tripId in data.trips
    && data.StopTimeAt(vp.tripId, vp.stopSequence.value).Some?
  }

  /** The context of a recorded position of a vehicle last seen in `prevState`. */
  function ContextFrom(data: StaticData, vp: VehiclePosition, prevState: Option<VehicleState>): Context
    requires Recorded(data, vp)
  {
    var stopTime := data.StopTimeAt(vp.tripId, vp.stopSequence.value).value;
    Context(vp, prevState, ServiceDate(data.tz, vp.timestamp, stopTime.arrivalSeconds),
            data.trips[vp.tripId], stopTime, vp.stopSequence.value)
  }

  /** Where the vehicle was last seen on the trip it now reports, if it was. */
  function PrevOnTrip(vehicles: VehicleStore, vp: VehiclePosition): Option<VehicleState>
    requires vp.licensePlate.Some?
  {
    var prev := Get(vehicles, VehicleKey(vp.agency, vp.licensePlate.value));
    if prev.Some? && prev.value.tripId != vp.tripId then None else prev
  }

  function ContextOf(data: StaticData, vehicles: VehicleStore, vp: VehiclePosition): Context
    requires Recorded(data, vp)
  {
    ContextFrom(data, vp, PrevOnTrip(vehicles, vp))
  }

  function Detected(data: StaticData, saved: SavedStore, predictions: PredictionStore, ctx: Context): seq<StopEvent> {
    StoppedAtEvents(data, saved, ctx) + SeqJumpEvents(data, saved, predictions, ctx)
  }

  function StateOf(vp: VehiclePosition): VehicleState
    requires vp.licensePlate.Some? && vp.stopSequence.Some?
  {
    VehicleState(vp.agency, vp.licensePlate.value, vp.tripId, vp.stopSequence.value, vp.timestamp)
  }

  function Pruned(vp: VehiclePosition, events: seq<StopEvent>): seq<StopEvent> {
    if vp.status == Some(StoppedAt) && |events| > 1 then ValidatedInBatch(events) else events
  }

  datatype Examined = Examined(stores: Stores, returned: seq<StopEvent>)

  /** The detection and saving that a position with a known stop triggers. */
  function PersistedPosition(data: StaticData, stores: Stores, vp: VehiclePosition, prevState: Option<VehicleState>)
    : Persisted
    requires Recorded(data, vp)
  {
    var ctx := ContextFrom(data, vp, prevState);
    Persist(stores.saved, Detected(data, stores.saved, stores.predictions, ctx), vp.agency, vp.tripId,
            Some(ctx.serviceDate))
  }

  function ExaminedPosition(data: StaticData, stores: Stores, vp: VehiclePosition, prevState: Option<VehicleState>)
    : Examined
  {
    if !Recorded(data, vp) then Examined(stores, [])
    else
      var persisted := PersistedPosition(data, stores, vp, prevState);
      Examined(
        Stores(stores.vehicles[VehicleKey(vp.agency, vp.licensePlate.value) := StateOf(vp)], persisted.saved,
               stores.predictions),
        Pruned(vp, persisted.events))
  }

  function ProcessedUpdate(data: StaticData, stores: Stores, vp: VehiclePosition): Outcome {
    if vp.stopSequence.None? || vp.licensePlate.None? then Outcome(stores, [], [], [])
    else
      var completion := CompletionEvents(data, stores, vp);
      var after, prev := AfterTripChange(data, stores, vp), PrevOnTrip(stores.vehicles, vp);
      var examined := ExaminedPosition(data, after, vp, prev);
      Outcome(
        examined.stores, completion,
        if Recorded(data, vp) then PersistedPosition(data, after, vp, prev).events else [],
        completion + examined.returned)
  }

  // ----- runs -----

  /** What reaches the stores: a vehicle position for the detector, or a trip update the poller
      puts into the prediction cache. */
  datatype Input =
    | Position(vp: VehiclePosition)
    | Prediction(update: TripUpdate, now: Instant)

  function PredictionsAfter(data: StaticData, predictions: PredictionStore, u: TripUpdate, now: Instant)
    : PredictionStore
  {
    var idToSeq := StopIdToSequence(data.StopTimesForTrip(u.tripId));
    predictions[KeyOf(u) := UpdatedCache(Get(predictions, KeyOf(u)), u, idToSeq, now)]
  }

  /** A trip update as the poller meets it, with the time it does. */
  datatype FeedUpdate = FeedUpdate(update: TripUpdate, now: Instant)

  /** The prediction cache after some trip updates. */
  function FedPredictions(data: StaticData, predictions: PredictionStore, feed: seq<FeedUpdate>): PredictionStore {
    if feed == [] then predictions
    else
      var last := feed[|feed| - 1];
      PredictionsAfter(data, FedPredictions(data, predictions, feed[..|feed| - 1]), last.update, last.now)
  }

  function Step(data: StaticData, stores: Stores, input: Input): Outcome {
    match input
    case Position(vp) => ProcessedUpdate(data, stores, vp)
    case Prediction(u, now) =>
      Outcome(stores.(predictions := PredictionsAfter(data, stores.predictions, u, now)), [], [], [])
  }

  const EMPTY := Stores(map[], map[], map[])

  function RunStores(data: StaticData, stores: Stores, inputs: seq<Input>): Stores {
    if inputs == [] then stores
    else Step(data, RunStores(data, stores, inputs[..|inputs| - 1]), inputs[|inputs| - 1]).stores
  }

  /** Every event a run marks as saved, in order. */
  function RunMarked(data: StaticData, stores: Stores, inputs: seq<Input>): seq<StopEvent> {
    if inputs == [] then []
    else
      var front := inputs[..|inputs| - 1];
      RunMarked(data, stores, front) + Step(data, RunStores(data, stores, front), inputs[|inputs| - 1]).Marked()
  }

  /** Every event a run returns, in order. */
  function RunReturned(data: StaticData, stores: Stores, inputs: seq<Input>): seq<StopEvent> {
    if inputs == [] then []
    else
      var front := inputs[..|inputs| - 1];
      RunReturned(data, stores, front) + Step(data, RunStores(data, stores, front), inputs[|inputs| - 1]).returned
  }
}
