/** Where estimated event times come from: over every run, from the history of trip updates. */
module Estimates {
  import opened Domain
  import opened GtfsStatic
  import opened Predictions
  import opened PredictionHistory
  import opened Detection
  import opened SaveLog

  /** What one input does to the prediction cache. */
  function OpsOfStep(data: StaticData, stores: Stores, input: Input): seq<StoreOp> {
    match input
    case Prediction(u, now) =>
      [Update(Arrival(u, StopIdToSequence(data.StopTimesForTrip(u.tripId)), now))]
    case Position(vp) =>
      if ChangesTrip(stores, vp)
      then [Delete(TripKey(vp.agency, stores.vehicles[VehicleKey(vp.agency, vp.licensePlate.value)].tripId))]
      else []
  }

  function OpsOf(data: StaticData, inputs: seq<Input>): seq<StoreOp> {
    if inputs == [] then []
    else
      var front := inputs[..|inputs| - 1];
      OpsOf(data, front) + OpsOfStep(data, RunStores(data, EMPTY, front), inputs[|inputs| - 1])
  }

  /** The prediction cache of a run is what its updates and deletions make of an empty one. */
  lemma {:induction false} RunPredictions(data: StaticData, inputs: seq<Input>)
    ensures RunStores(data, EMPTY, inputs).predictions == ApplyOps(OpsOf(data, inputs))
  {
    if inputs != [] {
      var front, last := inputs[..|inputs| - 1], inputs[|inputs| - 1];
      RunPredictions(data, front);
      var ops, more := OpsOf(data, front), OpsOfStep(data, RunStores(data, EMPTY, front), last);
      if more != [] {
        assert (ops + more)[..|ops + more| - 1] == ops;
      } else {
        assert ops + more == ops;
      }
      StepPredictions(data, RunStores(data, EMPTY, front), last);
    }
  }

  lemma StepPredictions(data: StaticData, stores: Stores, input: Input)
    ensures var more := OpsOfStep(data, stores, input);
            Step(data, stores, input).stores.predictions ==
              if more == [] then stores.predictions else ApplyOp(stores.predictions, more[0])
  {}

  /** The time of an estimate is the cached arrival of its stop: the first one seen for a trip's
      last stop when the vehicle has left the trip, the last one seen otherwise. */
  predicate TimeFromCache(predictions: PredictionStore, e: StopEvent) {
    var key := TripKey(e.agency, e.tripId);
    && key in predictions && e.stopSequence in predictions[key].stops
    && var cached := predictions[key].stops[e.stopSequence];
       e.eventTime == if e.detectionMethod == ByTimeout then cached.firstSeenArrival else cached.lastSeenArrival
  }

  lemma JumpTimes(data: StaticData, saved: SavedStore, predictions: PredictionStore, ctx: Context)
    requires Grounded(data, ctx)
    ensures forall e | e in SeqJumpEvents(data, saved, predictions, ctx) :: TimeFromCache(predictions, e)
    ensures ctx.prevState.None? ==> SeqJumpEvents(data, saved, predictions, ctx) == []
  {
    var w := JumpWindow(ctx.prevState, ctx.vp.tripId, ctx.stopSequence);
    var candidate := JumpCandidate(data, saved, predictions, ctx);
    JumpCandidatesFresh(data, saved, predictions, ctx);
    CollectExact(candidate, w.lo, w.hi);
    forall e | e in SeqJumpEvents(data, saved, predictions, ctx)
      ensures TimeFromCache(predictions, e)
    {
      assert candidate(e.stopSequence) == Some(e);
    }
  }

  lemma FinalTimes(data: StaticData, saved: SavedStore, predictions: PredictionStore, prev: VehicleState)
    ensures forall e | e in FinalEvents(data, saved, predictions, prev) ::
              TimeFromCache(predictions, e)
              && (e.detectionMethod == ByTimeout <==> Some(e.stopSequence) == data.MaxStopSequence(prev.tripId))
  {
    var maxSeq := data.MaxStopSequence(prev.tripId);
    if prev.tripId in data.trips && maxSeq.Some? {
      var w := FinalWindow(data, prev);
      var candidate := FinalCandidate(data, saved, predictions, prev, data.trips[prev.tripId], maxSeq.value);
      FinalCandidatesFresh(data, saved, predictions, prev, data.trips[prev.tripId], maxSeq.value);
      CollectExact(candidate, w.lo, w.hi);
      forall e | e in FinalEvents(data, saved, predictions, prev)
        ensures TimeFromCache(predictions, e)
        ensures e.detectionMethod == ByTimeout <==> Some(e.stopSequence) == maxSeq
      {
        assert candidate(e.stopSequence) == Some(e);
      }
    }
  }

  /** Every estimate an update marks takes its time from the cache as it stood before the update. */
  lemma MarkedTimes(data: StaticData, stores: Stores, vp: VehiclePosition)
    ensures forall e | e in ProcessedUpdate(data, stores, vp).Marked() && e.isEstimated ::
              TimeFromCache(stores.predictions, e)
  {
    if ChangesTrip(stores, vp) {
      var prev := stores.vehicles[VehicleKey(vp.agency, vp.licensePlate.value)];
      FinalTimes(data, stores.saved, stores.predictions, prev);
      PersistedAreCandidates(stores.saved, FinalEvents(data, stores.saved, stores.predictions, prev), prev.agency,
                             prev.tripId, None);
    }
    if Recorded(data, vp) {
      var after, ctx := AfterTripChange(data, stores, vp), ContextOf(data, stores.vehicles, vp);
      DetectionIsGood(data, stores, vp);
      JumpTimes(data, after.saved, after.predictions, ctx);
      StoppedAtEventsFresh(data, after.saved, ctx);
    }
  }

  /** The event's time is, for a timeout, the one at which the history first saw its stop, and for a
      jump the one at which it last saw it. */
  ghost predicate FromHistory(history: seq<Arrival>, e: StopEvent) {
    if e.detectionMethod == ByTimeout then FirstSeen(history, e.stopSequence, e.eventTime)
    else exists stopId :: LastSeen(history, e.stopSequence, e.eventTime, stopId)
  }

  /** In every run, an estimate's time is one that its trip's updates, since the trip's predictions
      were last dropped, gave for the stop. */
  lemma EstimateComesFromHistory(data: StaticData, inputs: seq<Input>, vp: VehiclePosition, e: StopEvent)
    requires e in Step(data, RunStores(data, EMPTY, inputs), Position(vp)).Marked() && e.isEstimated
    ensures FromHistory(TripHistory(OpsOf(data, inputs), TripKey(e.agency, e.tripId)), e)
  {
    MarkedTimes(data, RunStores(data, EMPTY, inputs), vp);
    RunPredictions(data, inputs);
    CachedTimeIsFromHistory(OpsOf(data, inputs), e);
  }

  lemma CachedTimeIsFromHistory(ops: seq<StoreOp>, e: StopEvent)
    requires TimeFromCache(ApplyOps(ops), e)
    ensures FromHistory(TripHistory(ops, TripKey(e.agency, e.tripId)), e)
  {
    var key := TripKey(e.agency, e.tripId);
    var history := TripHistory(ops, key);
    EntriesAreIndependent(ops, key);
    assert Replay(history) == Some(ApplyOps(ops)[key]);
    CacheTellsHistory(history);
  }
}
