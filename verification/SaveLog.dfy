/** What every run of the detector keeps: the log of saves explains the saved store, saves each
    stop at most once, and orders neighbouring stops. */
module SaveLog {
  import opened Domain
  import opened GtfsStatic
  import opened Predictions
  import opened ServiceDay
  import opened Detection

  /** The saved store after the events of `log` have been marked in order. */
  function MarkAll(saved: SavedStore, log: seq<StopEvent>): SavedStore {
    if log == [] then saved
    else
      var e := log[|log| - 1];
      MarkAll(saved, log[..|log| - 1])[EventKey(e) := DataOf(e)]
  }

  /** Each event of the log found its place in the store free and met the acceptance rules
      against everything saved before it. */
  ghost predicate GoodLog(saved: SavedStore, log: seq<StopEvent>) {
    log != [] ==>
      var front, e := log[..|log| - 1], log[|log| - 1];
      && GoodLog(saved, front)
      && EventKey(e) !in MarkAll(saved, front)
      && Acceptable(MarkAll(saved, front), e, DayOf(e))
  }

  lemma {:induction false} MarkAllConcat(saved: SavedStore, a: seq<StopEvent>, b: seq<StopEvent>)
    ensures MarkAll(saved, a + b) == MarkAll(MarkAll(saved, a), b)
  {
    if b == [] {
      assert a + b == a;
    } else {
      MarkAllConcat(saved, a, b[..|b| - 1]);
      ConcatFront(a, b);
    }
  }

  lemma {:induction false} GoodLogConcat(saved: SavedStore, a: seq<StopEvent>, b: seq<StopEvent>)
    requires GoodLog(saved, a) && GoodLog(MarkAll(saved, a), b)
    ensures GoodLog(saved, a + b)
  {
    if b == [] {
      assert a + b == a;
    } else {
      GoodLogConcat(saved, a, b[..|b| - 1]);
      MarkAllConcat(saved, a, b[..|b| - 1]);
      ConcatFront(a, b);
    }
  }

  /** A good log is good at each of its events. */
  lemma {:induction false} GoodAt(saved: SavedStore, log: seq<StopEvent>, i: nat)
    requires GoodLog(saved, log) && i < |log|
    ensures EventKey(log[i]) !in MarkAll(saved, log[..i])
    ensures Acceptable(MarkAll(saved, log[..i]), log[i], DayOf(log[i]))
  {
    var front := log[..|log| - 1];
    if i < |front| {
      GoodAt(saved, front, i);
      assert front[..i] == log[..i];
    }
  }

  lemma {:induction false} MarkedKeys(saved: SavedStore, log: seq<StopEvent>, k: SavedKey)
    ensures k in MarkAll(saved, log) <==> k in saved || exists i :: 0 <= i < |log| && EventKey(log[i]) == k
  {
    if log != [] {
      var front := log[..|log| - 1];
      MarkedKeys(saved, front, k);
      assert forall i | 0 <= i < |front| :: front[i] == log[i];
    }
  }

  /** In a good log nothing is overwritten: each event's data is what the store ends up with, and
      what was saved before the log stays. */
  lemma {:induction false} MarkedDataStays(saved: SavedStore, log: seq<StopEvent>)
    requires GoodLog(saved, log)
    ensures forall k | k in saved :: k in MarkAll(saved, log) && MarkAll(saved, log)[k] == saved[k]
    ensures forall i | 0 <= i < |log| ::
              && EventKey(log[i]) in MarkAll(saved, log)
              && MarkAll(saved, log)[EventKey(log[i])] == DataOf(log[i])
  {
    if log != [] {
      var front := log[..|log| - 1];
      MarkedDataStays(saved, front);
      assert forall i | 0 <= i < |front| :: front[i] == log[i];
    }
  }

  ghost predicate DistinctKeys(events: seq<StopEvent>) {
    forall i, j | 0 <= i < j < |events| :: EventKey(events[i]) != EventKey(events[j])
  }

  lemma {:induction false} GoodLogKeysDistinct(saved: SavedStore, log: seq<StopEvent>)
    requires GoodLog(saved, log)
    ensures DistinctKeys(log)
    ensures forall i | 0 <= i < |log| :: EventKey(log[i]) !in saved
  {
    forall j | 0 <= j < |log|
      ensures EventKey(log[j]) !in saved
      ensures forall i | 0 <= i < j :: EventKey(log[i]) != EventKey(log[j])
    {
      GoodAt(saved, log, j);
      MarkedKeys(saved, log[..j], EventKey(log[j]));
      assert forall i | 0 <= i < j :: log[..j][i] == log[i];
    }
  }

  // ----- from candidates to log entries -----

  /** The scan's candidate for stop q carries q as its sequence. */
  ghost predicate WellPlaced(candidate: int -> Option<StopEvent>) {
    forall q :: candidate(q).Some? ==> candidate(q).value.stopSequence == q
  }

  ghost predicate Ascending(events: seq<StopEvent>) {
    forall i, j | 0 <= i < j < |events| :: events[i].stopSequence < events[j].stopSequence
  }

  /** A scan collects exactly its candidates, in ascending stop order. */
  lemma {:induction false} CollectExact(candidate: int -> Option<StopEvent>, lo: int, hi: int)
    requires WellPlaced(candidate)
    ensures Ascending(Collect(candidate, lo, hi))
    ensures forall e :: e in Collect(candidate, lo, hi)
              <==> lo <= e.stopSequence < hi && candidate(e.stopSequence) == Some(e)
    decreases hi - lo
  {
    if lo < hi {
      CollectExact(candidate, lo, hi - 1);
      var front := Collect(candidate, lo, hi - 1);
      assert forall i | 0 <= i < |front| :: front[i] in front;
    }
  }

  /** An event says of its stop what the static feed says of it, and its delay is measured against
      the schedule of the stop and service date it names. */
  predicate AgreesWithFeed(data: StaticData, e: StopEvent) {
    && data.StopTimeAt(e.tripId, e.stopSequence).Some?
    && var row := data.StopTimeAt(e.tripId, e.stopSequence).value;
    && e.plannedTime == PlannedTime(data.tz, e.serviceDate, row.arrivalSeconds)
    && e.delaySeconds == e.eventTime - e.plannedTime
    && e.stopId == row.stopId && Get(data.stops, e.stopId) == Some(Stop(e.stopName, e.stopDesc))
    && Get(data.trips, e.tripId) == Some(Trip(e.lineNumber, e.directionId, e.headsign))
    && Get(data.hashes, e.agency) == Some(e.staticHash)
    && data.MaxStopSequence(e.tripId) == Some(e.maxStopSequence)
  }

  /** The date an event is filed under. */
  predicate FiledUnder(e: StopEvent, agency: Agency, tripId: string, serviceDate: Option<Date>) {
    e.agency == agency && e.tripId == tripId && (serviceDate.Some? ==> e.serviceDate == serviceDate.value)
  }

  ghost predicate DistinctStops(raw: seq<StopEvent>) {
    forall i, j | 0 <= i < j < |raw| :: raw[i].stopSequence != raw[j].stopSequence
  }

  /** Candidates filed under one agency and trip (and, if given, one date), all new to the store. */
  ghost predicate Fresh(data: StaticData, saved: SavedStore, raw: seq<StopEvent>, agency: Agency, tripId: string,
                        serviceDate: Option<Date>)
  {
    && (forall e | e in raw ::
          FiledUnder(e, agency, tripId, serviceDate) && EventKey(e) !in saved && AgreesWithFeed(data, e))
    && DistinctStops(raw)
  }

  lemma {:induction false} PersistedAreCandidates(saved: SavedStore, raw: seq<StopEvent>, agency: Agency,
                                                  tripId: string, serviceDate: Option<Date>)
    ensures forall e | e in Persist(saved, raw, agency, tripId, serviceDate).events :: e in raw
  {
    if raw != [] {
      PersistedAreCandidates(saved, raw[..|raw| - 1], agency, tripId, serviceDate);
    }
  }

  /** Persisting fresh candidates marks a good log, made of candidates in their order. */
  lemma {:induction false} PersistMarksGoodLog(data: StaticData, saved: SavedStore, raw: seq<StopEvent>, agency: Agency,
                                               tripId: string, serviceDate: Option<Date>)
    requires Fresh(data, saved, raw, agency, tripId, serviceDate)
    ensures var p := Persist(saved, raw, agency, tripId, serviceDate);
            && p.saved == MarkAll(saved, p.events)
            && GoodLog(saved, p.events)
            && (forall e | e in p.events :: e in raw)
  {
    PersistedAreCandidates(saved, raw, agency, tripId, serviceDate);
    if raw != [] {
      var front, e := raw[..|raw| - 1], raw[|raw| - 1];
      PersistMarksGoodLog(data, saved, front, agency, tripId, serviceDate);
      var before := Persist(saved, front, agency, tripId, serviceDate);
      NewCandidateIsNew(saved, front, e, before.events);
      assert FiledUnder(e, agency, tripId, serviceDate) by { assert e in raw; }
      PersistOne(saved, raw, agency, tripId, serviceDate);
      GoodLogGrows(saved, before.events, e);
    }
  }

  lemma PersistOne(saved: SavedStore, raw: seq<StopEvent>, agency: Agency, tripId: string, serviceDate: Option<Date>)
    requires raw != [] && FiledUnder(raw[|raw| - 1], agency, tripId, serviceDate)
    ensures var before := Persist(saved, raw[..|raw| - 1], agency, tripId, serviceDate);
            var e := raw[|raw| - 1];
            Persist(saved, raw, agency, tripId, serviceDate) ==
              if Acceptable(before.saved, e, DayOf(e))
              then Persisted(before.saved[EventKey(e) := DataOf(e)], before.events + [e])
              else before
  {}

  lemma GoodLogGrows(saved: SavedStore, log: seq<StopEvent>, e: StopEvent)
    requires GoodLog(saved, log) && EventKey(e) !in MarkAll(saved, log)
    ensures MarkAll(saved, log + [e]) == MarkAll(saved, log)[EventKey(e) := DataOf(e)]
    ensures Acceptable(MarkAll(saved, log), e, DayOf(e)) ==> GoodLog(saved, log + [e])
  {
    assert (log + [e])[..|log|] == log;
  }

  lemma NewCandidateIsNew(saved: SavedStore, front: seq<StopEvent>, e: StopEvent, marked: seq<StopEvent>)
    requires DistinctStops(front + [e]) && EventKey(e) !in saved
    requires forall m | m in marked :: m in front
    ensures EventKey(e) !in MarkAll(saved, marked)
  {
    MarkedKeys(saved, marked, EventKey(e));
    forall i | 0 <= i < |marked|
      ensures EventKey(marked[i]) != EventKey(e)
    {
      assert marked[i] in front;
      var j :| 0 <= j < |front| && front[j] == marked[i];
      assert (front + [e])[j] == marked[i] && (front + [e])[|front|] == e;
    }
  }

  /** The trip and stop of the context are the feed's. */
  predicate Grounded(data: StaticData, ctx: Context) {
    && Get(data.trips, ctx.vp.tripId) == Some(ctx.trip)
    && data.StopTimeAt(ctx.vp.tripId, ctx.stopSequence) == Some(ctx.stopTime)
  }

  lemma JumpCandidatesFresh(data: StaticData, saved: SavedStore, predictions: PredictionStore, ctx: Context)
    requires Grounded(data, ctx)
    ensures var candidate := JumpCandidate(data, saved, predictions, ctx);
            && WellPlaced(candidate)
            && forall q | candidate(q).Some? ::
                 var e := candidate(q).value;
                 DayOf(e) == ctx.Day() && EventKey(e) !in saved && AgreesWithFeed(data, e)
                 && e.isEstimated && e.detectionMethod == BySeqJump
  {}

  /** The stops skipped since the last position, each estimated, none saved before. */
  lemma JumpEventsFresh(data: StaticData, saved: SavedStore, predictions: PredictionStore, ctx: Context)
    requires Grounded(data, ctx)
    ensures var jumped := SeqJumpEvents(data, saved, predictions, ctx);
            var w := JumpWindow(ctx.prevState, ctx.vp.tripId, ctx.stopSequence);
            && Ascending(jumped)
            && forall e | e in jumped ::
                 && w.Has(e.stopSequence) && e.stopSequence < ctx.stopSequence
                 && DayOf(e) == ctx.Day() && EventKey(e) !in saved && AgreesWithFeed(data, e)
                 && e.isEstimated && e.detectionMethod == BySeqJump
  {
    var w := JumpWindow(ctx.prevState, ctx.vp.tripId, ctx.stopSequence);
    JumpCandidatesFresh(data, saved, predictions, ctx);
    CollectExact(JumpCandidate(data, saved, predictions, ctx), w.lo, w.hi);
  }

  /** At most one event is observed, at the reported stop. */
  lemma StoppedAtEventsFresh(data: StaticData, saved: SavedStore, ctx: Context)
    requires Grounded(data, ctx)
    ensures var stopped := StoppedAtEvents(data, saved, ctx);
            && |stopped| <= 1
            && forall e | e in stopped ::
                 && e.stopSequence == ctx.stopSequence
                 && DayOf(e) == ctx.Day() && EventKey(e) !in saved && AgreesWithFeed(data, e)
                 && !e.isEstimated && e.detectionMethod == ByStoppedAt
  {}

  lemma DetectedFresh(data: StaticData, saved: SavedStore, predictions: PredictionStore, ctx: Context)
    requires Grounded(data, ctx)
    ensures Fresh(data, saved, Detected(data, saved, predictions, ctx), ctx.vp.agency, ctx.vp.tripId,
                  Some(ctx.serviceDate))
  {
    var stopped, jumped := StoppedAtEvents(data, saved, ctx), SeqJumpEvents(data, saved, predictions, ctx);
    StoppedAtEventsFresh(data, saved, ctx);
    JumpEventsFresh(data, saved, predictions, ctx);
    ObservedBesideAscending(stopped, jumped, ctx.stopSequence);
  }

  lemma ObservedBesideAscending(stopped: seq<StopEvent>, jumped: seq<StopEvent>, current: int)
    requires |stopped| <= 1 && (forall e | e in stopped :: e.stopSequence == current)
    requires Ascending(jumped) && (forall e | e in jumped :: e.stopSequence < current)
    ensures DistinctStops(stopped + jumped)
  {
    var raw, n := stopped + jumped, |stopped|;
    forall i, j | 0 <= i < j < |raw|
      ensures raw[i].stopSequence != raw[j].stopSequence
    {
      assert raw[j] == jumped[j - n] && jumped[j - n] in jumped;
      if n <= i {
        assert raw[i] == jumped[i - n];
      } else {
        assert raw[i] == stopped[i];
      }
    }
  }

  lemma FinalCandidatesFresh(data: StaticData, saved: SavedStore, predictions: PredictionStore, prev: VehicleState,
                             trip: Trip, maxSeq: int)
    requires Get(data.trips, prev.tripId) == Some(trip)
    ensures var candidate := FinalCandidate(data, saved, predictions, prev, trip, maxSeq);
            && WellPlaced(candidate)
            && forall q | candidate(q).Some? ::
                 var e := candidate(q).value;
                 e.agency == prev.agency && e.tripId == prev.tripId && EventKey(e) !in saved && AgreesWithFeed(data, e)
                 && e.isEstimated
  {}

  lemma FinalEventsFresh(data: StaticData, saved: SavedStore, predictions: PredictionStore, prev: VehicleState)
    ensures Fresh(data, saved, FinalEvents(data, saved, predictions, prev), prev.agency, prev.tripId, None)
  {
    var maxSeq := data.MaxStopSequence(prev.tripId);
    if prev.tripId in data.trips && maxSeq.Some? {
      var w := FinalWindow(data, prev);
      var trip := data.trips[prev.tripId];
      FinalCandidatesFresh(data, saved, predictions, prev, trip, maxSeq.value);
      CollectExact(FinalCandidate(data, saved, predictions, prev, trip, maxSeq.value), w.lo, w.hi);
    }
  }

  // ----- steps and runs -----

  /** Completing the trip a vehicle left marks a good log of that trip's events. */
  lemma CompletionIsGood(data: StaticData, stores: Stores, vp: VehiclePosition)
    ensures var events := CompletionEvents(data, stores, vp);
            && AfterTripChange(data, stores, vp).saved == MarkAll(stores.saved, events)
            && GoodLog(stores.saved, events)
            && (forall e | e in events :: AgreesWithFeed(data, e) && e.tripId != vp.tripId)
            && (ChangesTrip(stores, vp) ==>
                  var prev := stores.vehicles[VehicleKey(vp.agency, vp.licensePlate.value)];
                  forall e | e in events :: e.agency == prev.agency && e.tripId == prev.tripId)
  {
    if ChangesTrip(stores, vp) {
      var prev := stores.vehicles[VehicleKey(vp.agency, vp.licensePlate.value)];
      var raw := FinalEvents(data, stores.saved, stores.predictions, prev);
      FinalEventsFresh(data, stores.saved, stores.predictions, prev);
      PersistMarksGoodLog(data, stores.saved, raw, prev.agency, prev.tripId, None);
    }
  }

  /** Detection marks a good log of the current trip's events. */
  lemma DetectionIsGood(data: StaticData, stores: Stores, vp: VehiclePosition)
    requires Recorded(data, vp)
    ensures var after, out := AfterTripChange(data, stores, vp), ProcessedUpdate(data, stores, vp);
            var ctx := ContextOf(data, stores.vehicles, vp);
            && out.stores.saved == MarkAll(after.saved, out.detection)
            && GoodLog(after.saved, out.detection)
            && (forall e | e in out.detection :: AgreesWithFeed(data, e) && DayOf(e) == ctx.Day())
            && (forall e | e in out.detection :: e in Detected(data, after.saved, after.predictions, ctx))
  {
    var after := AfterTripChange(data, stores, vp);
    var ctx := ContextOf(data, stores.vehicles, vp);
    DetectedFresh(data, after.saved, after.predictions, ctx);
    PersistMarksGoodLog(data, after.saved, Detected(data, after.saved, after.predictions, ctx), vp.agency, vp.tripId,
                        Some(ctx.serviceDate));
  }

  /** Every step changes the saved store by marking a good log, nothing else. */
  lemma StepIsGood(data: StaticData, stores: Stores, input: Input)
    ensures var out := Step(data, stores, input);
            && out.stores.saved == MarkAll(stores.saved, out.Marked())
            && GoodLog(stores.saved, out.Marked())
            && (forall e | e in out.Marked() :: AgreesWithFeed(data, e))
  {
    match input
    case Prediction(_, _) =>
    case Position(vp) =>
      var out := ProcessedUpdate(data, stores, vp);
      CompletionIsGood(data, stores, vp);
      if vp.stopSequence.None? || vp.licensePlate.None? {
      } else if !Recorded(data, vp) {
        assert out.Marked() == out.completion;
      } else {
        DetectionIsGood(data, stores, vp);
        MarkAllConcat(stores.saved, out.completion, out.detection);
        GoodLogConcat(stores.saved, out.completion, out.detection);
      }
  }

  /** Over every run, from any stores: the saved store is the initial one with the run's log
      marked in it, and the log is good. */
  lemma {:induction false} RunIsGood(data: StaticData, stores: Stores, inputs: seq<Input>)
    ensures var log := RunMarked(data, stores, inputs);
            && RunStores(data, stores, inputs).saved == MarkAll(stores.saved, log)
            && GoodLog(stores.saved, log)
            && (forall e | e in log :: AgreesWithFeed(data, e))
  {
    if inputs != [] {
      var front, last := inputs[..|inputs| - 1], inputs[|inputs| - 1];
      RunIsGood(data, stores, front);
      var before := RunStores(data, stores, front);
      StepIsGood(data, before, last);
      MarkAllConcat(stores.saved, RunMarked(data, stores, front), Step(data, before, last).Marked());
      GoodLogConcat(stores.saved, RunMarked(data, stores, front), Step(data, before, last).Marked());
    }
  }

  /** Each stop of a trip and date is marked at most once in a run, and never over an entry the
      store already held. */
  lemma MarkedAtMostOnce(data: StaticData, stores: Stores, inputs: seq<Input>)
    ensures var log := RunMarked(data, stores, inputs);
            && DistinctKeys(log) && (forall i | 0 <= i < |log| :: EventKey(log[i]) !in stores.saved)
            && (forall i, j | 0 <= i < j < |log| ::
                  || log[i].agency != log[j].agency || log[i].tripId != log[j].tripId
                  || log[i].serviceDate != log[j].serviceDate || log[i].stopSequence != log[j].stopSequence)
  {
    RunIsGood(data, stores, inputs);
    GoodLogKeysDistinct(stores.saved, RunMarked(data, stores, inputs));
  }

  /** The saved store holds the log's data and what it held at the start, and nothing else; both
      are still as they were first written. */
  lemma SavedStoreIsTheLog(data: StaticData, stores: Stores, inputs: seq<Input>, k: SavedKey, d: SavedData)
    ensures var log := RunMarked(data, stores, inputs);
            Get(RunStores(data, stores, inputs).saved, k) == Some(d)
            <==> || Get(stores.saved, k) == Some(d)
                 || exists i :: 0 <= i < |log| && EventKey(log[i]) == k && DataOf(log[i]) == d
  {
    var log := RunMarked(data, stores, inputs);
    RunIsGood(data, stores, inputs);
    MarkedKeys(stores.saved, log, k);
    MarkedDataStays(stores.saved, log);
  }

  /** When a stop is saved after its predecessor on the same trip and date, its time is later and
      its delay at most 180 s smaller. */
  lemma LaterSavedNeighbourIsOrdered(data: StaticData, stores: Stores, inputs: seq<Input>, i: nat, j: nat)
    requires i < j < |RunMarked(data, stores, inputs)|
    requires var log := RunMarked(data, stores, inputs);
             DayOf(log[i]) == DayOf(log[j]) && 1 <= log[i].stopSequence == log[j].stopSequence - 1
    ensures var log := RunMarked(data, stores, inputs);
            log[i].eventTime < log[j].eventTime && log[i].delaySeconds - log[j].delaySeconds <= DELAY_DROP_THRESHOLD
  {
    RunIsGood(data, stores, inputs);
    NeighbourIsOrdered(stores.saved, RunMarked(data, stores, inputs), i, j);
  }

  lemma NeighbourIsOrdered(saved: SavedStore, log: seq<StopEvent>, i: nat, j: nat)
    requires GoodLog(saved, log) && i < j < |log|
    requires DayOf(log[i]) == DayOf(log[j]) && 1 <= log[i].stopSequence == log[j].stopSequence - 1
    ensures log[i].eventTime < log[j].eventTime && log[i].delaySeconds - log[j].delaySeconds <= DELAY_DROP_THRESHOLD
  {
    GoodAt(saved, log, j);
    PrefixIsGood(saved, log, j);
    MarkedDataStays(saved, log[..j]);
    assert log[..j][i] == log[i];
  }

  lemma {:induction false} PrefixIsGood(saved: SavedStore, log: seq<StopEvent>, n: nat)
    requires GoodLog(saved, log) && n <= |log|
    ensures GoodLog(saved, log[..n])
  {
    if n < |log| {
      PrefixIsGood(saved, log[..|log| - 1], n);
      assert log[..|log| - 1][..n] == log[..n];
    } else {
      assert log[..n] == log;
    }
  }

  /** No stop but the first of a trip is saved more than 180 s early. */
  lemma SavedStopsAreNotTooEarly(data: StaticData, stores: Stores, inputs: seq<Input>, i: nat)
    requires i < |RunMarked(data, stores, inputs)|
    ensures var e := RunMarked(data, stores, inputs)[i];
            e.stopSequence != 1 ==> e.delaySeconds >= MIN_EARLY_DELAY_SECONDS
  {
    RunIsGood(data, stores, inputs);
    GoodAt(stores.saved, RunMarked(data, stores, inputs), i);
  }

  /** Positions in the log of consecutive stops of one trip and date, saved in stop order. */
  ghost predicate Hops(log: seq<StopEvent>, at: seq<nat>) {
    && |at| >= 1
    && (forall m | 0 <= m < |at| :: at[m] < |log|)
    && log[at[0]].stopSequence >= 1
    && (forall m, n | 0 <= m < |at| && 0 <= n < |at| && n == m + 1 ::
          && at[m] < at[n]
          && DayOf(log[at[n]]) == DayOf(log[at[m]])
          && log[at[n]].stopSequence == log[at[m]].stopSequence + 1)
  }

  /** Along n consecutive hops saved in order, at most 180·n seconds of delay are made up, time
      advances with every hop, and the trip took at least its scheduled time less 180·n. */
  lemma HopsTelescope(data: StaticData, stores: Stores, inputs: seq<Input>, at: seq<nat>)
    requires Hops(RunMarked(data, stores, inputs), at)
    ensures var log := RunMarked(data, stores, inputs);
            var first, last, n := log[at[0]], log[at[|at| - 1]], |at| - 1;
            && DayOf(first) == DayOf(last) && last.stopSequence == first.stopSequence + n
            && first.delaySeconds - last.delaySeconds <= DELAY_DROP_THRESHOLD * n
            && last.eventTime - first.eventTime >= n
            && AgreesWithFeed(data, first) && AgreesWithFeed(data, last)
            && last.eventTime - first.eventTime >=
                 data.StopTimeAt(last.tripId, last.stopSequence).value.arrivalSeconds
                 - data.StopTimeAt(first.tripId, first.stopSequence).value.arrivalSeconds
                 - DELAY_DROP_THRESHOLD * n
  {
    var log := RunMarked(data, stores, inputs);
    RunIsGood(data, stores, inputs);
    HopsTelescopeInLog(stores.saved, log, at);
    assert log[at[0]] in log && log[at[|at| - 1]] in log;
    TimeIsScheduleAndDelay(data, log[at[0]], log[at[|at| - 1]]);
  }

  lemma {:induction false} HopsTelescopeInLog(saved: SavedStore, log: seq<StopEvent>, at: seq<nat>)
    requires GoodLog(saved, log) && Hops(log, at)
    ensures var first, last, n := log[at[0]], log[at[|at| - 1]], |at| - 1;
            && DayOf(first) == DayOf(last) && last.stopSequence == first.stopSequence + n
            && first.delaySeconds - last.delaySeconds <= DELAY_DROP_THRESHOLD * n
            && last.eventTime - first.eventTime >= n
  {
    if |at| > 1 {
      var front := at[..|at| - 1];
      assert forall m | 0 <= m < |front| :: front[m] == at[m];
      HopsTelescopeInLog(saved, log, front);
      NeighbourIsOrdered(saved, log, at[|at| - 2], at[|at| - 1]);
    }
  }

  /** Between two events of one trip and date, the time taken is the time scheduled and what the
      delay grew by. */
  lemma TimeIsScheduleAndDelay(data: StaticData, first: StopEvent, last: StopEvent)
    requires AgreesWithFeed(data, first) && AgreesWithFeed(data, last) && DayOf(first) == DayOf(last)
    ensures last.eventTime - first.eventTime ==
              data.StopTimeAt(last.tripId, last.stopSequence).value.arrivalSeconds
              - data.StopTimeAt(first.tripId, first.stopSequence).value.arrivalSeconds
              + last.delaySeconds - first.delaySeconds
  {}
}
