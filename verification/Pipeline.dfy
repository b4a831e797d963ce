/** The stop writer end to end: positions and trip updates in, table rows out, through any failures
    the recovery loop can ride out. */
module Pipeline {
  import opened Domain
  import opened GtfsStatic
  import opened Predictions
  import opened Detection
  import opened SaveLog
  import opened BatchPruning
  import opened UpdateMeaning
  import opened Detector
  import opened Writer

  // ----- what a run returns -----

  lemma {:induction false} KeptAreDistinct(events: seq<StopEvent>, reference: StopEvent)
    requires DistinctKeys(events)
    ensures DistinctKeys(KeepBeside(events, reference))
  {
    if events != [] {
      var front, last := events[..|events| - 1], events[|events| - 1];
      assert forall i | 0 <= i < |front| :: front[i] == events[i];
      KeptAreDistinct(front, reference);
      var kept := KeepBeside(front, reference);
      forall i | 0 <= i < |kept|
        ensures EventKey(kept[i]) != EventKey(last)
      {
        KeepBesideExact(front, reference, kept[i]);
        var j :| 0 <= j < |front| && front[j] == kept[i];
        assert events[j] == front[j];
      }
    }
  }

  /** Distinct lists made of parts of a distinct list's two halves make a distinct list. */
  lemma DistinctHalves(a: seq<StopEvent>, b: seq<StopEvent>, a': seq<StopEvent>, b': seq<StopEvent>)
    requires DistinctKeys(a + b) && DistinctKeys(a') && DistinctKeys(b')
    requires (forall e | e in a' :: e in a) && (forall e | e in b' :: e in b)
    ensures DistinctKeys(a' + b')
  {
    var whole, parts := a + b, a' + b';
    forall i, j | 0 <= i < j < |parts|
      ensures EventKey(parts[i]) != EventKey(parts[j])
    {
      if i < |a'| <= j {
        assert parts[i] == a'[i] && parts[j] == b'[j - |a'|];
        assert a'[i] in a' && b'[j - |a'|] in b';
        var m :| 0 <= m < |a| && a[m] == a'[i];
        var n :| 0 <= n < |b| && b[n] == b'[j - |a'|];
        assert whole[m] == a[m] && whole[|a| + n] == b[n];
      } else if j < |a'| {
        assert parts[i] == a'[i] && parts[j] == a'[j];
      } else {
        assert parts[i] == b'[i - |a'|] && parts[j] == b'[j - |a'|];
      }
    }
  }

  lemma SplitDistinct(a: seq<StopEvent>, b: seq<StopEvent>)
    requires DistinctKeys(a + b)
    ensures DistinctKeys(a) && DistinctKeys(b)
  {
    assert forall i | 0 <= i < |a| :: (a + b)[i] == a[i];
    assert forall i | 0 <= i < |b| :: (a + b)[|a| + i] == b[i];
  }

  /** A step returns events it marked, without repetition. */
  lemma StepReturnsMarked(data: StaticData, stores: Stores, input: Input)
    ensures var out := Step(data, stores, input);
            && (forall e | e in out.returned :: e in out.Marked())
            && DistinctKeys(out.Marked()) && DistinctKeys(out.returned)
  {
    var out := Step(data, stores, input);
    StepIsGood(data, stores, input);
    GoodLogKeysDistinct(stores.saved, out.Marked());
    match input
    case Prediction(_, _) =>
    case Position(vp) =>
      if vp.stopSequence.Some? && vp.licensePlate.Some? && Recorded(data, vp) {
        var kept := Pruned(vp, out.detection);
        SplitDistinct(out.completion, out.detection);
        ReturnedAreMarked(vp, out.detection);
        if LastObserved(out.detection).Some? {
          KeptAreDistinct(out.detection, LastObserved(out.detection).value);
        }
        DistinctHalves(out.completion, out.detection, out.completion, kept);
      } else {
        assert out.Marked() == out.completion;
        assert out.returned == out.completion;
      }
  }

  /** A run returns events it marked, each stop of a trip and date at most once per agency. */
  lemma {:induction false} RunReturnsMarked(data: StaticData, stores: Stores, inputs: seq<Input>)
    ensures (forall e | e in RunReturned(data, stores, inputs) :: e in RunMarked(data, stores, inputs))
    ensures DistinctKeys(RunReturned(data, stores, inputs))
  {
    if inputs != [] {
      var front, last := inputs[..|inputs| - 1], inputs[|inputs| - 1];
      var out := Step(data, RunStores(data, stores, front), last);
      RunReturnsMarked(data, stores, front);
      StepReturnsMarked(data, RunStores(data, stores, front), last);
      MarkedAtMostOnce(data, stores, inputs);
      assert RunMarked(data, stores, inputs) == RunMarked(data, stores, front) + out.Marked();
      DistinctHalves(RunMarked(data, stores, front), out.Marked(), RunReturned(data, stores, front), out.returned);
    }
  }

  // ----- one agency per trip -----

  /** Some position of a vehicle with this plate names the agency's trip. */
  ghost predicate Reported(inputs: seq<Input>, agency: Agency, tripId: string, plate: string) {
    exists i :: 0 <= i < |inputs| && inputs[i].Position? && inputs[i].vp.agency == agency
                && inputs[i].vp.tripId == tripId && inputs[i].vp.licensePlate == Some(plate)
  }

  /** No two positions name the same trip under different agencies. */
  ghost predicate OneAgencyPerTrip(inputs: seq<Input>) {
    forall i, j | 0 <= i < |inputs| && 0 <= j < |inputs| && inputs[i].Position? && inputs[j].Position?
                  && inputs[i].vp.tripId == inputs[j].vp.tripId ::
      inputs[i].vp.agency == inputs[j].vp.agency
  }

  lemma ReportedGrows(inputs: seq<Input>, last: Input, agency: Agency, tripId: string, plate: string)
    ensures Reported(inputs, agency, tripId, plate) ==> Reported(inputs + [last], agency, tripId, plate)
    ensures last.Position? && last.vp.agency == agency && last.vp.tripId == tripId
            && last.vp.licensePlate == Some(plate)
            ==> Reported(inputs + [last], agency, tripId, plate)
  {
    if Reported(inputs, agency, tripId, plate) {
      var i :| 0 <= i < |inputs| && inputs[i].Position? && inputs[i].vp.agency == agency
               && inputs[i].vp.tripId == tripId && inputs[i].vp.licensePlate == Some(plate);
      assert (inputs + [last])[i] == inputs[i];
    }
    assert (inputs + [last])[|inputs|] == last;
  }

  /** The event tells observed from estimated by its method, and names a vehicle that reported its
      trip. */
  ghost predicate WellLabelled(inputs: seq<Input>, e: StopEvent) {
    && (e.isEstimated <==> e.detectionMethod != ByStoppedAt)
    && e.licensePlate.Some? && Reported(inputs, e.agency, e.tripId, e.licensePlate.value)
  }

  ghost predicate AllReported(inputs: seq<Input>, events: seq<StopEvent>, vehicles: VehicleStore) {
    && (forall e | e in events :: WellLabelled(inputs, e))
    && (forall k | k in vehicles ::
          Reported(inputs, vehicles[k].agency, vehicles[k].tripId, vehicles[k].licensePlate))
  }

  /** Every event marked, and every vehicle state, is of a vehicle that reported the trip. */
  lemma {:induction false} RunIsReported(data: StaticData, inputs: seq<Input>)
    ensures AllReported(inputs, RunMarked(data, EMPTY, inputs), RunStores(data, EMPTY, inputs).vehicles)
  {
    if inputs != [] {
      var front, last := inputs[..|inputs| - 1], inputs[|inputs| - 1];
      RunIsReported(data, front);
      var before := RunStores(data, EMPTY, front);
      FrontAndLast(inputs);
      AllReportedGrows(front, last, RunMarked(data, EMPTY, front), before.vehicles);
      if last.Position? && last.vp.licensePlate.Some? {
        ReportedGrows(front, last, last.vp.agency, last.vp.tripId, last.vp.licensePlate.value);
      }
      StepIsReported(data, before, last, inputs);
    }
  }

  lemma AllReportedGrows(inputs: seq<Input>, last: Input, events: seq<StopEvent>, vehicles: VehicleStore)
    requires AllReported(inputs, events, vehicles)
    ensures AllReported(inputs + [last], events, vehicles)
  {
    forall e | e in events
      ensures WellLabelled(inputs + [last], e)
    {
      ReportedGrows(inputs, last, e.agency, e.tripId, e.licensePlate.value);
    }
    forall k | k in vehicles
      ensures Reported(inputs + [last], vehicles[k].agency, vehicles[k].tripId, vehicles[k].licensePlate)
    {
      ReportedGrows(inputs, last, vehicles[k].agency, vehicles[k].tripId, vehicles[k].licensePlate);
    }
  }

  lemma StepIsReported(data: StaticData, before: Stores, last: Input, inputs: seq<Input>)
    requires AllReported(inputs, [], before.vehicles)
    requires last.Position? && last.vp.licensePlate.Some? ==>
               Reported(inputs, last.vp.agency, last.vp.tripId, last.vp.licensePlate.value)
    ensures AllReported(inputs, Step(data, before, last).Marked(), Step(data, before, last).stores.vehicles)
  {
    match last
    case Prediction(_, _) =>
    case Position(vp) =>
      VehiclesAfter(data, before, vp);
      var out := ProcessedUpdate(data, before, vp);
      forall e | e in out.Marked()
        ensures WellLabelled(inputs, e)
      {
        MarkedLabels(data, before, vp, e);
      }
  }

  /** An update stores for its vehicle nothing but the trip it reports. */
  lemma VehiclesAfter(data: StaticData, before: Stores, vp: VehiclePosition)
    ensures var after := ProcessedUpdate(data, before, vp).stores.vehicles;
            forall k | k in after ::
              || (k in before.vehicles && after[k] == before.vehicles[k])
              || (after[k].agency == vp.agency && after[k].tripId == vp.tripId
                  && vp.licensePlate == Some(after[k].licensePlate))
  {}

  /** An update marks events of the trip and vehicle it reports, or of those stored for it. */
  lemma MarkedLabels(data: StaticData, before: Stores, vp: VehiclePosition, e: StopEvent)
    requires e in ProcessedUpdate(data, before, vp).Marked()
    ensures (e.isEstimated <==> e.detectionMethod != ByStoppedAt) && e.licensePlate.Some?
    ensures || (e.agency == vp.agency && e.tripId == vp.tripId && e.licensePlate == vp.licensePlate)
            || exists k :: k in before.vehicles && e.agency == before.vehicles[k].agency
                           && e.tripId == before.vehicles[k].tripId
                           && e.licensePlate == Some(before.vehicles[k].licensePlate)
  {
    MarkedIff(data, before, vp, e);
  }

  /** When no trip is shared between agencies, no two returned events compete for a row. */
  lemma ReturnedRowsAreDistinct(data: StaticData, inputs: seq<Input>)
    requires OneAgencyPerTrip(inputs)
    ensures DistinctRows(RunReturned(data, EMPTY, inputs))
  {
    var returned := RunReturned(data, EMPTY, inputs);
    RunReturnsMarked(data, EMPTY, inputs);
    RunIsReported(data, inputs);
    forall i, j | 0 <= i < j < |returned|
      ensures RowKeyOf(returned[i]) != RowKeyOf(returned[j])
    {
      var a, b := returned[i], returned[j];
      assert a in returned && b in returned;
      assert WellLabelled(inputs, a) && WellLabelled(inputs, b);
      assert a.tripId == b.tripId ==> a.agency == b.agency;
      assert EventKey(a) != EventKey(b);
    }
  }

  /** Of any run's returned events the table keeps every one exactly when no two of different
      agencies name the same stop of the same trip and date. */
  lemma NothingDiscardedIffAgenciesAgree(data: StaticData, inputs: seq<Input>)
    ensures var returned := RunReturned(data, EMPTY, inputs);
            HoldsExactly(InsertIgnore(map[], returned), returned)
            <==> forall i, j | 0 <= i < |returned| && 0 <= j < |returned|
                               && RowKeyOf(returned[i]) == RowKeyOf(returned[j]) ::
                   returned[i].agency == returned[j].agency
  {
    var returned := RunReturned(data, EMPTY, inputs);
    RunReturnsMarked(data, EMPTY, inputs);
    NothingDiscardedIff(returned);
  }

  // ----- the loop -----

  /** One turn of the main loop: the trip updates the poller cached meanwhile, the position message
      if one came, the clock when the buffer's age is checked and when a flush completes, how the
      transaction fares, and the recovery attempts made if it fails. */
  datatype Tick = Tick(
    feed: seq<FeedUpdate>,
    message: Option<VehiclePosition>,
    now: Instant,
    flushedAt: Instant,
    fault: Fault,
    attempts: seq<Attempt>)

  function FeedInputs(feed: seq<FeedUpdate>): seq<Input> {
    seq(|feed|, i requires 0 <= i < |feed| => Prediction(feed[i].update, feed[i].now))
  }

  function TickInputs(tick: Tick): seq<Input> {
    FeedInputs(tick.feed) + if tick.message.Some? then [Position(tick.message.value)] else []
  }

  function InputsOf(ticks: seq<Tick>): seq<Input> {
    if ticks == [] then [] else InputsOf(ticks[..|ticks| - 1]) + TickInputs(ticks[|ticks| - 1])
  }

  lemma {:induction false} RunStoresConcat(data: StaticData, stores: Stores, a: seq<Input>, b: seq<Input>)
    ensures RunStores(data, stores, a + b) == RunStores(data, RunStores(data, stores, a), b)
  {
    if b == [] {
      assert a + b == a;
    } else {
      RunStoresConcat(data, stores, a, b[..|b| - 1]);
      ConcatFront(a, b);
    }
  }

  lemma Associates<T>(a: seq<T>, b: seq<T>, c: seq<T>)
    ensures a + b + c == a + (b + c)
  {}

  lemma {:induction false} RunReturnedConcat(data: StaticData, stores: Stores, a: seq<Input>, b: seq<Input>)
    ensures RunReturned(data, stores, a + b) ==
              RunReturned(data, stores, a) + RunReturned(data, RunStores(data, stores, a), b)
  {
    if b == [] {
      assert a + b == a;
    } else {
      var front := b[..|b| - 1];
      RunReturnedConcat(data, stores, a, front);
      RunStoresConcat(data, stores, a, front);
      ConcatFront(a, b);
      Associates(RunReturned(data, stores, a), RunReturned(data, RunStores(data, stores, a), front),
                 Step(data, RunStores(data, stores, a + front), b[|b| - 1]).returned);
    }
  }

  /** Detector and poller work on one prediction cache and one import of static data. */
  ghost predicate Connected(detector: StopEventDetector, publisher: Publisher)
    reads detector.gtfsCache, publisher.stopIds
  {
    && detector.Valid() && publisher.stopIds.Valid()
    && publisher.tripUpdates == detector.tripUpdates
    && publisher.stopIds.data == detector.gtfsCache.data
  }

  /** The stores after the trip updates of a turn. */
  function Fed(data: StaticData, stores: Stores, feed: seq<FeedUpdate>): Stores {
    stores.(predictions := FedPredictions(data, stores.predictions, feed))
  }

  /** What one turn makes of the stores and returns. */
  function TickOutcome(data: StaticData, stores: Stores, tick: Tick): Outcome {
    var fed := Fed(data, stores, tick.feed);
    match tick.message
    case None => Outcome(fed, [], [], [])
    case Some(vp) => ProcessedUpdate(data, fed, vp)
  }

  lemma {:induction false} FeedIsRun(data: StaticData, stores: Stores, feed: seq<FeedUpdate>)
    ensures RunStores(data, stores, FeedInputs(feed)) == Fed(data, stores, feed)
    ensures RunReturned(data, stores, FeedInputs(feed)) == []
  {
    if feed != [] {
      var front, last := feed[..|feed| - 1], feed[|feed| - 1];
      FeedIsRun(data, stores, front);
      FeedInputsGrow(feed);
      OneMoreStep(data, stores, FeedInputs(front), Prediction(last.update, last.now));
    }
  }

  lemma FeedInputsGrow(feed: seq<FeedUpdate>)
    requires feed != []
    ensures var last := feed[|feed| - 1];
            FeedInputs(feed) == FeedInputs(feed[..|feed| - 1]) + [Prediction(last.update, last.now)]
  {}

  /** One turn is a run over what it brings. */
  lemma TickIsRun(data: StaticData, stores: Stores, tick: Tick)
    ensures RunStores(data, stores, TickInputs(tick)) == TickOutcome(data, stores, tick).stores
    ensures RunReturned(data, stores, TickInputs(tick)) == TickOutcome(data, stores, tick).returned
  {
    var inputs := TickInputs(tick);
    FeedIsRun(data, stores, tick.feed);
    if tick.message.Some? {
      OneMoreStep(data, stores, FeedInputs(tick.feed), Position(tick.message.value));
    } else {
      assert inputs == FeedInputs(tick.feed);
    }
  }

  lemma OneMoreStep(data: StaticData, stores: Stores, inputs: seq<Input>, last: Input)
    ensures var out := Step(data, RunStores(data, stores, inputs), last);
            && RunStores(data, stores, inputs + [last]) == out.stores
            && RunReturned(data, stores, inputs + [last]) == RunReturned(data, stores, inputs) + out.returned
  {
    assert (inputs + [last])[..|inputs|] == inputs;
  }

  /** The transaction of the tick goes well, or one of its recovery attempts does. */
  predicate Survives(tick: Tick) {
    tick.fault == Healthy || exists k :: 0 <= k < |tick.attempts| && tick.attempts[k].fault == Healthy
  }

  /** Hands new events to the writer, or lets it flush when there was no message; on failure, tries
      to recover. Only a writer with room in its buffer lets the loop go on. */
  method Deliver(writer: BatchWriter, events: seq<StopEvent>, tick: Tick) returns (running: bool)
    requires writer.Valid() && |writer.buffer| < writer.batchSize && (tick.message.None? ==> events == [])
    modifies writer, writer.session
    ensures writer.Valid() && writer.Added() == old(writer.Added()) + events
    ensures running ==> |writer.buffer| < writer.batchSize
    ensures var due := || tick.message.None?
                       || (events != [] && (|old(writer.buffer) + events| >= writer.batchSize
                                            || tick.now - old(writer.lastFlush) > writer.flushInterval));
            && (!due ==> writer.buffer == old(writer.buffer) + events)
            && (due && running ==> writer.buffer == [])
            && (running <==> !due || old(writer.buffer) + events == [] || Survives(tick))
            && (tick.fault == Healthy ==>
                  writer.lastFlush == if due && old(writer.buffer) + events != [] then tick.flushedAt
                                      else old(writer.lastFlush))
  {
    var r := Wrote(0);
    if tick.message.None? {
      r := writer.Flush(tick.flushedAt, tick.fault);
    } else if events != [] {
      r := writer.AddMany(events, tick.now, tick.flushedAt, tick.fault);
    }
    running := true;
    if r.BatchWriteError? {
      var waits;
      running, waits := RecoverWriter(writer, tick.attempts);
    }
  }

  /** The detector's part of a turn: it moves as its model says. */
  method Detect(detector: StopEventDetector, publisher: Publisher, tick: Tick) returns (events: seq<StopEvent>)
    requires Connected(detector, publisher)
    modifies detector.vehicleState, detector.savedSeqs, detector.tripUpdates, detector.gtfsCache, publisher.stopIds
    ensures Connected(detector, publisher)
    ensures detector.State() == TickOutcome(detector.gtfsCache.data, old(detector.State()), tick).stores
    ensures events == TickOutcome(detector.gtfsCache.data, old(detector.State()), tick).returned
    ensures tick.message.None? ==> events == []
  {
    ghost var fed := Fed(detector.gtfsCache.data, detector.State(), tick.feed);
    publisher.ProcessTripUpdates(tick.feed);
    assert detector.State() == fed;
    events := [];
    if tick.message.Some? {
      events := ProcessPosition(detector, publisher, tick.message.value);
    }
  }

  /** Positions leave the poller's side alone, but for the predictions they drop. */
  method ProcessPosition(detector: StopEventDetector, publisher: Publisher, vp: VehiclePosition)
    returns (events: seq<StopEvent>)
    requires Connected(detector, publisher)
    modifies detector.vehicleState, detector.savedSeqs, detector.tripUpdates, detector.gtfsCache
    ensures Connected(detector, publisher)
    ensures detector.State() == ProcessedUpdate(detector.gtfsCache.data, old(detector.State()), vp).stores
    ensures events == ProcessedUpdate(detector.gtfsCache.data, old(detector.State()), vp).returned
  {
    events := detector.ProcessUpdate(vp);
    assert unchanged(publisher.stopIds);
  }

  /** One turn of the main loop: every event the detector returns is handed to the writer in order,
      and the loop goes on only with room in the buffer. */
  method Turn(detector: StopEventDetector, publisher: Publisher, writer: BatchWriter, tick: Tick)
    returns (running: bool)
    requires Connected(detector, publisher) && writer.Valid() && |writer.buffer| < writer.batchSize
    modifies detector.vehicleState, detector.savedSeqs, detector.tripUpdates, detector.gtfsCache, publisher.stopIds
    modifies writer, writer.session
    ensures Connected(detector, publisher) && writer.Valid()
    ensures detector.State() == TickOutcome(detector.gtfsCache.data, old(detector.State()), tick).stores
    ensures writer.Added() ==
              old(writer.Added()) + TickOutcome(detector.gtfsCache.data, old(detector.State()), tick).returned
    ensures running ==> |writer.buffer| < writer.batchSize
    ensures var events := TickOutcome(detector.gtfsCache.data, old(detector.State()), tick).returned;
            var due := || tick.message.None?
                       || (events != [] && (|old(writer.buffer) + events| >= writer.batchSize
                                            || tick.now - old(writer.lastFlush) > writer.flushInterval));
            && (!due ==> writer.buffer == old(writer.buffer) + events)
            && (due && running ==> writer.buffer == [])
            && (running <==> !due || old(writer.buffer) + events == [] || Survives(tick))
            && (tick.fault == Healthy ==>
                  writer.lastFlush == if due && old(writer.buffer) + events != [] then tick.flushedAt
                                      else old(writer.lastFlush))
  {
    var events := Detect(detector, publisher, tick);
    running := Deliver(writer, events, tick);
  }

  /** What holds at every head of the main loop after `processed` ticks. */
  ghost predicate AtLoopHead(data: StaticData, detector: StopEventDetector, publisher: Publisher, writer: BatchWriter,
                             ticks: seq<Tick>)
    reads detector, detector.gtfsCache, detector.vehicleState, detector.savedSeqs, detector.tripUpdates
    reads publisher.stopIds, writer, writer.session
  {
    && Connected(detector, publisher) && writer.Valid() && detector.gtfsCache.data == data
    && detector.State() == RunStores(data, EMPTY, InputsOf(ticks))
    && writer.Added() == RunReturned(data, EMPTY, InputsOf(ticks))
  }

  /** The table is what some prefix of the events makes of an empty one. */
  ghost predicate MadeOfPrefix(table: Table, events: seq<StopEvent>) {
    exists n :: 0 <= n <= |events| && table == InsertIgnore(map[], events[..n])
  }

  /** The table is what some prefix of the run's returned events makes of an empty one. Once all
      is flushed it is what all of them make; and if no trip is shared between agencies it then
      holds exactly the returned events, one row each. */
  ghost predicate Durable(data: StaticData, inputs: seq<Input>, table: Table, allFlushed: bool) {
    var returned := RunReturned(data, EMPTY, inputs);
    && MadeOfPrefix(table, returned)
    && (allFlushed ==> table == InsertIgnore(map[], returned))
    && (allFlushed && OneAgencyPerTrip(inputs) ==> HoldsExactly(table, returned))
  }

  /** The main loop: it ends with its ticks, or when a recovery is cut short by shutdown. At every
      turn the buffer is shorter than a batch. */
  method RunLoop(data: StaticData, detector: StopEventDetector, publisher: Publisher, writer: BatchWriter,
                 ticks: seq<Tick>)
    returns (processed: nat)
    requires AtLoopHead(data, detector, publisher, writer, []) && |writer.buffer| < writer.batchSize
    modifies detector.vehicleState, detector.savedSeqs, detector.tripUpdates, detector.gtfsCache, publisher.stopIds
    modifies writer, writer.session
    ensures processed <= |ticks| && AtLoopHead(data, detector, publisher, writer, ticks[..processed])
    ensures (forall i | 0 <= i < |ticks| :: Survives(ticks[i])) ==> processed == |ticks|
  {
    processed := 0;
    var running := true;
    assert ticks[..0] == [];
    while running && processed < |ticks|
      invariant 0 <= processed <= |ticks|
      invariant AtLoopHead(data, detector, publisher, writer, ticks[..processed])
      invariant running ==> |writer.buffer| < writer.batchSize
      invariant !running ==> exists i :: 0 <= i < |ticks| && !Survives(ticks[i])
      decreases |ticks| - processed, running
    {
      running := NextTurn(data, detector, publisher, writer, ticks, processed);
      processed := processed + 1;
    }
  }

  /** One turn, seen from the loop. */
  method NextTurn(data: StaticData, detector: StopEventDetector, publisher: Publisher, writer: BatchWriter,
                  ticks: seq<Tick>, processed: nat)
    returns (running: bool)
    requires processed < |ticks|
    requires AtLoopHead(data, detector, publisher, writer, ticks[..processed]) && |writer.buffer| < writer.batchSize
    modifies detector.vehicleState, detector.savedSeqs, detector.tripUpdates, detector.gtfsCache, publisher.stopIds
    modifies writer, writer.session
    ensures AtLoopHead(data, detector, publisher, writer, ticks[..processed + 1])
    ensures running ==> |writer.buffer| < writer.batchSize
    ensures !running ==> !Survives(ticks[processed])
  {
    InputsGrow(data, ticks, processed);
    running := Turn(detector, publisher, writer, ticks[processed]);
  }

  /** The main loop and the last flush behind it. */
  method Serve(data: StaticData, detector: StopEventDetector, publisher: Publisher, writer: BatchWriter,
               ticks: seq<Tick>, shutdown: Attempt)
    returns (table: Table, final: WriteResult, processed: nat)
    requires AtLoopHead(data, detector, publisher, writer, []) && |writer.buffer| < writer.batchSize
    modifies detector.vehicleState, detector.savedSeqs, detector.tripUpdates, detector.gtfsCache, publisher.stopIds
    modifies writer, writer.session
    ensures processed <= |ticks|
    ensures Durable(data, InputsOf(ticks[..processed]), table, final.Wrote?)
    ensures shutdown.fault == Healthy ==> final.Wrote?
    ensures (forall i | 0 <= i < |ticks| :: Survives(ticks[i])) ==> processed == |ticks|
  {
    processed := RunLoop(data, detector, publisher, writer, ticks);
    final := writer.Flush(shutdown.at, shutdown.fault);
    table := writer.session.committed;
    ValidWriterIsDurable(data, InputsOf(ticks[..processed]), table, writer.flushed, writer.buffer, writer.uncertain);
  }

  /** Everything new and empty, ready for the first turn. */
  method Start(data: StaticData, startedAt: Instant)
    returns (detector: StopEventDetector, publisher: Publisher, writer: BatchWriter)
    ensures AtLoopHead(data, detector, publisher, writer, [])
    ensures writer.buffer == [] && writer.batchSize == 100 && writer.flushInterval == 10
    ensures fresh({detector.vehicleState, detector.savedSeqs, detector.tripUpdates, detector.gtfsCache,
                   publisher.stopIds})
    ensures fresh(writer) && fresh(writer.session)
  {
    NothingYet(data);
    writer := StartWriter(startedAt);
    detector, publisher := StartDetector(data);
  }

  lemma NothingYet(data: StaticData)
    ensures RunStores(data, EMPTY, InputsOf([])) == EMPTY && RunReturned(data, EMPTY, InputsOf([])) == []
  {}

  method StartDetector(data: StaticData) returns (detector: StopEventDetector, publisher: Publisher)
    ensures Connected(detector, publisher) && detector.gtfsCache.data == data && detector.State() == EMPTY
    ensures fresh({detector.vehicleState, detector.savedSeqs, detector.tripUpdates, detector.gtfsCache,
                   publisher.stopIds})
  {
    var vehicleState := new VehicleStateRepository();
    var tripUpdates := new TripUpdatesRepository();
    var savedSeqs := new SavedSequencesRepository();
    detector := new StopEventDetector(data, vehicleState, tripUpdates, savedSeqs);
    publisher := new Publisher(data, tripUpdates);
  }

  method StartWriter(startedAt: Instant) returns (writer: BatchWriter)
    ensures fresh(writer) && fresh(writer.session) && writer.Valid()
    ensures writer.Added() == [] && writer.buffer == [] && writer.batchSize == 100 && writer.flushInterval == 10
  {
    var session := new Session();
    writer := new BatchWriter(session, WRITER_BATCH_SIZE, WRITER_FLUSH_INTERVAL, startedAt);
  }

  /** The stop writer from start to shutdown: however the ticks fall and whatever fails, what it
      leaves is durable in the sense above, completely so when the last flush succeeds. A failing
      tick ends the loop only if none of its recovery attempts succeeds. */
  method RunWriter(data: StaticData, ticks: seq<Tick>, startedAt: Instant, shutdown: Attempt)
    returns (table: Table, final: WriteResult, processed: nat)
    ensures processed <= |ticks|
    ensures Durable(data, InputsOf(ticks[..processed]), table, final.Wrote?)
    ensures shutdown.fault == Healthy ==> final.Wrote?
    ensures (forall i | 0 <= i < |ticks| :: Survives(ticks[i])) ==> processed == |ticks|
  {
    var detector, publisher, writer := Start(data, startedAt);
    table, final, processed := Serve(data, detector, publisher, writer, ticks, shutdown);
  }

  lemma InputsGrow(data: StaticData, ticks: seq<Tick>, processed: nat)
    requires processed < |ticks|
    ensures var before, after := InputsOf(ticks[..processed]), InputsOf(ticks[..processed + 1]);
            var out := TickOutcome(data, RunStores(data, EMPTY, before), ticks[processed]);
            && RunStores(data, EMPTY, after) == out.stores
            && RunReturned(data, EMPTY, after) == RunReturned(data, EMPTY, before) + out.returned
  {
    var before, more := InputsOf(ticks[..processed]), TickInputs(ticks[processed]);
    PrefixFront(ticks, processed);
    RunStoresConcat(data, EMPTY, before, more);
    RunReturnedConcat(data, EMPTY, before, more);
    TickIsRun(data, RunStores(data, EMPTY, before), ticks[processed]);
  }

  lemma ValidWriterIsDurable(data: StaticData, inputs: seq<Input>, table: Table, flushed: seq<StopEvent>,
                             buffer: seq<StopEvent>, uncertain: nat)
    requires flushed + buffer == RunReturned(data, EMPTY, inputs) && uncertain <= |buffer|
    requires table == InsertIgnore(map[], flushed + buffer[..uncertain])
    ensures Durable(data, inputs, table, buffer == [])
  {
    var returned := RunReturned(data, EMPTY, inputs);
    assert returned[..|flushed| + uncertain] == flushed + buffer[..uncertain];
    if buffer == [] {
      assert flushed + buffer[..uncertain] == returned;
      if OneAgencyPerTrip(inputs) {
        ReturnedRowsAreDistinct(data, inputs);
        DistinctRowsAllLand(returned);
      }
    }
  }
}
