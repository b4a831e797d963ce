/** What an update that both observes a stop and estimates missed ones returns, and what it marks
    as saved but does not return. */
module BatchPruning {
  import opened Domain
  import opened GtfsStatic
  import opened Detection
  import opened SaveLog

  /** Estimated events stand in ascending stop order. */
  ghost predicate EstimatedAscending(events: seq<StopEvent>) {
    forall i, j | 0 <= i < j < |events| && events[i].isEstimated && events[j].isEstimated ::
      events[i].stopSequence < events[j].stopSequence
  }

  lemma {:induction false} PersistKeepsOrder(saved: SavedStore, raw: seq<StopEvent>, agency: Agency, tripId: string,
                                             serviceDate: Option<Date>)
    requires EstimatedAscending(raw)
    ensures EstimatedAscending(Persist(saved, raw, agency, tripId, serviceDate).events)
  {
    if raw != [] {
      var front, last := raw[..|raw| - 1], raw[|raw| - 1];
      assert forall i | 0 <= i < |front| :: front[i] == raw[i];
      PersistKeepsOrder(saved, front, agency, tripId, serviceDate);
      PersistedAreCandidates(saved, front, agency, tripId, serviceDate);
      var before := Persist(saved, front, agency, tripId, serviceDate).events;
      forall i | 0 <= i < |before| && before[i].isEstimated && last.isEstimated
        ensures before[i].stopSequence < last.stopSequence
      {
        assert before[i] in front;
        var j :| 0 <= j < |front| && front[j] == before[i];
        assert raw[j] == front[j];
      }
    }
  }

  lemma {:induction false} KeepBesideExact(events: seq<StopEvent>, reference: StopEvent, e: StopEvent)
    ensures e in KeepBeside(events, reference) <==> e in events && KeptBeside(e, reference)
  {
    if events != [] {
      KeepBesideExact(events[..|events| - 1], reference, e);
      FrontAndLast(events);
    }
  }

  lemma {:induction false} LastObservedIs(events: seq<StopEvent>, r: StopEvent)
    requires r in events && r.detectionMethod == ByStoppedAt
    requires forall e | e in events && e.detectionMethod == ByStoppedAt :: e == r
    ensures LastObserved(events) == Some(r)
  {
    var front, last := events[..|events| - 1], events[|events| - 1];
    FrontAndLast(events);
    if last.detectionMethod != ByStoppedAt {
      LastObservedIs(front, r);
    } else {
      assert last in events;
    }
  }

  /** What detection marks for the current trip: estimates of stops before the reported one, in
      stop order, and at most one observed event, at the reported stop. */
  lemma DetectionShape(data: StaticData, stores: Stores, vp: VehiclePosition)
    requires Recorded(data, vp)
    ensures var events := ProcessedUpdate(data, stores, vp).detection;
            && EstimatedAscending(events)
            && (forall e | e in events ::
                  if e.isEstimated then e.detectionMethod == BySeqJump && e.stopSequence < vp.stopSequence.value
                  else e.detectionMethod == ByStoppedAt && e.stopSequence == vp.stopSequence.value
                       && vp.status == Some(StoppedAt))
            && (forall e, e' | e in events && e' in events && !e.isEstimated && !e'.isEstimated :: e == e')
  {
    var after, ctx := AfterTripChange(data, stores, vp), ContextOf(data, stores.vehicles, vp);
    var stopped := StoppedAtEvents(data, after.saved, ctx);
    var jumped := SeqJumpEvents(data, after.saved, after.predictions, ctx);
    StoppedAtEventsFresh(data, after.saved, ctx);
    JumpEventsFresh(data, after.saved, after.predictions, ctx);
    DetectionIsGood(data, stores, vp);
    ObservedThenEstimated(stopped, jumped);
    PersistKeepsOrder(after.saved, stopped + jumped, vp.agency, vp.tripId, Some(ctx.serviceDate));
  }

  /** The observed event, if there is one, is judged and marked before the estimates. */
  lemma ObservedComesFirst(data: StaticData, stores: Stores, vp: VehiclePosition)
    ensures var events := ProcessedUpdate(data, stores, vp).detection;
            forall i | 0 < i < |events| :: events[i].isEstimated
  {
    if Recorded(data, vp) {
      var after, ctx := AfterTripChange(data, stores, vp), ContextOf(data, stores.vehicles, vp);
      StoppedAtEventsFresh(data, after.saved, ctx);
      JumpEventsFresh(data, after.saved, after.predictions, ctx);
      var stopped := StoppedAtEvents(data, after.saved, ctx);
      var jumped := SeqJumpEvents(data, after.saved, after.predictions, ctx);
      EstimatedBehindFirst(stopped, jumped);
      PersistKeepsFirst(after.saved, stopped + jumped, vp.agency, vp.tripId, Some(ctx.serviceDate));
    }
  }

  lemma EstimatedBehindFirst(stopped: seq<StopEvent>, jumped: seq<StopEvent>)
    requires |stopped| <= 1 && forall e | e in jumped :: e.isEstimated
    ensures forall i | 0 < i < |stopped + jumped| :: (stopped + jumped)[i].isEstimated
  {
    forall i | 0 < i < |stopped + jumped|
      ensures (stopped + jumped)[i].isEstimated
    {
      assert (stopped + jumped)[i] == jumped[i - |stopped|];
    }
  }

  lemma {:induction false} PersistKeepsFirst(saved: SavedStore, raw: seq<StopEvent>, agency: Agency, tripId: string,
                                             serviceDate: Option<Date>)
    requires forall i | 0 < i < |raw| :: raw[i].isEstimated
    ensures forall i | 0 < i < |Persist(saved, raw, agency, tripId, serviceDate).events| ::
              Persist(saved, raw, agency, tripId, serviceDate).events[i].isEstimated
  {
    if raw != [] {
      PersistKeepsFirst(saved, raw[..|raw| - 1], agency, tripId, serviceDate);
    }
  }

  lemma ObservedThenEstimated(stopped: seq<StopEvent>, jumped: seq<StopEvent>)
    requires (forall e | e in stopped :: !e.isEstimated) && Ascending(jumped)
    ensures EstimatedAscending(stopped + jumped)
  {
    var raw, n := stopped + jumped, |stopped|;
    forall i, j | 0 <= i < j < |raw| && raw[i].isEstimated && raw[j].isEstimated
      ensures raw[i].stopSequence < raw[j].stopSequence
    {
      assert raw[i] !in stopped;
      assert i >= n && raw[i] == jumped[i - n] && raw[j] == jumped[j - n];
    }
  }

  /** The events of the current trip that an update returns. */
  function ReturnedDetection(data: StaticData, stores: Stores, vp: VehiclePosition): seq<StopEvent> {
    Pruned(vp, ProcessedUpdate(data, stores, vp).detection)
  }

  /** When an update marks an observed event r, it returns it, and every estimate returned with it
      is of an earlier stop, no later in time than r and with at most 180 s more delay; what was
      marked but is not returned is exactly the estimates that break the time or the delay rule. */
  lemma ReturnedBesideObserved(data: StaticData, stores: Stores, vp: VehiclePosition, r: StopEvent)
    requires r in ProcessedUpdate(data, stores, vp).detection && r.detectionMethod == ByStoppedAt
    ensures var marked, list := ProcessedUpdate(data, stores, vp).detection, ReturnedDetection(data, stores, vp);
            && r in list
            && (forall e | e in list && e.isEstimated ::
                  && e.stopSequence < r.stopSequence
                  && e.eventTime <= r.eventTime
                  && e.delaySeconds - r.delaySeconds <= 180)
            && (forall e :: e in marked && e !in list
                  <==> e in marked && e.isEstimated
                       && (e.eventTime > r.eventTime || e.delaySeconds - r.delaySeconds > 180))
            && (forall e | e in list :: e in marked)
            && ProcessedUpdate(data, stores, vp).returned == ProcessedUpdate(data, stores, vp).completion + list
  {
    DetectionShape(data, stores, vp);
    PrunedExact(vp, ProcessedUpdate(data, stores, vp).detection, r);
  }

  lemma PrunedExact(vp: VehiclePosition, marked: seq<StopEvent>, r: StopEvent)
    requires r in marked && r.detectionMethod == ByStoppedAt && vp.status == Some(StoppedAt)
    requires forall e | e in marked && e.detectionMethod == ByStoppedAt :: e == r
    ensures forall e :: e in Pruned(vp, marked) <==> e in marked && KeptBeside(e, r)
  {
    LastObservedIs(marked, r);
    forall e
      ensures e in Pruned(vp, marked) <==> e in marked && KeptBeside(e, r)
    {
      KeepBesideExact(marked, r, e);
      if |marked| == 1 {
        assert marked[0] == r;
      }
    }
  }

  /** The event an update observes is among those it returns. */
  lemma ObservedIsReturned(data: StaticData, stores: Stores, vp: VehiclePosition, r: StopEvent)
    requires r in ProcessedUpdate(data, stores, vp).detection && r.detectionMethod == ByStoppedAt
    ensures r in ProcessedUpdate(data, stores, vp).returned
  {
    ReturnedBesideObserved(data, stores, vp, r);
  }

  lemma ReturnedAreMarked(vp: VehiclePosition, marked: seq<StopEvent>)
    ensures forall e | e in Pruned(vp, marked) :: e in marked
  {
    if LastObserved(marked).Some? {
      forall e | e in KeepBeside(marked, LastObserved(marked).value)
        ensures e in marked
      {
        KeepBesideExact(marked, LastObserved(marked).value, e);
      }
    }
  }

  /** An update that observes nothing new returns all it marked. */
  lemma AllReturnedWithoutObserved(data: StaticData, stores: Stores, vp: VehiclePosition)
    requires forall e | e in ProcessedUpdate(data, stores, vp).detection :: e.detectionMethod != ByStoppedAt
    ensures ReturnedDetection(data, stores, vp) == ProcessedUpdate(data, stores, vp).detection
    ensures ProcessedUpdate(data, stores, vp).returned == ProcessedUpdate(data, stores, vp).Marked()
  {
    var marked := ProcessedUpdate(data, stores, vp).detection;
    if LastObserved(marked).Some? {
      LastObservedIn(marked);
    }
  }

  lemma {:induction false} LastObservedIn(events: seq<StopEvent>)
    requires LastObserved(events).Some?
    ensures LastObserved(events).value in events && LastObserved(events).value.detectionMethod == ByStoppedAt
  {
    if events[|events| - 1].detectionMethod != ByStoppedAt {
      LastObservedIn(events[..|events| - 1]);
    }
  }

  /** Estimates of neighbouring stops in one update strictly increase in time, and lose at most
      180 s of delay from one to the next. */
  lemma EstimatedNeighboursIncrease(data: StaticData, stores: Stores, vp: VehiclePosition, a: StopEvent, b: StopEvent)
    requires a in ReturnedDetection(data, stores, vp) && b in ReturnedDetection(data, stores, vp)
    requires a.isEstimated && b.isEstimated && 1 <= a.stopSequence == b.stopSequence - 1
    ensures a.eventTime < b.eventTime && a.delaySeconds - b.delaySeconds <= DELAY_DROP_THRESHOLD
  {
    var marked := ProcessedUpdate(data, stores, vp).detection;
    ReturnedAreMarked(vp, marked);
    DetectionShape(data, stores, vp);
    DetectionIsGood(data, stores, vp);
    NeighboursIncrease(AfterTripChange(data, stores, vp).saved, marked, a, b);
  }

  lemma NeighboursIncrease(saved: SavedStore, marked: seq<StopEvent>, a: StopEvent, b: StopEvent)
    requires GoodLog(saved, marked) && EstimatedAscending(marked)
    requires a in marked && b in marked && a.isEstimated && b.isEstimated
    requires DayOf(a) == DayOf(b) && 1 <= a.stopSequence == b.stopSequence - 1
    ensures a.eventTime < b.eventTime && a.delaySeconds - b.delaySeconds <= DELAY_DROP_THRESHOLD
  {
    var i :| 0 <= i < |marked| && marked[i] == a;
    var j :| 0 <= j < |marked| && marked[j] == b;
    assert i < j;
    NeighbourIsOrdered(saved, marked, i, j);
  }
}
