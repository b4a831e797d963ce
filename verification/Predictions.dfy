/** The trip-update prediction cache: a fold over trip updates with a "vehicle moved" reset rule,
    and what its entries mean in terms of the history of updates. */
module Predictions {
  import opened Domain

  datatype StopTimeUpdate = StopTimeUpdate(
    stopId: string,
    stopSequence: Option<int>,
    arrivalTime: Option<Instant>,
    departureTime: Option<Instant>)

  datatype TripUpdate = TripUpdate(agency: Agency, tripId: string, stopTimeUpdates: seq<StopTimeUpdate>)

  datatype CachedStopTime = CachedStopTime(
    stopId: string,
    stopSequence: int,
    firstSeenArrival: Instant,
    lastSeenArrival: Instant)

  datatype TripUpdateCache = TripUpdateCache(
    agency: Agency,
    tripId: string,
    stops: map<int, CachedStopTime>,
    createdAt: Instant,
    lastMinSeq: Option<int>)

  datatype TripKey = TripKey(agency: Agency, tripId: string)

  type PredictionStore = map<TripKey, TripUpdateCache>

  function KeyOf(u: TripUpdate): TripKey {
    TripKey(u.agency, u.tripId)
  }

  /** Python's `a or b` on optional numbers: None and zero fall through to `b`. */
  function OrElse(a: Option<int>, b: Option<int>): Option<int> {
    if a.Some? && a.value != 0 then a else b
  }

  function ResolveSeq(stu: StopTimeUpdate, stopIdToSeq: map<string, int>): Option<int> {
    OrElse(stu.stopSequence, Get(stopIdToSeq, stu.stopId))
  }

  function ArrivalOf(stu: StopTimeUpdate): Option<Instant> {
    if stu.arrivalTime.Some? then stu.arrivalTime else stu.departureTime
  }

  /** The smallest stop sequence an update resolves to. */
  function MinSeq(stus: seq<StopTimeUpdate>, stopIdToSeq: map<string, int>): Option<int> {
    if stus == [] then None
    else
      var front := MinSeq(stus[..|stus| - 1], stopIdToSeq);
      var last := ResolveSeq(stus[|stus| - 1], stopIdToSeq);
      if last == None then front
      else if front.Some? && front.value <= last.value then front
      else last
  }

  lemma {:induction false} MinSeqIsTheMinimum(stus: seq<StopTimeUpdate>, stopIdToSeq: map<string, int>)
    ensures var m := MinSeq(stus, stopIdToSeq);
            && (forall i | 0 <= i < |stus| && ResolveSeq(stus[i], stopIdToSeq).Some? ::
                  m.Some? && m.value <= ResolveSeq(stus[i], stopIdToSeq).value)
            && (m.Some? ==> exists i :: 0 <= i < |stus| && ResolveSeq(stus[i], stopIdToSeq) == m)
  {
    if stus != [] {
      var front, m := stus[..|stus| - 1], MinSeq(stus, stopIdToSeq);
      MinSeqIsTheMinimum(front, stopIdToSeq);
      if m.Some? && m == MinSeq(front, stopIdToSeq) {
        var i :| 0 <= i < |front| && ResolveSeq(front[i], stopIdToSeq) == m;
        assert stus[i] == front[i];
      }
    }
  }

  predicate Exceeds(a: Option<int>, b: Option<int>) {
    a.Some? && b.Some? && a.value > b.value
  }

  function MergeStop(stops: map<int, CachedStopTime>, stu: StopTimeUpdate, stopIdToSeq: map<string, int>,
                     vehicleMoved: bool): map<int, CachedStopTime>
  {
    var stopSeq := ResolveSeq(stu, stopIdToSeq);
    var arrival := ArrivalOf(stu);
    if stopSeq == None || arrival == None then stops
    else
      var k := stopSeq.value;
      var first := if k in stops && !vehicleMoved then stops[k].firstSeenArrival else arrival.value;
      stops[k := CachedStopTime(stu.stopId, k, first, arrival.value)]
  }

  function MergeStops(stops: map<int, CachedStopTime>, stus: seq<StopTimeUpdate>, stopIdToSeq: map<string, int>,
                      vehicleMoved: bool): map<int, CachedStopTime>
  {
    if stus == [] then stops
    else
      var front := MergeStops(stops, stus[..|stus| - 1], stopIdToSeq, vehicleMoved);
      MergeStop(front, stus[|stus| - 1], stopIdToSeq, vehicleMoved)
  }

  /** The cache entry after one update, `existing` being the entry before it. */
  function UpdatedCache(existing: Option<TripUpdateCache>, u: TripUpdate, stopIdToSeq: map<string, int>, now: Instant)
    : TripUpdateCache
  {
    var minSeq := MinSeq(u.stopTimeUpdates, stopIdToSeq);
    var prevMinSeq := if existing.Some? then existing.value.lastMinSeq else None;
    var existingStops := if existing.Some? then existing.value.stops else map[];
    TripUpdateCache(
      u.agency, u.tripId,
      MergeStops(existingStops, u.stopTimeUpdates, stopIdToSeq, Exceeds(minSeq, prevMinSeq)),
      if existing.Some? then existing.value.createdAt else now,
      OrElse(minSeq, prevMinSeq))
  }

  method IncomingMin(stus: seq<StopTimeUpdate>, stopIdToSeq: map<string, int>) returns (m: Option<int>)
    ensures m == MinSeq(stus, stopIdToSeq)
  {
    m := None;
    for i := 0 to |stus|
      invariant m == MinSeq(stus[..i], stopIdToSeq)
    {
      PrefixFront(stus, i);
      var resolved := ResolveSeq(stus[i], stopIdToSeq);
      if resolved.Some? && (m.None? || resolved.value < m.value) {
        m := resolved;
      }
    }
    assert stus[..|stus|] == stus;
  }

  method Merge(existingStops: map<int, CachedStopTime>, stus: seq<StopTimeUpdate>, stopIdToSeq: map<string, int>,
               vehicleMoved: bool) returns (newStops: map<int, CachedStopTime>)
    ensures newStops == MergeStops(existingStops, stus, stopIdToSeq, vehicleMoved)
  {
    newStops := existingStops;
    for i := 0 to |stus|
      invariant newStops == MergeStops(existingStops, stus[..i], stopIdToSeq, vehicleMoved)
    {
      PrefixFront(stus, i);
      var stopSeq, arrival := ResolveSeq(stus[i], stopIdToSeq), ArrivalOf(stus[i]);
      if stopSeq.None? {
        continue;
      }
      if arrival.None? {
        continue;
      }
      if stopSeq.value in newStops && !vehicleMoved {
        var previous := newStops[stopSeq.value];
        newStops := newStops[stopSeq.value :=
          CachedStopTime(stus[i].stopId, stopSeq.value, previous.firstSeenArrival, arrival.value)];
      } else {
        newStops := newStops[stopSeq.value :=
          CachedStopTime(stus[i].stopId, stopSeq.value, arrival.value, arrival.value)];
      }
    }
    assert stus[..|stus|] == stus;
  }

  class TripUpdatesRepository {
    var store: PredictionStore

    constructor ()
      ensures store == map[]
    {
      store := map[];
    }

    function Lookup(agency: Agency, tripId: string): Option<TripUpdateCache>
      reads this
    {
      Get(store, TripKey(agency, tripId))
    }

    method Update(u: TripUpdate, stopIdToSeq: map<string, int>, now: Instant)
      modifies this
      ensures store == old(store)[KeyOf(u) := UpdatedCache(Get(old(store), KeyOf(u)), u, stopIdToSeq, now)]
    {
      var stus := u.stopTimeUpdates;
      var existing := Lookup(u.agency, u.tripId);
      var existingStops := if existing.Some? then existing.value.stops else map[];
      var incomingMinSeq := IncomingMin(stus, stopIdToSeq);
      var prevMinSeq := if existing.Some? then existing.value.lastMinSeq else None;
      var vehicleMoved := Exceeds(incomingMinSeq, prevMinSeq);
      var newStops := Merge(existingStops, stus, stopIdToSeq, vehicleMoved);

      var createdAt := if existing.Some? then existing.value.createdAt else now;
      store := store[KeyOf(u) :=
        TripUpdateCache(u.agency, u.tripId, newStops, createdAt, OrElse(incomingMinSeq, prevMinSeq))];
    }

    method Delete(agency: Agency, tripId: string)
      modifies this
      ensures store == old(store) - {TripKey(agency, tripId)}
    {
      store := store - {TripKey(agency, tripId)};
    }

    method GetArrival(agency: Agency, tripId: string, stopSequence: int) returns (arrival: Option<Instant>)
      ensures arrival == PredictedArrival(store, TripKey(agency, tripId), stopSequence)
    {
      var cache := Lookup(agency, tripId);
      if cache.None? {
        return None;
      }
      var cached := Get(cache.value.stops, stopSequence);
      if cached.None? {
        return None;
      }
      return Some(cached.value.lastSeenArrival);
    }
  }

  function PredictedArrival(store: PredictionStore, key: TripKey, stopSequence: int): Option<Instant> {
    if key in store && stopSequence in store[key].stops
    then Some(store[key].stops[stopSequence].lastSeenArrival)
    else None
  }

  // ----- what the entries mean -----

  /** One update of a trip as the repository received it. */
  datatype Arrival = Arrival(update: TripUpdate, stopIdToSeq: map<string, int>, now: Instant)

  /** The cache entry left by a history of updates of one trip, oldest first. */
  function Replay(history: seq<Arrival>): Option<TripUpdateCache> {
    if history == [] then None
    else
      var last := history[|history| - 1];
      Some(UpdatedCache(Replay(history[..|history| - 1]), last.update, last.stopIdToSeq, last.now))
  }

  /** One time a history wrote to a stop. `moved` says whether the update that carried it started
      further along the trip than the most recent earlier update that resolved any stop. */
  datatype Write = Write(stopSequence: int, stopId: string, arrival: Instant, moved: bool)

  function UpdateWrites(stus: seq<StopTimeUpdate>, stopIdToSeq: map<string, int>, moved: bool): seq<Write> {
    if stus == [] then []
    else
      var last := stus[|stus| - 1];
      var k, arrival := ResolveSeq(last, stopIdToSeq), ArrivalOf(last);
      UpdateWrites(stus[..|stus| - 1], stopIdToSeq, moved)
      + if k.Some? && arrival.Some? then [Write(k.value, last.stopId, arrival.value, moved)] else []
  }

  /** The smallest sequence of the most recent update that resolved to a usable (non-zero) one. */
  function MostRecentMin(history: seq<Arrival>): Option<int> {
    if history == [] then None
    else
      var last := history[|history| - 1];
      OrElse(MinSeq(last.update.stopTimeUpdates, last.stopIdToSeq), MostRecentMin(history[..|history| - 1]))
  }

  function Writes(history: seq<Arrival>): seq<Write> {
    if history == [] then []
    else
      var earlier, last := history[..|history| - 1], history[|history| - 1];
      var moved := Exceeds(MinSeq(last.update.stopTimeUpdates, last.stopIdToSeq), MostRecentMin(earlier));
      Writes(earlier) + UpdateWrites(last.update.stopTimeUpdates, last.stopIdToSeq, moved)
  }

  ghost predicate Resets(ws: seq<Write>, i: int)
    requires 0 <= i < |ws|
  {
    ws[i].moved || forall j | 0 <= j < i :: ws[j].stopSequence != ws[i].stopSequence
  }

  ghost predicate LatestWrite(ws: seq<Write>, k: int, i: int) {
    && 0 <= i < |ws| && ws[i].stopSequence == k
    && forall j | i < j < |ws| :: ws[j].stopSequence != k
  }

  ghost predicate LatestReset(ws: seq<Write>, k: int, i: int) {
    && 0 <= i < |ws| && ws[i].stopSequence == k && Resets(ws, i)
    && forall j | i < j < |ws| && ws[j].stopSequence == k :: !Resets(ws, j)
  }

  /** An entry says of stop k what the writes say: last seen at the latest write to it, first seen
      at the latest resetting one. */
  ghost predicate Describes(entry: CachedStopTime, ws: seq<Write>, k: int) {
    && entry.stopSequence == k
    && (exists i :: LatestWrite(ws, k, i) && entry.lastSeenArrival == ws[i].arrival && entry.stopId == ws[i].stopId)
    && (exists i :: LatestReset(ws, k, i) && entry.firstSeenArrival == ws[i].arrival)
  }

  /** A cache has exactly one entry for each stop written to, and each describes the writes. */
  ghost predicate Reflects(stops: map<int, CachedStopTime>, ws: seq<Write>) {
    && (forall i | 0 <= i < |ws| :: ws[i].stopSequence in stops)
    && (forall k | k in stops :: Describes(stops[k], ws, k))
  }

  /** After any history, the cache entry is exactly the history's account of each stop. */
  lemma {:induction false} CacheReflectsHistory(history: seq<Arrival>)
    requires history != []
    ensures Replay(history).Some? && Reflects(Replay(history).value.stops, Writes(history))
    ensures Replay(history).value.lastMinSeq == MostRecentMin(history)
    ensures Replay(history).value.createdAt == history[0].now
    ensures var u := history[|history| - 1].update;
            Replay(history).value.agency == u.agency && Replay(history).value.tripId == u.tripId
  {
    var earlier, last := history[..|history| - 1], history[|history| - 1];
    var stops := map[];
    if earlier != [] {
      CacheReflectsHistory(earlier);
      stops := Replay(earlier).value.stops;
    }
    var moved := Exceeds(MinSeq(last.update.stopTimeUpdates, last.stopIdToSeq), MostRecentMin(earlier));
    MergeReflects(stops, Writes(earlier), last.update.stopTimeUpdates, last.stopIdToSeq, moved);
  }

  lemma {:induction false} MergeReflects(stops: map<int, CachedStopTime>, ws: seq<Write>, stus: seq<StopTimeUpdate>,
                                         stopIdToSeq: map<string, int>, moved: bool)
    requires Reflects(stops, ws)
    ensures Reflects(MergeStops(stops, stus, stopIdToSeq, moved), ws + UpdateWrites(stus, stopIdToSeq, moved))
  {
    if stus == [] {
      assert ws + [] == ws;
    } else {
      var front, last := stus[..|stus| - 1], stus[|stus| - 1];
      MergeReflects(stops, ws, front, stopIdToSeq, moved);
      var stops', ws' := MergeStops(stops, front, stopIdToSeq, moved), ws + UpdateWrites(front, stopIdToSeq, moved);
      var k, arrival := ResolveSeq(last, stopIdToSeq), ArrivalOf(last);
      UpdateWritesStep(ws, stus, stopIdToSeq, moved);
      if k.Some? && arrival.Some? {
        WriteReflects(stops', ws', Write(k.value, last.stopId, arrival.value, moved));
      }
    }
  }

  lemma UpdateWritesStep(ws: seq<Write>, stus: seq<StopTimeUpdate>, stopIdToSeq: map<string, int>, moved: bool)
    requires stus != []
    ensures var last := stus[|stus| - 1];
            var k, arrival := ResolveSeq(last, stopIdToSeq), ArrivalOf(last);
            var before := ws + UpdateWrites(stus[..|stus| - 1], stopIdToSeq, moved);
            ws + UpdateWrites(stus, stopIdToSeq, moved) ==
              if k.Some? && arrival.Some? then before + [Write(k.value, last.stopId, arrival.value, moved)] else before
  {}

  lemma WriteReflects(stops: map<int, CachedStopTime>, ws: seq<Write>, w: Write)
    requires Reflects(stops, ws)
    ensures var k := w.stopSequence;
            var first := if k in stops && !w.moved then stops[k].firstSeenArrival else w.arrival;
            Reflects(stops[k := CachedStopTime(w.stopId, k, first, w.arrival)], ws + [w])
  {
    var k := w.stopSequence;
    var first := if k in stops && !w.moved then stops[k].firstSeenArrival else w.arrival;
    if k in stops && !w.moved {
      WriteAgain(stops[k], ws, w);
    } else {
      WriteAnew(ws, w);
    }
    forall k' | k' in stops && k' != k
      ensures Describes(stops[k'], ws + [w], k')
    {
      WriteElsewhere(stops[k'], ws, w, k');
    }
    assert forall i | 0 <= i < |ws| :: (ws + [w])[i] == ws[i];
  }

  lemma ResetsUnchanged(ws: seq<Write>, w: Write)
    ensures forall i | 0 <= i < |ws| :: (ws + [w])[i] == ws[i] && (Resets(ws + [w], i) <==> Resets(ws, i))
  {
    forall i | 0 <= i < |ws|
      ensures (ws + [w])[i] == ws[i] && (Resets(ws + [w], i) <==> Resets(ws, i))
    {
      assert forall j | 0 <= j < i :: (ws + [w])[j] == ws[j];
    }
  }

  lemma WriteElsewhere(entry: CachedStopTime, ws: seq<Write>, w: Write, k: int)
    requires Describes(entry, ws, k) && w.stopSequence != k
    ensures Describes(entry, ws + [w], k)
  {
    ResetsUnchanged(ws, w);
    var i :| LatestWrite(ws, k, i) && entry.lastSeenArrival == ws[i].arrival && entry.stopId == ws[i].stopId;
    assert LatestWrite(ws + [w], k, i);
    var r :| LatestReset(ws, k, r) && entry.firstSeenArrival == ws[r].arrival;
    assert LatestReset(ws + [w], k, r);
  }

  /** A write that does not reset keeps the first sighting. */
  lemma WriteAgain(entry: CachedStopTime, ws: seq<Write>, w: Write)
    requires Describes(entry, ws, w.stopSequence) && !w.moved
    ensures Describes(CachedStopTime(w.stopId, w.stopSequence, entry.firstSeenArrival, w.arrival), ws + [w],
                      w.stopSequence)
  {
    var k := w.stopSequence;
    ResetsUnchanged(ws, w);
    assert LatestWrite(ws + [w], k, |ws|);
    var r :| LatestReset(ws, k, r) && entry.firstSeenArrival == ws[r].arrival;
    assert !Resets(ws + [w], |ws|) by {
      assert (ws + [w])[r].stopSequence == k;
    }
    assert LatestReset(ws + [w], k, r);
  }

  /** A write to a new stop, or by an update that moved on, starts afresh. */
  lemma WriteAnew(ws: seq<Write>, w: Write)
    requires w.moved || forall i | 0 <= i < |ws| :: ws[i].stopSequence != w.stopSequence
    ensures Describes(CachedStopTime(w.stopId, w.stopSequence, w.arrival, w.arrival), ws + [w], w.stopSequence)
  {
    assert LatestWrite(ws + [w], w.stopSequence, |ws|);
    assert forall j | 0 <= j < |ws| :: (ws + [w])[j] == ws[j];
    assert LatestReset(ws + [w], w.stopSequence, |ws|);
  }

  /** No update ever drops a stop. */
  lemma {:induction false} StopsNeverDisappear(history: seq<Arrival>, more: seq<Arrival>, k: int)
    requires history != [] && k in Replay(history).value.stops
    ensures history + more != [] && k in Replay(history + more).value.stops
    decreases |more|
  {
    if more == [] {
      assert history + more == history;
    } else {
      var front := more[..|more| - 1];
      StopsNeverDisappear(history, front, k);
      ConcatFront(history, more);
      var last := more[|more| - 1];
      MergeKeeps(Replay(history + front).value.stops, last.update.stopTimeUpdates, last.stopIdToSeq,
                 Exceeds(MinSeq(last.update.stopTimeUpdates, last.stopIdToSeq),
                         Replay(history + front).value.lastMinSeq), k);
    }
  }

  lemma {:induction false} MergeKeeps(stops: map<int, CachedStopTime>, stus: seq<StopTimeUpdate>,
                                      stopIdToSeq: map<string, int>, moved: bool, k: int)
    requires k in stops
    ensures k in MergeStops(stops, stus, stopIdToSeq, moved)
  {
    if stus != [] {
      MergeKeeps(stops, stus[..|stus| - 1], stopIdToSeq, moved, k);
    }
  }

  // ----- many trips, and deletions -----

  datatype StoreOp = Update(arrival: Arrival) | Delete(key: TripKey)

  function ApplyOp(store: PredictionStore, op: StoreOp): PredictionStore {
    match op
    case Update(a) =>
      store[KeyOf(a.update) := UpdatedCache(Get(store, KeyOf(a.update)), a.update, a.stopIdToSeq, a.now)]
    case Delete(key) => store - {key}
  }

  function ApplyOps(ops: seq<StoreOp>): PredictionStore {
    if ops == [] then map[] else ApplyOp(ApplyOps(ops[..|ops| - 1]), ops[|ops| - 1])
  }

  /** The updates of one trip since it was last deleted. */
  function TripHistory(ops: seq<StoreOp>, key: TripKey): seq<Arrival> {
    if ops == [] then []
    else
      var earlier := TripHistory(ops[..|ops| - 1], key);
      match ops[|ops| - 1]
      case Update(a) =>
        if a.update.agency == key.agency && a.update.tripId == key.tripId then earlier + [a] else earlier
      case Delete(k) => if k == key then [] else earlier
  }

  /** Whatever else the store is used for, a trip's entry depends only on that trip's updates
      since its last deletion. */
  lemma {:induction false} EntriesAreIndependent(ops: seq<StoreOp>, key: TripKey)
    ensures Get(ApplyOps(ops), key) == Replay(TripHistory(ops, key))
  {
    if ops != [] {
      EntriesAreIndependent(ops[..|ops| - 1], key);
      var earlier := TripHistory(ops[..|ops| - 1], key);
      match ops[|ops| - 1]
      case Update(a) => assert (earlier + [a])[..|earlier|] == earlier;
      case Delete(_) =>
    }
  }
}
