/** The static GTFS data, the repository's queries over it, and the bounded caches in front of it. */
module GtfsStatic {
  import opened Domain

  datatype StopTime = StopTime(stopSequence: int, stopId: string, arrivalSeconds: int)

  datatype Trip = Trip(routeShortName: string, directionId: Option<int>, headsign: Option<string>)

  datatype Stop = Stop(stopName: string, stopDesc: Option<string>)

  /** One import of the static feed. `stopTimes` holds each trip's rows in stop-sequence order;
      (trip, sequence) is the table's primary key. `tz` is the local offset from UTC. */
  datatype StaticData = StaticData(
    tz: int,
    trips: map<string, Trip>,
    stops: map<string, Stop>,
    stopTimes: map<string, seq<StopTime>>,
    hashes: map<Agency, string>)
  {
    ghost predicate Valid() {
      forall trip | trip in stopTimes :: StrictlyAscending(stopTimes[trip])
    }

    function StopTimesForTrip(tripId: string): seq<StopTime> {
      if tripId in stopTimes then stopTimes[tripId] else []
    }

    /** The cache's view of one stop of a trip. */
    function StopTimeAt(tripId: string, stopSequence: int): Option<StopTime> {
      Get(BySequence(StopTimesForTrip(tripId)), stopSequence)
    }

    /** SQL's max over the trip's rows: no rows, no maximum. */
    function MaxRow(tripId: string): Option<int> {
      MaxOf(StopTimesForTrip(tripId))
    }

    /** The cache's answer: a maximum of zero counts as none. */
    function MaxStopSequence(tripId: string): Option<int> {
      if MaxRow(tripId) == Some(0) then None else MaxRow(tripId)
    }
  }

  ghost predicate StrictlyAscending(rows: seq<StopTime>) {
    forall i, j | 0 <= i < j < |rows| :: rows[i].stopSequence < rows[j].stopSequence
  }

  /** The dict comprehension from stop sequence to row: a later row wins. */
  function BySequence(rows: seq<StopTime>): map<int, StopTime> {
    if rows == [] then map[]
    else
      var last := rows[|rows| - 1];
      BySequence(rows[..|rows| - 1])[last.stopSequence := last]
  }

  lemma {:induction false} BySequenceHoldsTheRows(rows: seq<StopTime>)
    ensures var m := BySequence(rows);
            && (forall k | k in m :: m[k] in rows && m[k].stopSequence == k)
            && (forall i | 0 <= i < |rows| :: rows[i].stopSequence in m)
  {
    if rows != [] {
      BySequenceHoldsTheRows(rows[..|rows| - 1]);
    }
  }

  function MaxOf(rows: seq<StopTime>): Option<int> {
    if rows == [] then None
    else
      var last := rows[|rows| - 1].stopSequence;
      match MaxOf(rows[..|rows| - 1])
      case None => Some(last)
      case Some(m) => Some(if m < last then last else m)
  }

  lemma {:induction false} MaxOfIsTheMaximum(rows: seq<StopTime>)
    ensures var m := MaxOf(rows);
            && (m == None <==> rows == [])
            && (m.Some? ==>
                  && (exists i :: 0 <= i < |rows| && rows[i].stopSequence == m.value)
                  && (forall i | 0 <= i < |rows| :: rows[i].stopSequence <= m.value))
  {
    if rows != [] {
      var front := rows[..|rows| - 1];
      MaxOfIsTheMaximum(front);
      if MaxOf(front).Some? {
        var i :| 0 <= i < |front| && front[i].stopSequence == MaxOf(front).value;
        assert rows[i] == front[i];
      }
      assert rows[|rows| - 1].stopSequence <= MaxOf(rows).value;
      forall i | 0 <= i < |rows|
        ensures rows[i].stopSequence <= MaxOf(rows).value
      {
        if i < |front| {
          assert front[i] == rows[i];
        }
      }
    }
  }

  /** The dict comprehension from stop id to sequence: the last row of a stop wins. */
  function StopIdToSequence(rows: seq<StopTime>): map<string, int> {
    if rows == [] then map[]
    else
      var last := rows[|rows| - 1];
      StopIdToSequence(rows[..|rows| - 1])[last.stopId := last.stopSequence]
  }

  /** Looking a sequence up finds the one row that carries it, and nothing else. */
  lemma StopTimeAtIsTheRow(data: StaticData, tripId: string, row: StopTime)
    requires data.Valid()
    ensures data.StopTimeAt(tripId, row.stopSequence) == Some(row)
       <==> tripId in data.stopTimes && row in data.stopTimes[tripId]
  {
    var rows := data.StopTimesForTrip(tripId);
    var m := BySequence(rows);
    BySequenceHoldsTheRows(rows);
    if row in rows {
      var found := m[row.stopSequence];
      var i :| 0 <= i < |rows| && rows[i] == row;
      var j :| 0 <= j < |rows| && rows[j] == found;
      assert i == j;
    }
  }

  /** The answer is the largest sequence among the trip's rows, unless that is zero. */
  lemma MaxStopSequenceIff(data: StaticData, tripId: string, m: int)
    ensures data.MaxStopSequence(tripId) == Some(m)
       <==> && m != 0 && tripId in data.stopTimes
            && (exists row :: row in data.stopTimes[tripId] && row.stopSequence == m)
            && (forall row | row in data.stopTimes[tripId] :: row.stopSequence <= m)
  {
    MaxOfIsTheMaximum(data.StopTimesForTrip(tripId));
  }

  /** No stop that can be looked up lies beyond the maximum, so a scan up to it misses none. */
  lemma MaxBoundsLookups(data: StaticData, tripId: string, stopSequence: int)
    requires data.StopTimeAt(tripId, stopSequence).Some?
    ensures data.MaxRow(tripId).Some? && stopSequence <= data.MaxRow(tripId).value
    ensures data.StopTimeAt(tripId, data.MaxRow(tripId).value).Some?
  {
    var rows := data.StopTimesForTrip(tripId);
    BySequenceHoldsTheRows(rows);
    MaxOfIsTheMaximum(rows);
  }

  /** The stop-id map gives every stop of the trip its largest sequence, knows no other stop, and
      leads back to the same stop through the stop-time lookup. */
  lemma StopIdToSequenceIsLargest(data: StaticData, tripId: string, stopId: string)
    requires data.Valid()
    ensures var m := StopIdToSequence(data.StopTimesForTrip(tripId));
            && (stopId in m
                <==> tripId in data.stopTimes && exists row :: row in data.stopTimes[tripId] && row.stopId == stopId)
            && (stopId in m ==>
                  && (forall row | row in data.stopTimes[tripId] && row.stopId == stopId ::
                        row.stopSequence <= m[stopId])
                  && data.StopTimeAt(tripId, m[stopId]).Some?
                  && data.StopTimeAt(tripId, m[stopId]).value.stopId == stopId)
  {
    var rows := data.StopTimesForTrip(tripId);
    LastRowWins(rows, stopId);
    if stopId in StopIdToSequence(rows) {
      var i :| 0 <= i < |rows| && rows[i].stopId == stopId && rows[i].stopSequence == StopIdToSequence(rows)[stopId];
      StopTimeAtIsTheRow(data, tripId, rows[i]);
    }
  }

  lemma {:induction false} LastRowWins(rows: seq<StopTime>, stopId: string)
    requires StrictlyAscending(rows)
    ensures stopId in StopIdToSequence(rows) <==> exists i :: 0 <= i < |rows| && rows[i].stopId == stopId
    ensures stopId in StopIdToSequence(rows) ==>
              && (exists i :: 0 <= i < |rows| && rows[i].stopId == stopId
                              && rows[i].stopSequence == StopIdToSequence(rows)[stopId])
              && (forall i | 0 <= i < |rows| && rows[i].stopId == stopId ::
                    rows[i].stopSequence <= StopIdToSequence(rows)[stopId])
  {
    if rows != [] {
      var front := rows[..|rows| - 1];
      LastRowWins(front, stopId);
      if rows[|rows| - 1].stopId != stopId && stopId in StopIdToSequence(front) {
        var i :| 0 <= i < |front| && front[i].stopId == stopId
                 && front[i].stopSequence == StopIdToSequence(front)[stopId];
        assert rows[i] == front[i];
      }
      assert forall i | 0 <= i < |front| :: rows[i] == front[i];
    }
  }

  method BuildBySequence(rows: seq<StopTime>) returns (m: map<int, StopTime>)
    ensures m == BySequence(rows)
  {
    m := map[];
    for i := 0 to |rows|
      invariant m == BySequence(rows[..i])
    {
      m := m[rows[i].stopSequence := rows[i]];
      PrefixFront(rows, i);
    }
    assert rows[..|rows|] == rows;
  }

  method BuildStopIdToSequence(rows: seq<StopTime>) returns (m: map<string, int>)
    ensures m == StopIdToSequence(rows)
  {
    m := map[];
    for i := 0 to |rows|
      invariant m == StopIdToSequence(rows[..i])
    {
      m := m[rows[i].stopId := rows[i].stopSequence];
      PrefixFront(rows, i);
    }
    assert rows[..|rows|] == rows;
  }

  /** Stores an entry in a bounded cache that is full at `capacity` entries: one arbitrary victim
      leaves, the new entry stays. */
  method Insert<K(==), V>(m: map<K, V>, key: K, value: V, capacity: nat) returns (r: map<K, V>)
    requires key !in m && 1 <= capacity && |m| <= capacity
    ensures key in r && r[key] == value && |r| <= capacity
    ensures forall k | k in r && k != key :: k in m && r[k] == m[k]
  {
    var kept := m;
    if |m| == capacity {
      var victim :| victim in m;
      kept := m - {victim};
      assert kept.Keys == m.Keys - {victim};
    }
    r := kept[key := value];
    assert r.Keys == kept.Keys + {key};
  }

  const CACHE_MAX_TRIPS := 5000
  const CACHE_MAX_STOPS := 5000
  const CACHE_MAX_STOP_TIMES := 2000
  const CACHE_MAX_SEQUENCES := 5000

  /** The detector's lookups. Whatever the caches hold or have evicted, every answer is the
      repository's own. */
  class GtfsCache {
    const data: StaticData
    var tripCache: map<string, Trip>
    var stopCache: map<string, Stop>
    var stopTimesCache: map<string, map<int, StopTime>>
    var maxSeqCache: map<string, int>

    ghost predicate Valid()
      reads this
    {
      Bounded() && Faithful()
    }

    ghost predicate Bounded()
      reads this
    {
      && |tripCache| <= CACHE_MAX_TRIPS
      && |stopCache| <= CACHE_MAX_STOPS
      && |stopTimesCache| <= CACHE_MAX_STOP_TIMES
      && |maxSeqCache| <= CACHE_MAX_SEQUENCES
    }

    /** Whatever is cached is what the repository would answer. */
    ghost predicate Faithful()
      reads this
    {
      && (forall k | k in tripCache :: Get(data.trips, k) == Some(tripCache[k]))
      && (forall k | k in stopCache :: Get(data.stops, k) == Some(stopCache[k]))
      && (forall k | k in stopTimesCache :: stopTimesCache[k] == BySequence(data.StopTimesForTrip(k)))
      && (forall k | k in maxSeqCache :: data.MaxStopSequence(k) == Some(maxSeqCache[k]))
    }

    constructor (data: StaticData)
      ensures Valid() && this.data == data
    {
      this.data := data;
      tripCache, stopCache, stopTimesCache, maxSeqCache := map[], map[], map[], map[];
    }

    method GetTrip(tripId: string) returns (trip: Option<Trip>)
      requires Valid()
      modifies this
      ensures Valid() && trip == Get(data.trips, tripId)
    {
      if tripId !in tripCache {
        var found := Get(data.trips, tripId);
        if found.Some? {
          tripCache := Insert(tripCache, tripId, found.value, CACHE_MAX_TRIPS);
        }
      }
      trip := Get(tripCache, tripId);
    }

    method GetStop(stopId: string) returns (stop: Option<Stop>)
      requires Valid()
      modifies this
      ensures Valid() && stop == Get(data.stops, stopId)
    {
      if stopId !in stopCache {
        var found := Get(data.stops, stopId);
        if found.Some? {
          stopCache := Insert(stopCache, stopId, found.value, CACHE_MAX_STOPS);
        }
      }
      stop := Get(stopCache, stopId);
    }

    method GetStopTime(tripId: string, stopSequence: int) returns (stopTime: Option<StopTime>)
      requires Valid()
      modifies this
      ensures Valid() && stopTime == data.StopTimeAt(tripId, stopSequence)
    {
      if tripId !in stopTimesCache {
        var bySequence := BuildBySequence(data.StopTimesForTrip(tripId));
        stopTimesCache := Insert(stopTimesCache, tripId, bySequence, CACHE_MAX_STOP_TIMES);
      }
      stopTime := Get(if tripId in stopTimesCache then stopTimesCache[tripId] else map[], stopSequence);
    }

    method GetMaxStopSequence(tripId: string) returns (maxSeq: Option<int>)
      requires Valid()
      modifies this
      ensures Valid() && maxSeq == data.MaxStopSequence(tripId)
    {
      if tripId !in maxSeqCache {
        var found := data.MaxRow(tripId);
        if found.Some? && found.value != 0 {
          maxSeqCache := Insert(maxSeqCache, tripId, found.value, CACHE_MAX_SEQUENCES);
        }
      }
      maxSeq := Get(maxSeqCache, tripId);
    }

    method GetCurrentHash(agency: Agency) returns (hash: Option<string>)
      ensures hash == Get(data.hashes, agency)
    {
      hash := Get(data.hashes, agency);
    }
  }

  const CACHE_MAX_STOP_ID_TO_SEQ := 5000

  /** Whatever is cached is the map built from the feed. */
  ghost predicate IdsAreFaithful(data: StaticData, cached: map<string, map<string, int>>) {
    forall k | k in cached :: cached[k] == StopIdToSequence(data.StopTimesForTrip(k))
  }

  /** The poller's cached stop-id map. */
  class StopIdCache {
    const data: StaticData
    var stopIdToSeq: map<string, map<string, int>>

    ghost predicate Valid()
      reads this
    {
      |stopIdToSeq| <= CACHE_MAX_STOP_ID_TO_SEQ && IdsAreFaithful(data, stopIdToSeq)
    }

    constructor (data: StaticData)
      ensures Valid() && this.data == data
    {
      this.data := data;
      stopIdToSeq := map[];
    }

    method GetStopIdToSeq(tripId: string) returns (m: map<string, int>)
      requires Valid()
      modifies this
      ensures Valid() && m == StopIdToSequence(data.StopTimesForTrip(tripId))
    {
      if tripId !in stopIdToSeq {
        var built := BuildStopIdToSequence(data.StopTimesForTrip(tripId));
        stopIdToSeq := Insert(stopIdToSeq, tripId, built, CACHE_MAX_STOP_ID_TO_SEQ);
      }
      m := stopIdToSeq[tripId];
    }
  }
}
