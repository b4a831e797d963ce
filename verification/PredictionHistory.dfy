/** What a prediction cache entry tells, read off the trip updates as they were received. */
module PredictionHistory {
  import opened Domain
  import opened Predictions

  /** Where a history holds a stop-time update: in which trip update, and where in that. */
  datatype Place = Place(update: int, entry: int)

  predicate Before(a: Place, b: Place) {
    a.update < b.update || (a.update == b.update && a.entry < b.entry)
  }

  /** Stop-time update s is about stop k: it carries that sequence, or carries none (or zero) and
      the feed gives its stop that sequence. */
  predicate Names(a: Arrival, s: int, k: int) {
    && 0 <= s < |a.update.stopTimeUpdates|
    && var stu := a.update.stopTimeUpdates[s];
       if stu.stopSequence.Some? && stu.stopSequence.value != 0 then k == stu.stopSequence.value
       else stu.stopId in a.stopIdToSeq && k == a.stopIdToSeq[stu.stopId]
  }

  /** Stop-time update s predicts time t: its arrival, or its departure if it gives no arrival. */
  predicate Predicts(a: Arrival, s: int, t: Instant) {
    && 0 <= s < |a.update.stopTimeUpdates|
    && var stu := a.update.stopTimeUpdates[s];
       if stu.arrivalTime.Some? then t == stu.arrivalTime.value else stu.departureTime == Some(t)
  }

  /** The place gives stop k the time t. */
  predicate Gives(history: seq<Arrival>, p: Place, k: int, t: Instant) {
    && 0 <= p.update < |history|
    && Names(history[p.update], p.entry, k) && Predicts(history[p.update], p.entry, t)
  }

  /** m is the first stop along the trip that the update names. */
  ghost predicate StartsAt(a: Arrival, m: int) {
    && (exists s :: Names(a, s, m))
    && forall s, k | Names(a, s, k) :: m <= k
  }

  /** Update v is the latest before u to start at a usable stop, which is m; zero is not usable. */
  ghost predicate LatestStart(history: seq<Arrival>, u: int, v: int, m: int)
    requires 0 <= u <= |history|
  {
    && 0 <= v < u && m != 0 && StartsAt(history[v], m)
    && forall w, x | v < w < u && StartsAt(history[w], x) :: x == 0
  }

  /** m is where the latest update before u with a usable start started. */
  ghost predicate Started(history: seq<Arrival>, u: int, m: int)
    requires 0 <= u <= |history|
  {
    exists v :: LatestStart(history, u, v, m)
  }

  /** Update u starts further along the trip than the latest one before it. */
  ghost predicate MovedOn(history: seq<Arrival>, u: int)
    requires 0 <= u < |history|
  {
    exists m, m' :: Started(history, u, m) && StartsAt(history[u], m') && m < m'
  }

  /** The place gives stop k a time afresh: the vehicle has moved on, or k had none before. */
  ghost predicate Restarts(history: seq<Arrival>, p: Place, k: int, t: Instant) {
    && Gives(history, p, k, t)
    && (MovedOn(history, p.update) || forall p', t' | Gives(history, p', k, t') :: !Before(p', p))
  }

  /** Stop k was last seen at t, and as stop `stopId`: no later place gives it a time. */
  ghost predicate LastSeen(history: seq<Arrival>, k: int, t: Instant, stopId: string) {
    exists p :: && Gives(history, p, k, t)
                && history[p.update].update.stopTimeUpdates[p.entry].stopId == stopId
                && forall p', t' | Gives(history, p', k, t') :: !Before(p, p')
  }

  /** Stop k was first seen at t: no later place gives it a time afresh. */
  ghost predicate FirstSeen(history: seq<Arrival>, k: int, t: Instant) {
    exists p :: && Restarts(history, p, k, t)
                && forall p', t' | Restarts(history, p', k, t') :: !Before(p, p')
  }

  /** The stops are exactly those given a time, each with the times last and first seen. */
  ghost predicate Tells(stops: map<int, CachedStopTime>, history: seq<Arrival>) {
    && (forall k :: k in stops <==> exists p, t :: Gives(history, p, k, t))
    && (forall k | k in stops ::
          && stops[k].stopSequence == k
          && LastSeen(history, k, stops[k].lastSeenArrival, stops[k].stopId)
          && FirstSeen(history, k, stops[k].firstSeenArrival))
  }

  // ----- what an update starts at -----

  lemma NamesIff(a: Arrival, s: int, k: int)
    requires 0 <= s < |a.update.stopTimeUpdates|
    ensures Names(a, s, k) <==> ResolveSeq(a.update.stopTimeUpdates[s], a.stopIdToSeq) == Some(k)
  {}

  lemma PredictsIff(a: Arrival, s: int, t: Instant)
    requires 0 <= s < |a.update.stopTimeUpdates|
    ensures Predicts(a, s, t) <==> ArrivalOf(a.update.stopTimeUpdates[s]) == Some(t)
  {}

  /** The incoming minimum is the first stop the update names. */
  lemma MinSeqIsTheStart(a: Arrival, m: int)
    ensures MinSeq(a.update.stopTimeUpdates, a.stopIdToSeq) == Some(m) <==> StartsAt(a, m)
  {
    var stus, found := a.update.stopTimeUpdates, MinSeq(a.update.stopTimeUpdates, a.stopIdToSeq);
    MinSeqIsTheMinimum(stus, a.stopIdToSeq);
    forall s, k | 0 <= s < |stus|
      ensures Names(a, s, k) <==> ResolveSeq(stus[s], a.stopIdToSeq) == Some(k)
    {
      NamesIff(a, s, k);
    }
    if found.Some? {
      var i :| 0 <= i < |stus| && ResolveSeq(stus[i], a.stopIdToSeq) == found;
      assert Names(a, i, found.value);
    }
  }

  lemma {:induction false} MostRecentMinIs(history: seq<Arrival>, m: int)
    ensures MostRecentMin(history) == Some(m) <==> Started(history, |history|, m)
  {
    if history != [] {
      var n := |history| - 1;
      var earlier, last := history[..n], history[n];
      MostRecentMinIs(earlier, m);
      forall x
        ensures MinSeq(last.update.stopTimeUpdates, last.stopIdToSeq) == Some(x) <==> StartsAt(last, x)
      {
        MinSeqIsTheStart(last, x);
      }
      LatestStartStep(history, m);
    }
  }

  lemma LatestStartStep(history: seq<Arrival>, m: int)
    requires history != []
    ensures var earlier, last := history[..|history| - 1], history[|history| - 1];
            Started(history, |history|, m)
            <==> || (StartsAt(last, m) && m != 0)
                 || ((forall x | StartsAt(last, x) :: x == 0) && Started(earlier, |earlier|, m))
  {
    var n := |history| - 1;
    if StartsAt(history[n], m) && m != 0 {
      assert LatestStart(history, |history|, n, m);
    }
    if Started(history, |history|, m) {
      var v :| LatestStart(history, |history|, v, m);
      if v < n {
        assert LatestStart(history[..n], n, v, m);
      }
    }
    if (forall x | StartsAt(history[n], x) :: x == 0) && Started(history[..n], n, m) {
      var v :| LatestStart(history[..n], n, v, m);
      assert LatestStart(history, |history|, v, m);
    }
  }

  lemma MovedOnIff(history: seq<Arrival>)
    requires history != []
    ensures var earlier, last := history[..|history| - 1], history[|history| - 1];
            Exceeds(MinSeq(last.update.stopTimeUpdates, last.stopIdToSeq), MostRecentMin(earlier))
            <==> MovedOn(history, |history| - 1)
  {
    var n := |history| - 1;
    var earlier, last := history[..n], history[n];
    var start, recent := MinSeq(last.update.stopTimeUpdates, last.stopIdToSeq), MostRecentMin(earlier);
    forall m
      ensures Started(history, n, m) <==> recent == Some(m)
    {
      MostRecentMinIs(earlier, m);
      SameStart(history, n, m);
    }
    forall m
      ensures start == Some(m) <==> StartsAt(last, m)
    {
      MinSeqIsTheStart(last, m);
    }
    if Exceeds(start, recent) {
      assert Started(history, n, recent.value) && StartsAt(last, start.value);
    }
  }

  lemma SameStart(history: seq<Arrival>, u: int, m: int)
    requires history != [] && 0 <= u < |history|
    ensures Started(history, u, m) <==> Started(history[..|history| - 1], u, m)
  {
    var earlier := history[..|history| - 1];
    forall v
      ensures LatestStart(history, u, v, m) <==> LatestStart(earlier, u, v, m)
    {}
  }

  // ----- the places of the writes -----

  function UpdatePlaces(a: Arrival, n: nat, u: int): seq<Place>
    requires n <= |a.update.stopTimeUpdates|
  {
    if n == 0 then []
    else
      var stu := a.update.stopTimeUpdates[n - 1];
      UpdatePlaces(a, n - 1, u)
      + if ResolveSeq(stu, a.stopIdToSeq).Some? && ArrivalOf(stu).Some? then [Place(u, n - 1)] else []
  }

  function Places(history: seq<Arrival>): seq<Place> {
    if history == [] then []
    else
      var n := |history| - 1;
      Places(history[..n]) + UpdatePlaces(history[n], |history[n].update.stopTimeUpdates|, n)
  }

  /** The writes of the first n stop-time updates, and where each was made. */
  ghost predicate Located(a: Arrival, n: int, u: int, moved: bool, ws: seq<Write>, ps: seq<Place>) {
    && |ws| == |ps|
    && (forall i | 0 <= i < |ps| ::
          && ps[i].update == u && 0 <= ps[i].entry < n
          && WrittenFrom(a, ps[i].entry, ws[i]) && ws[i].moved == moved)
    && (forall i, j | 0 <= i < j < |ps| :: ps[i].entry < ps[j].entry)
    && (forall s, k, t | 0 <= s < n && Names(a, s, k) && Predicts(a, s, t) :: Place(u, s) in ps)
  }

  predicate WrittenFrom(a: Arrival, s: int, w: Write) {
    && Names(a, s, w.stopSequence) && Predicts(a, s, w.arrival)
    && w.stopId == a.update.stopTimeUpdates[s].stopId
  }

  lemma {:induction false} UpdateIsLocated(a: Arrival, n: nat, u: int, moved: bool)
    requires n <= |a.update.stopTimeUpdates|
    ensures Located(a, n, u, moved, UpdateWrites(a.update.stopTimeUpdates[..n], a.stopIdToSeq, moved),
                    UpdatePlaces(a, n, u))
  {
    if n > 0 {
      UpdateIsLocated(a, n - 1, u, moved);
      LocatedStep(a, n, u, moved);
    }
  }

  lemma LocatedStep(a: Arrival, n: nat, u: int, moved: bool)
    requires 0 < n <= |a.update.stopTimeUpdates|
    requires Located(a, n - 1, u, moved, UpdateWrites(a.update.stopTimeUpdates[..n - 1], a.stopIdToSeq, moved),
                     UpdatePlaces(a, n - 1, u))
    ensures Located(a, n, u, moved, UpdateWrites(a.update.stopTimeUpdates[..n], a.stopIdToSeq, moved),
                    UpdatePlaces(a, n, u))
  {
    var stus := a.update.stopTimeUpdates;
    var ws, ps := UpdateWrites(stus[..n - 1], a.stopIdToSeq, moved), UpdatePlaces(a, n - 1, u);
    var k, t := ResolveSeq(stus[n - 1], a.stopIdToSeq), ArrivalOf(stus[n - 1]);
    PrefixFront(stus, n - 1);
    if k.Some? && t.Some? {
      NamesIff(a, n - 1, k.value);
      PredictsIff(a, n - 1, t.value);
      LocatedGrows(a, n, u, moved, ws, ps, Write(k.value, stus[n - 1].stopId, t.value, moved));
    } else {
      LocatedStays(a, n, u, moved, ws, ps);
    }
  }

  lemma LocatedStays(a: Arrival, n: nat, u: int, moved: bool, ws: seq<Write>, ps: seq<Place>)
    requires 0 < n <= |a.update.stopTimeUpdates| && Located(a, n - 1, u, moved, ws, ps)
    requires var stu := a.update.stopTimeUpdates[n - 1];
             ResolveSeq(stu, a.stopIdToSeq).None? || ArrivalOf(stu).None?
    ensures Located(a, n, u, moved, ws, ps)
  {
    forall s, k, t | 0 <= s < n && Names(a, s, k) && Predicts(a, s, t)
      ensures Place(u, s) in ps
    {
      NamesIff(a, s, k);
      PredictsIff(a, s, t);
    }
  }

  lemma LocatedGrows(a: Arrival, n: nat, u: int, moved: bool, ws: seq<Write>, ps: seq<Place>, w: Write)
    requires n > 0 && Located(a, n - 1, u, moved, ws, ps)
    requires WrittenFrom(a, n - 1, w) && w.moved == moved
    ensures Located(a, n, u, moved, ws + [w], ps + [Place(u, n - 1)])
  {
    var ps' := ps + [Place(u, n - 1)];
    assert ps'[|ps|] == Place(u, n - 1);
    forall s, k, t | 0 <= s < n && Names(a, s, k) && Predicts(a, s, t)
      ensures Place(u, s) in ps'
    {
      if s < n - 1 {
        assert Place(u, s) in ps;
      }
    }
  }

  /** Every write of a history has its place, in order, and every place that gives a time has its
      write. */
  ghost predicate Charted(history: seq<Arrival>, ws: seq<Write>, ps: seq<Place>) {
    && |ws| == |ps|
    && (forall i | 0 <= i < |ps| ::
          && 0 <= ps[i].update < |history|
          && WrittenFrom(history[ps[i].update], ps[i].entry, ws[i])
          && (ws[i].moved <==> MovedOn(history, ps[i].update)))
    && (forall i, j | 0 <= i < j < |ps| :: Before(ps[i], ps[j]))
    && (forall p, k, t | Gives(history, p, k, t) :: p in ps)
  }

  lemma {:induction false} WritesAreCharted(history: seq<Arrival>)
    ensures Charted(history, Writes(history), Places(history))
  {
    if history != [] {
      var n := |history| - 1;
      var earlier, last := history[..n], history[n];
      var stus := last.update.stopTimeUpdates;
      WritesAreCharted(earlier);
      MovedOnIff(history);
      assert stus[..|stus|] == stus;
      UpdateIsLocated(last, |stus|, n, MovedOn(history, n));
      ChartGrows(history, Writes(earlier), Places(earlier), UpdateWrites(stus, last.stopIdToSeq, MovedOn(history, n)),
                 UpdatePlaces(last, |stus|, n));
    }
  }

  lemma ChartGrows(history: seq<Arrival>, ws: seq<Write>, ps: seq<Place>, ws': seq<Write>, ps': seq<Place>)
    requires history != []
    requires Charted(history[..|history| - 1], ws, ps)
    requires var n := |history| - 1;
             Located(history[n], |history[n].update.stopTimeUpdates|, n, MovedOn(history, n), ws', ps')
    ensures Charted(history, ws + ws', ps + ps')
  {
    var n := |history| - 1;
    var whole := ps + ps';
    forall i | 0 <= i < |whole|
      ensures 0 <= whole[i].update < |history|
      ensures WrittenFrom(history[whole[i].update], whole[i].entry, (ws + ws')[i])
      ensures (ws + ws')[i].moved <==> MovedOn(history, whole[i].update)
    {
      if i < |ps| {
        MovedOnEarlier(history, ps[i].update);
      }
    }
    forall p, k, t | Gives(history, p, k, t)
      ensures p in whole
    {
      if p.update < n {
        assert Gives(history[..n], p, k, t);
        assert p in ps;
      } else {
        assert Place(n, p.entry) in ps';
      }
    }
  }

  lemma MovedOnEarlier(history: seq<Arrival>, u: int)
    requires history != [] && 0 <= u < |history| - 1
    ensures MovedOn(history, u) <==> MovedOn(history[..|history| - 1], u)
  {
    var earlier := history[..|history| - 1];
    if MovedOn(history, u) {
      var m, m' :| Started(history, u, m) && StartsAt(history[u], m') && m < m';
      SameStart(history, u, m);
      assert StartsAt(earlier[u], m');
    }
    if MovedOn(earlier, u) {
      var m, m' :| Started(earlier, u, m) && StartsAt(earlier[u], m') && m < m';
      SameStart(history, u, m);
      assert StartsAt(history[u], m');
    }
  }

  // ----- the account -----

  /** After any history of a trip's updates, its cache entry tells exactly what was received: a stop
      is there if some stop-time update gave it a time; it was last seen at the time given last, and
      first seen at the time given last among those given afresh. */
  lemma CacheTellsHistory(history: seq<Arrival>)
    requires history != []
    ensures Replay(history).Some? && Tells(Replay(history).value.stops, history)
  {
    CacheReflectsHistory(history);
    WritesAreCharted(history);
    var stops, ws, ps := Replay(history).value.stops, Writes(history), Places(history);
    forall k
      ensures k in stops <==> exists p, t :: Gives(history, p, k, t)
    {
      GivenIffCached(history, stops, ws, ps, k);
    }
    forall k | k in stops
      ensures LastSeen(history, k, stops[k].lastSeenArrival, stops[k].stopId)
      ensures FirstSeen(history, k, stops[k].firstSeenArrival)
    {
      LatestIsLastSeen(history, ws, ps, k, stops[k]);
      ResetIsFirstSeen(history, ws, ps, k, stops[k]);
    }
  }

  /** The write made at a place that gives stop k a time. */
  lemma WriteAt(history: seq<Arrival>, ws: seq<Write>, ps: seq<Place>, p: Place, k: int, t: Instant) returns (i: nat)
    requires Charted(history, ws, ps) && Gives(history, p, k, t)
    ensures i < |ps| && ps[i] == p && ws[i].stopSequence == k && ws[i].arrival == t
  {
    assert p in ps;
    i :| 0 <= i < |ps| && ps[i] == p;
    assert WrittenFrom(history[p.update], p.entry, ws[i]);
  }

  lemma PlaceGives(history: seq<Arrival>, ws: seq<Write>, ps: seq<Place>, i: nat)
    requires Charted(history, ws, ps) && i < |ws|
    ensures Gives(history, ps[i], ws[i].stopSequence, ws[i].arrival)
  {
    assert WrittenFrom(history[ps[i].update], ps[i].entry, ws[i]);
  }

  lemma GivenIffCached(history: seq<Arrival>, stops: map<int, CachedStopTime>, ws: seq<Write>, ps: seq<Place>, k: int)
    requires Charted(history, ws, ps) && Reflects(stops, ws)
    ensures k in stops <==> exists p, t :: Gives(history, p, k, t)
  {
    if k in stops {
      assert Describes(stops[k], ws, k);
      var i :| LatestWrite(ws, k, i);
      PlaceGives(history, ws, ps, i);
    }
    if p, t :| Gives(history, p, k, t) {
      var i := WriteAt(history, ws, ps, p, k, t);
      assert ws[i].stopSequence in stops;
    }
  }

  lemma LatestIsLastSeen(history: seq<Arrival>, ws: seq<Write>, ps: seq<Place>, k: int, entry: CachedStopTime)
    requires Charted(history, ws, ps) && Describes(entry, ws, k)
    ensures LastSeen(history, k, entry.lastSeenArrival, entry.stopId)
  {
    var i :| LatestWrite(ws, k, i) && entry.lastSeenArrival == ws[i].arrival && entry.stopId == ws[i].stopId;
    PlaceGives(history, ws, ps, i);
    forall p', t' | Gives(history, p', k, t')
      ensures !Before(ps[i], p')
    {
      var j := WriteAt(history, ws, ps, p', k, t');
      assert j <= i;
      assert j < i ==> Before(ps[j], ps[i]);
    }
    assert WrittenFrom(history[ps[i].update], ps[i].entry, ws[i]);
  }

  lemma ResetsIffRestarts(history: seq<Arrival>, ws: seq<Write>, ps: seq<Place>, i: nat)
    requires Charted(history, ws, ps) && i < |ws|
    ensures Resets(ws, i) <==> Restarts(history, ps[i], ws[i].stopSequence, ws[i].arrival)
  {
    var k := ws[i].stopSequence;
    PlaceGives(history, ws, ps, i);
    if Resets(ws, i) && !ws[i].moved {
      forall p', t' | Gives(history, p', k, t')
        ensures !Before(p', ps[i])
      {
        var j := WriteAt(history, ws, ps, p', k, t');
        assert i < j ==> Before(ps[i], ps[j]);
      }
    }
    if Restarts(history, ps[i], k, ws[i].arrival) && !ws[i].moved {
      forall j | 0 <= j < i
        ensures ws[j].stopSequence != k
      {
        PlaceGives(history, ws, ps, j);
        assert Before(ps[j], ps[i]);
      }
    }
  }

  lemma ResetIsFirstSeen(history: seq<Arrival>, ws: seq<Write>, ps: seq<Place>, k: int, entry: CachedStopTime)
    requires Charted(history, ws, ps) && Describes(entry, ws, k)
    ensures FirstSeen(history, k, entry.firstSeenArrival)
  {
    var i :| LatestReset(ws, k, i) && entry.firstSeenArrival == ws[i].arrival;
    ResetsIffRestarts(history, ws, ps, i);
    forall p', t' | Restarts(history, p', k, t')
      ensures !Before(ps[i], p')
    {
      var j := WriteAt(history, ws, ps, p', k, t');
      ResetsIffRestarts(history, ws, ps, j);
      assert j <= i;
      assert j < i ==> Before(ps[j], ps[i]);
    }
  }
}
