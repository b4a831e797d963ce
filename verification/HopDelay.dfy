/** The query for the largest delays generated between neighbouring stops, and the self-join it
    refines. */
module HopDelay {
  import opened Domain
  import opened StatsRows

  /** Two rows that the query pairs. */
  datatype Hop = Hop(from: Row, to: Row) {
    function GeneratedDelay(): int {
      to.delaySeconds - from.delaySeconds
    }

    predicate IsEstimated() {
      to.detectionMethod != STOPPED_AT || from.detectionMethod != STOPPED_AT
    }
  }

  /** The filter on the detection methods of a row and the row before it. */
  predicate PrevDetFilter(q: Query, to: Row, from: Row) {
    if q.includeEstimated then
      && (to.detectionMethod == STOPPED_AT || to.serviceDate >= ESTIMATED_VALID_FROM)
      && (from.detectionMethod == STOPPED_AT || to.serviceDate >= ESTIMATED_VALID_FROM)
    else
      to.detectionMethod == STOPPED_AT && from.detectionMethod == STOPPED_AT
  }

  predicate SamePlate(a: Row, b: Row) {
    a.licensePlate.Some? && a.licensePlate == b.licensePlate
  }

  /** The outer WHERE clause on a row and what LAG found before it. */
  predicate Kept(q: Query, to: Row, lag: Option<Row>, checkPrevious: bool) {
    && lag.Some?
    && lag.value.delaySeconds >= MIN_DELAY_SECONDS
    && SamePlate(to, lag.value)
    && to.stopSequence == lag.value.stopSequence + 1
    && (checkPrevious ==> PrevDetFilter(q, to, lag.value))
  }

  /** The pairs kept among some of the filtered rows, LAG looking at all of them. */
  function Candidates(q: Query, filtered: seq<Row>, some: seq<Row>, checkPrevious: bool): seq<Hop> {
    if some == [] then []
    else
      var to := some[|some| - 1];
      var lag := Lag(filtered, to);
      Candidates(q, filtered, some[..|some| - 1], checkPrevious)
      + if Kept(q, to, lag, checkPrevious) then [Hop(lag.value, to)] else []
  }

  function Descending(h: Hop): int {
    -h.GeneratedDelay()
  }

  function MaxDelayBetweenStops(q: Query, rows: seq<Row>): seq<Hop> {
    var filtered := Filtered(q, rows);
    FirstTen(SortBy(Candidates(q, filtered, filtered, true), Descending))
  }

  /** The self-join: neighbouring stops of one trip and date, served by one vehicle, both passing
      the filter, the earlier one not more than 90 s early. */
  ghost predicate Joined(q: Query, rows: seq<Row>, h: Hop) {
    && h.from in rows && h.to in rows && Measured(q, h.from) && Measured(q, h.to)
    && h.from.tripId == h.to.tripId && h.from.serviceDate == h.to.serviceDate
    && h.to.stopSequence == h.from.stopSequence + 1
    && h.to.licensePlate.Some? && h.from.licensePlate == h.to.licensePlate
    && h.from.delaySeconds >= -90
  }

  lemma KeptIffJoined(q: Query, rows: seq<Row>, to: Row, checkPrevious: bool)
    requires Unique(rows) && to in Filtered(q, rows)
    ensures var lag := Lag(Filtered(q, rows), to);
            forall from :: Kept(q, to, lag, checkPrevious) && lag == Some(from) <==> Joined(q, rows, Hop(from, to))
  {
    var filtered := Filtered(q, rows);
    FilteredExact(q, rows);
    LagIsRightBefore(filtered, to);
    forall from
      ensures Kept(q, to, Lag(filtered, to), checkPrevious) && Lag(filtered, to) == Some(from)
              <==> Joined(q, rows, Hop(from, to))
    {
      if Lag(filtered, to) == Some(from) {
        assert RightBefore(filtered, from, to);
        assert PrevDetFilter(q, to, from);
      }
      if Joined(q, rows, Hop(from, to)) {
        assert RightBefore(filtered, from, to);
      }
    }
  }

  ghost predicate OnePerTarget(hops: seq<Hop>) {
    forall i, j | 0 <= i < j < |hops| :: hops[i].to != hops[j].to
  }

  lemma {:induction false} CandidatesExact(q: Query, rows: seq<Row>, some: seq<Row>, checkPrevious: bool)
    requires Unique(rows) && Unique(some) && forall r | r in some :: r in Filtered(q, rows)
    ensures forall h :: h in Candidates(q, Filtered(q, rows), some, checkPrevious)
              <==> h.to in some && Joined(q, rows, h)
    ensures OnePerTarget(Candidates(q, Filtered(q, rows), some, checkPrevious))
  {
    if some != [] {
      var front, to := some[..|some| - 1], some[|some| - 1];
      UniqueHasNoRepeats(some);
      FrontAndLast(some);
      assert forall i | 0 <= i < |front| :: front[i] == some[i];
      assert to !in front;
      CandidatesExact(q, rows, front, checkPrevious);
      KeptIffJoined(q, rows, to, checkPrevious);
      var lag := Lag(Filtered(q, rows), to);
      var before := Candidates(q, Filtered(q, rows), front, checkPrevious);
      if Kept(q, to, lag, checkPrevious) {
        OneMoreTarget(before, Hop(lag.value, to));
      }
    }
  }

  lemma OneMoreTarget(hops: seq<Hop>, h: Hop)
    requires OnePerTarget(hops) && forall x | x in hops :: x.to != h.to
    ensures OnePerTarget(hops + [h])
  {
    assert forall i | 0 <= i < |hops| :: hops[i] in hops;
  }

  /** The query's candidates are exactly the self-join, each pair once. */
  lemma CandidatesAreTheSelfJoin(q: Query, rows: seq<Row>)
    requires Unique(rows)
    ensures var all := Candidates(q, Filtered(q, rows), Filtered(q, rows), true);
            && (forall h :: h in all <==> Joined(q, rows, h))
            && NoRepeats(all)
  {
    FilteredExact(q, rows);
    CandidatesExact(q, rows, Filtered(q, rows), true);
  }

  /** The filter on the previous row's detection method removes nothing further. */
  lemma {:induction false} PreviousFilterIsRedundant(q: Query, rows: seq<Row>, some: seq<Row>)
    requires Unique(rows) && forall r | r in some :: r in Filtered(q, rows)
    ensures Candidates(q, Filtered(q, rows), some, true) == Candidates(q, Filtered(q, rows), some, false)
  {
    if some != [] {
      PreviousFilterIsRedundant(q, rows, some[..|some| - 1]);
      var to := some[|some| - 1];
      KeptIffJoined(q, rows, to, true);
      KeptIffJoined(q, rows, to, false);
    }
  }

  /** A correct answer to the query, however SQL breaks ties. */
  ghost predicate Answers(q: Query, rows: seq<Row>, out: seq<Hop>) {
    IsTopTen(out, Candidates(q, Filtered(q, rows), Filtered(q, rows), true), Descending)
  }

  ghost function SelfJoin(q: Query, rows: seq<Row>): iset<Hop> {
    iset h | Joined(q, rows, h)
  }

  /** Hops with the largest growth of the delay from stop to stop: in order, each once, no more than
      ten, and none is left out unless ten others grew by as much or more. */
  ghost predicate LargestGrowth(out: seq<Hop>, choice: iset<Hop>) {
    && |out| <= 10 && NoRepeats(out) && (forall h | h in out :: h in choice)
    && (forall i, j | 0 <= i < j < |out| ::
          out[i].to.delaySeconds - out[i].from.delaySeconds >= out[j].to.delaySeconds - out[j].from.delaySeconds)
    && (forall h, o | h in choice && h !in out && o in out ::
          o.to.delaySeconds - o.from.delaySeconds >= h.to.delaySeconds - h.from.delaySeconds)
    && (forall h | h in choice && h !in out :: |out| == 10)
  }

  lemma LargestIsTopTen(out: seq<Hop>, choice: iset<Hop>)
    ensures TopTenOf(out, choice, Descending) <==> LargestGrowth(out, choice)
  {
    if TopTenOf(out, choice, Descending) {
      assert forall i, j | 0 <= i < j < |out| :: Descending(out[i]) <= Descending(out[j]);
      assert forall h, o | h in choice && h !in out && o in out :: Descending(o) <= Descending(h);
    }
    if LargestGrowth(out, choice) {
      assert SortedBy(out, Descending);
    }
  }

  /** The answers to the query are exactly the pairs of the self-join whose delay grew most. */
  lemma MaxDelayIsTopTenOfSelfJoin(q: Query, rows: seq<Row>, out: seq<Hop>)
    requires Unique(rows)
    ensures Answers(q, rows, out) <==> LargestGrowth(out, SelfJoin(q, rows))
    ensures Answers(q, rows, MaxDelayBetweenStops(q, rows))
  {
    var all := Candidates(q, Filtered(q, rows), Filtered(q, rows), true);
    CandidatesAreTheSelfJoin(q, rows);
    TopTenIff(out, all, SelfJoin(q, rows), Descending);
    LargestIsTopTen(out, SelfJoin(q, rows));
    FirstTenOfSorted(all, Descending);
  }

  /** Estimated hops appear only when asked for, and only from the date on which estimates are
      valid. */
  lemma EstimatesOnRequest(q: Query, rows: seq<Row>, out: seq<Hop>, h: Hop)
    requires Unique(rows) && Answers(q, rows, out) && h in out
    ensures h.IsEstimated() <==> h.from.detectionMethod != 1 || h.to.detectionMethod != 1
    ensures h.IsEstimated() ==> q.includeEstimated && h.to.serviceDate >= 20531
  {
    MaxDelayIsTopTenOfSelfJoin(q, rows, out);
    assert Joined(q, rows, h);
  }
}
