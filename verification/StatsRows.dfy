/** The rows the statistics queries read, the filters they share, and SQL's ORDER BY, LIMIT and
    LAG on them. Columns that may be NULL are options; a comparison with NULL never holds. */
module StatsRows {
  import opened Domain

  datatype Row = Row(
    tripId: string,
    serviceDate: Date,
    stopSequence: int,
    stopName: string,
    headsign: Option<string>,
    delaySeconds: int,
    lineNumber: string,
    licensePlate: Option<string>,
    plannedTime: Instant,
    eventTime: Instant,
    detectionMethod: int,
    maxStopSequence: Option<int>,
    isEstimated: bool)

  const MIN_DELAY_SECONDS := -90
  const ESTIMATED_VALID_FROM: Date := 20531 // 2026-03-19
  const STOPPED_AT := 1

  datatype Query = Query(lineNumber: string, startDate: Date, endDate: Date, includeEstimated: bool)

  predicate DetFilter(q: Query, r: Row) {
    r.detectionMethod == STOPPED_AT || (q.includeEstimated && r.serviceDate >= ESTIMATED_VALID_FROM)
  }

  predicate OnLine(q: Query, r: Row) {
    r.lineNumber == q.lineNumber && q.startDate <= r.serviceDate <= q.endDate
  }

  /** The WHERE clause of the delay queries: a line, a period, neither the first nor the last stop
      of the trip, and an admitted detection method. */
  predicate Passes(q: Query, r: Row) {
    && OnLine(q, r)
    && 1 < r.stopSequence && r.maxStopSequence.Some? && r.stopSequence < r.maxStopSequence.value
    && DetFilter(q, r)
  }

  /** What the delay statistics measure: inner stops of the line's trips in the period, both days
      included, that were observed or, when asked for and from 2026-03-19 on, estimated. */
  predicate Measured(q: Query, r: Row) {
    && r.lineNumber == q.lineNumber
    && q.startDate <= r.serviceDate && r.serviceDate <= q.endDate
    && r.maxStopSequence.Some? && 2 <= r.stopSequence && r.stopSequence <= r.maxStopSequence.value - 1
    && (r.detectionMethod == 1 || (q.includeEstimated && r.serviceDate >= 20531))
  }

  lemma PassesIffMeasured(q: Query, r: Row)
    ensures Passes(q, r) <==> Measured(q, r)
  {}

  /** WHERE. */
  function Where<T>(xs: seq<T>, keep: T -> bool): seq<T> {
    if xs == [] then []
    else
      var last := xs[|xs| - 1];
      Where(xs[..|xs| - 1], keep) + if keep(last) then [last] else []
  }

  lemma {:induction false} WhereExact<T(!new)>(xs: seq<T>, keep: T -> bool)
    ensures forall x :: x in Where(xs, keep) <==> x in xs && keep(x)
  {
    if xs != [] {
      WhereExact(xs[..|xs| - 1], keep);
      FrontAndLast(xs);
    }
  }

  lemma {:induction false} WhereAlike<T>(xs: seq<T>, f: T -> bool, g: T -> bool)
    requires forall i | 0 <= i < |xs| :: f(xs[i]) == g(xs[i])
    ensures Where(xs, f) == Where(xs, g)
  {
    if xs != [] {
      WhereAlike(xs[..|xs| - 1], f, g);
    }
  }

  function Filtered(q: Query, rows: seq<Row>): seq<Row> {
    Where(rows, r => Passes(q, r))
  }

  predicate SamePartition(a: Row, b: Row) {
    a.tripId == b.tripId && a.serviceDate == b.serviceDate
  }

  /** The rows of the partition that r belongs to. */
  function PartitionOf(rows: seq<Row>, r: Row): seq<Row> {
    Where(rows, x => SamePartition(x, r))
  }

  /** The table's unique index: trip, date and stop sequence. */
  ghost predicate Unique(rows: seq<Row>) {
    forall i, j | 0 <= i < j < |rows| ::
      !(SamePartition(rows[i], rows[j]) && rows[i].stopSequence == rows[j].stopSequence)
  }

  lemma FilteredExact(q: Query, rows: seq<Row>)
    ensures forall r :: r in Filtered(q, rows) <==> r in rows && Passes(q, r)
    ensures Unique(rows) ==> Unique(Filtered(q, rows))
  {
    WhereExact(rows, r => Passes(q, r));
    if Unique(rows) {
      WhereUnique(rows, r => Passes(q, r));
    }
  }

  lemma {:induction false} WhereUnique(rows: seq<Row>, keep: Row -> bool)
    requires Unique(rows)
    ensures Unique(Where(rows, keep))
  {
    if rows != [] {
      var front, last := rows[..|rows| - 1], rows[|rows| - 1];
      assert forall i | 0 <= i < |front| :: front[i] == rows[i];
      WhereUnique(front, keep);
      WhereExact(front, keep);
      FrontAndLast(rows);
      UniqueGrows(front, last, Where(front, keep));
    }
  }

  lemma UniqueGrows(front: seq<Row>, last: Row, part: seq<Row>)
    requires Unique(front + [last]) && Unique(part)
    requires forall r | r in part :: r in front
    ensures Unique(part + [last])
  {
    forall i | 0 <= i < |part|
      ensures !(SamePartition(part[i], last) && part[i].stopSequence == last.stopSequence)
    {
      assert part[i] in front;
      var j :| 0 <= j < |front| && front[j] == part[i];
      assert (front + [last])[j] == part[i] && (front + [last])[|front|] == last;
    }
  }

  lemma PartitionExact(rows: seq<Row>, r: Row)
    ensures forall x :: x in PartitionOf(rows, r) <==> x in rows && SamePartition(x, r)
    ensures Unique(rows) ==> Unique(PartitionOf(rows, r))
  {
    WhereExact(rows, x => SamePartition(x, r));
    if Unique(rows) {
      WhereUnique(rows, x => SamePartition(x, r));
    }
  }

  // ----- ORDER BY and LIMIT -----

  ghost predicate SortedBy<T(!new)>(xs: seq<T>, key: T -> int) {
    forall i, j | 0 <= i < j < |xs| :: key(xs[i]) <= key(xs[j])
  }

  function Insert<T>(xs: seq<T>, x: T, key: T -> int): seq<T> {
    if xs == [] || key(xs[|xs| - 1]) <= key(x) then xs + [x]
    else Insert(xs[..|xs| - 1], x, key) + [xs[|xs| - 1]]
  }

  function SortBy<T>(xs: seq<T>, key: T -> int): seq<T> {
    if xs == [] then [] else Insert(SortBy(xs[..|xs| - 1], key), xs[|xs| - 1], key)
  }

  lemma {:induction false} InsertPermutes<T(!new)>(xs: seq<T>, x: T, key: T -> int)
    ensures multiset(Insert(xs, x, key)) == multiset(xs) + multiset{x}
  {
    if xs != [] && key(xs[|xs| - 1]) > key(x) {
      InsertPermutes(xs[..|xs| - 1], x, key);
      FrontAndLast(xs);
    }
  }

  lemma {:induction false} InsertSorts<T(!new)>(xs: seq<T>, x: T, key: T -> int)
    requires SortedBy(xs, key)
    ensures SortedBy(Insert(xs, x, key), key)
  {
    if xs != [] && key(xs[|xs| - 1]) > key(x) {
      var front, last := xs[..|xs| - 1], xs[|xs| - 1];
      InsertSorts(front, x, key);
      InsertIsBelow(front, x, key, last);
      SortedGrows(Insert(front, x, key), last, key);
    }
  }

  lemma {:induction false} InsertIsBelow<T(!new)>(xs: seq<T>, x: T, key: T -> int, top: T)
    requires key(x) <= key(top) && forall i | 0 <= i < |xs| :: key(xs[i]) <= key(top)
    ensures forall i | 0 <= i < |Insert(xs, x, key)| :: key(Insert(xs, x, key)[i]) <= key(top)
  {
    if xs != [] && key(xs[|xs| - 1]) > key(x) {
      InsertIsBelow(xs[..|xs| - 1], x, key, top);
    }
  }

  lemma SortedGrows<T(!new)>(xs: seq<T>, last: T, key: T -> int)
    requires SortedBy(xs, key) && forall i | 0 <= i < |xs| :: key(xs[i]) <= key(last)
    ensures SortedBy(xs + [last], key)
  {}

  lemma {:induction false} SortByPermutes<T(!new)>(xs: seq<T>, key: T -> int)
    ensures multiset(SortBy(xs, key)) == multiset(xs)
  {
    if xs != [] {
      var front, last := xs[..|xs| - 1], xs[|xs| - 1];
      SortByPermutes(front, key);
      InsertPermutes(SortBy(front, key), last, key);
      FrontAndLast(xs);
    }
  }

  lemma {:induction false} SortBySorts<T(!new)>(xs: seq<T>, key: T -> int)
    ensures SortedBy(SortBy(xs, key), key)
  {
    if xs != [] {
      SortBySorts(xs[..|xs| - 1], key);
      InsertSorts(SortBy(xs[..|xs| - 1], key), xs[|xs| - 1], key);
    }
  }

  const LIMIT := 10

  function FirstTen<T>(xs: seq<T>): seq<T> {
    if |xs| <= LIMIT then xs else xs[..LIMIT]
  }

  /** A correct answer to ORDER BY key LIMIT 10, however ties are broken: in order, as many as
      there are up to ten, and nothing left out that belongs before something given. */
  ghost predicate IsTopTen<T(!new)>(out: seq<T>, all: seq<T>, key: T -> int) {
    && SortedBy(out, key)
    && |out| == (if |all| < LIMIT then |all| else LIMIT)
    && exists rest: seq<T> ::
         && multiset(all) == multiset(out + rest)
         && forall a, b | a in out && b in rest :: key(a) <= key(b)
  }

  lemma TopTenBeforeRest<T(!new)>(out: seq<T>, rest: seq<T>, key: T -> int)
    requires SortedBy(out, key) && |out| <= LIMIT && (rest != [] ==> |out| == LIMIT)
    requires forall a, b | a in out && b in rest :: key(a) <= key(b)
    ensures IsTopTen(out, out + rest, key)
  {
    var all := out + rest;
    assert multiset(all) == multiset(out + rest);
  }

  lemma FirstTenOfSorted<T(!new)>(all: seq<T>, key: T -> int)
    ensures IsTopTen(FirstTen(SortBy(all, key)), all, key)
  {
    SortBySorts(all, key);
    SortByPermutes(all, key);
    var sorted := SortBy(all, key);
    assert |multiset(sorted)| == |multiset(all)|;
    var n := |FirstTen(sorted)|;
    SplitSorted(sorted, n, key);
    TopTenBeforeRest(sorted[..n], sorted[n..], key);
    assert FirstTen(sorted) == sorted[..n];
    TopTenOfPermuted(FirstTen(sorted), sorted, all, key);
  }

  lemma TopTenOfPermuted<T(!new)>(out: seq<T>, a: seq<T>, b: seq<T>, key: T -> int)
    requires IsTopTen(out, a, key) && multiset(a) == multiset(b) && |a| == |b|
    ensures IsTopTen(out, b, key)
  {}

  /** What a top ten leaves out comes after all it gives, and it leaves out nothing if it has room. */
  lemma TopTenMembers<T(!new)>(out: seq<T>, all: seq<T>, key: T -> int)
    requires IsTopTen(out, all, key)
    ensures forall a | a in out :: a in all
    ensures forall b | b in all && b !in out :: |out| == LIMIT && forall a | a in out :: key(a) <= key(b)
    ensures NoRepeats(all) ==> NoRepeats(out)
  {
    var rest: seq<T> :| multiset(all) == multiset(out + rest)
                        && forall a, b | a in out && b in rest :: key(a) <= key(b);
    assert |multiset(all)| == |multiset(out + rest)|;
    MembersOfParts(all, out, rest);
  }

  lemma MembersOfParts<T(!new)>(all: seq<T>, out: seq<T>, rest: seq<T>)
    requires multiset(all) == multiset(out + rest)
    ensures forall a :: a in all <==> a in out || a in rest
    ensures NoRepeats(all) ==> NoRepeats(out)
  {
    forall a
      ensures a in all <==> a in out || a in rest
    {
      assert a in all <==> a in multiset(out + rest);
    }
    if NoRepeats(all) {
      forall i, j | 0 <= i < j < |out|
        ensures out[i] != out[j]
      {
        if out[i] == out[j] {
          CountedTwice(out, i, j);
          assert multiset(out + rest)[out[i]] == multiset(out)[out[i]] + multiset(rest)[out[i]];
          CountedOnce(all, out[i]);
        }
      }
    }
  }

  ghost predicate NoRepeats<T(!new)>(xs: seq<T>) {
    forall i, j | 0 <= i < j < |xs| :: xs[i] != xs[j]
  }

  lemma CountedTwice<T>(xs: seq<T>, i: nat, j: nat)
    requires i < j < |xs| && xs[i] == xs[j]
    ensures multiset(xs)[xs[i]] >= 2
  {
    assert xs == xs[..j] + xs[j..];
    assert xs[i] in xs[..j] && xs[i] in xs[j..];
  }

  lemma {:induction false} CountedOnce<T(!new)>(xs: seq<T>, x: T)
    requires NoRepeats(xs)
    ensures multiset(xs)[x] == if x in xs then 1 else 0
  {
    if xs != [] {
      var front, last := xs[..|xs| - 1], xs[|xs| - 1];
      CountedOnce(front, x);
      FrontAndLast(xs);
      assert last !in front;
    }
  }

  /** The same in terms of what there is to choose from, when nothing occurs twice: in order, no
      more than ten, and nothing is left out unless ten others belong before it. */
  ghost predicate TopTenOf<T(!new)>(out: seq<T>, choice: iset<T>, key: T -> int) {
    && SortedBy(out, key) && NoRepeats(out) && |out| <= LIMIT
    && (forall a | a in out :: a in choice)
    && forall b | b in choice && b !in out :: |out| == LIMIT && forall a | a in out :: key(a) <= key(b)
  }

  lemma TopTenIff<T(!new)>(out: seq<T>, all: seq<T>, choice: iset<T>, key: T -> int)
    requires NoRepeats(all) && forall x :: x in all <==> x in choice
    ensures IsTopTen(out, all, key) <==> TopTenOf(out, choice, key)
  {
    if IsTopTen(out, all, key) {
      TopTenMembers(out, all, key);
    }
    if TopTenOf(out, choice, key) {
      var rest := Where(all, x => x !in out);
      WhereExact(all, x => x !in out);
      WhereNoRepeats(all, x => x !in out);
      SameMembers(all, out, rest);
      if rest != [] {
        assert rest[0] in rest;
      }
    }
  }

  lemma {:induction false} WhereNoRepeats<T(!new)>(xs: seq<T>, keep: T -> bool)
    requires NoRepeats(xs)
    ensures NoRepeats(Where(xs, keep))
  {
    if xs != [] {
      var front, last := xs[..|xs| - 1], xs[|xs| - 1];
      WhereNoRepeats(front, keep);
      WhereExact(front, keep);
      assert last !in front;
    }
  }

  /** A list without repetition and its two parts hold the same, counted too. */
  lemma SameMembers<T(!new)>(all: seq<T>, out: seq<T>, rest: seq<T>)
    requires NoRepeats(all) && NoRepeats(out) && NoRepeats(rest)
    requires forall x :: x in all <==> x in out || x in rest
    requires forall x | x in out :: x !in rest
    ensures multiset(all) == multiset(out + rest) && |all| == |out| + |rest|
  {
    forall x
      ensures multiset(all)[x] == multiset(out + rest)[x]
    {
      CountedOnce(all, x);
      CountedOnce(out, x);
      CountedOnce(rest, x);
    }
    assert multiset(all) == multiset(out + rest);
    assert |multiset(all)| == |multiset(out + rest)|;
  }

  lemma SplitSorted<T(!new)>(sorted: seq<T>, n: nat, key: T -> int)
    requires SortedBy(sorted, key) && n <= |sorted|
    ensures sorted == sorted[..n] + sorted[n..] && SortedBy(sorted[..n], key)
    ensures forall a, b | a in sorted[..n] && b in sorted[n..] :: key(a) <= key(b)
  {
    forall a, b | a in sorted[..n] && b in sorted[n..]
      ensures key(a) <= key(b)
    {
      var i :| 0 <= i < n && sorted[i] == a;
      var j :| n <= j < |sorted| && sorted[j] == b;
    }
  }

  // ----- LAG -----

  function Sequence(r: Row): int {
    r.stopSequence
  }

  /** A partition in the order of its stop sequences. */
  function Ordered(rows: seq<Row>, r: Row): seq<Row> {
    SortBy(PartitionOf(rows, r), Sequence)
  }

  /** The element before r in a list. */
  function Before(xs: seq<Row>, r: Row): Option<Row> {
    if |xs| < 2 then None
    else if xs[|xs| - 1] == r then Some(xs[|xs| - 2])
    else Before(xs[..|xs| - 1], r)
  }

  /** LAG over (trip, date) in stop order. */
  function Lag(rows: seq<Row>, r: Row): Option<Row> {
    Before(Ordered(rows, r), r)
  }

  ghost predicate StrictlyOrdered(xs: seq<Row>) {
    forall i, j | 0 <= i < j < |xs| :: xs[i].stopSequence < xs[j].stopSequence
  }

  /** In a unique table a partition's order is strict, so ties cannot blur it. */
  lemma OrderedIsStrict(rows: seq<Row>, r: Row)
    requires Unique(rows)
    ensures StrictlyOrdered(Ordered(rows, r))
    ensures forall x :: x in Ordered(rows, r) <==> x in rows && SamePartition(x, r)
    ensures |Ordered(rows, r)| == |PartitionOf(rows, r)|
  {
    var part, ordered := PartitionOf(rows, r), Ordered(rows, r);
    PartitionExact(rows, r);
    SortBySorts(part, Sequence);
    SortByPermutes(part, Sequence);
    assert |multiset(ordered)| == |multiset(part)|;
    forall x
      ensures x in ordered <==> x in part
    {
      assert x in multiset(ordered) <==> x in multiset(part);
    }
    forall i, j | 0 <= i < j < |ordered|
      ensures ordered[i].stopSequence < ordered[j].stopSequence
    {
      assert Sequence(ordered[i]) <= Sequence(ordered[j]);
      if ordered[i].stopSequence == ordered[j].stopSequence {
        TwoCopies(part, ordered, i, j);
      }
    }
  }

  lemma TwoCopies(part: seq<Row>, ordered: seq<Row>, i: nat, j: nat)
    requires Unique(part) && multiset(part) == multiset(ordered) && i < j < |ordered|
    requires forall x, y | x in part && y in part :: SamePartition(x, y)
    ensures ordered[i].stopSequence != ordered[j].stopSequence
  {
    var a, b := ordered[i], ordered[j];
    assert a in multiset(part) && b in multiset(part);
    var m :| 0 <= m < |part| && part[m] == a;
    var n :| 0 <= n < |part| && part[n] == b;
    if a == b {
      CountedTwice(ordered, i, j);
      UniqueHasNoRepeats(part);
      CountedOnce(part, a);
    }
  }

  lemma UniqueHasNoRepeats(rows: seq<Row>)
    requires Unique(rows)
    ensures NoRepeats(rows)
  {
    forall i, j | 0 <= i < j < |rows|
      ensures rows[i] != rows[j]
    {
      assert !(SamePartition(rows[i], rows[j]) && rows[i].stopSequence == rows[j].stopSequence);
    }
  }

  /** p comes right before r: the nearest row of r's trip and date at an earlier stop. */
  ghost predicate RightBefore(rows: seq<Row>, p: Row, r: Row) {
    && p in rows && SamePartition(p, r) && p.stopSequence < r.stopSequence
    && forall x | x in rows && SamePartition(x, r) && x.stopSequence < r.stopSequence ::
         x.stopSequence <= p.stopSequence
  }

  lemma {:induction false} BeforeAt(xs: seq<Row>, i: nat)
    requires StrictlyOrdered(xs) && i < |xs|
    ensures Before(xs, xs[i]) == if i == 0 then None else Some(xs[i - 1])
  {
    if i < |xs| - 1 {
      BeforeAt(xs[..|xs| - 1], i);
    }
  }

  /** In a unique table LAG yields exactly the row right before, if there is one. */
  lemma LagIsRightBefore(rows: seq<Row>, r: Row)
    requires Unique(rows) && r in rows
    ensures forall p :: Lag(rows, r) == Some(p) <==> RightBefore(rows, p, r)
  {
    var ordered := Ordered(rows, r);
    OrderedIsStrict(rows, r);
    var i :| 0 <= i < |ordered| && ordered[i] == r;
    BeforeAt(ordered, i);
    forall p
      ensures Lag(rows, r) == Some(p) <==> RightBefore(rows, p, r)
    {
      NearestIs(rows, ordered, r, i, p);
    }
  }

  lemma NearestIs(rows: seq<Row>, ordered: seq<Row>, r: Row, i: nat, p: Row)
    requires StrictlyOrdered(ordered) && i < |ordered| && ordered[i] == r
    requires forall x :: x in ordered <==> x in rows && SamePartition(x, r)
    ensures RightBefore(rows, p, r) <==> i > 0 && p == ordered[i - 1]
  {
    if i > 0 {
      assert ordered[i - 1] in ordered;
      forall x | x in ordered && x.stopSequence < r.stopSequence
        ensures x.stopSequence <= ordered[i - 1].stopSequence
      {
        var j :| 0 <= j < |ordered| && ordered[j] == x;
        assert j < i;
      }
    }
    if RightBefore(rows, p, r) {
      assert p in ordered;
      var j :| 0 <= j < |ordered| && ordered[j] == p;
      assert j < i;
    }
  }
}
