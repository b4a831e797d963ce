/** The counting queries: punctuality classes and their percentages, and trips per day. */
module Punctuality {
  import opened Domain
  import opened StatsRows

  /** The WHERE clause of the counting queries. */
  predicate Counts(q: Query, r: Row) {
    Passes(q, r) && r.delaySeconds >= MIN_DELAY_SECONDS
  }

  // ----- punctuality -----

  datatype Class = Any | OnTime | SlightlyDelayed | Delayed

  predicate InClass(c: Class, delay: int) {
    match c
    case Any => true
    case OnTime => delay <= 120
    case SlightlyDelayed => delay > 120 && delay <= 360
    case Delayed => delay > 360
  }

  /** The rows that COUNT(*) FILTER (WHERE ..) counts for a class. */
  function OfClass(q: Query, c: Class, rows: seq<Row>): seq<Row> {
    Where(rows, r => Counts(q, r) && InClass(c, r.delaySeconds))
  }

  function Count(q: Query, c: Class, rows: seq<Row>): nat {
    |OfClass(q, c, rows)|
  }

  datatype PunctualityCounts = PunctualityCounts(total: nat, onTime: nat, slightlyDelayed: nat, delayed: nat)

  function Punctuality(q: Query, rows: seq<Row>): PunctualityCounts {
    PunctualityCounts(Count(q, Any, rows), Count(q, OnTime, rows), Count(q, SlightlyDelayed, rows),
                      Count(q, Delayed, rows))
  }

  /** The three classes partition the stops counted. */
  lemma {:induction false} ClassesPartitionTheTotal(q: Query, rows: seq<Row>)
    ensures var c := Punctuality(q, rows); c.onTime + c.slightlyDelayed + c.delayed == c.total
  {
    if rows != [] {
      ClassesPartitionTheTotal(q, rows[..|rows| - 1]);
    }
  }

  /** The rows of a class. */
  function Members(q: Query, c: Class, rows: seq<Row>): set<Row> {
    set r | r in rows && Counts(q, r) && InClass(c, r.delaySeconds)
  }

  /** In a unique table each count is the number of its class's rows. */
  lemma CountIsCardinality(q: Query, c: Class, rows: seq<Row>)
    requires Unique(rows)
    ensures Count(q, c, rows) == |Members(q, c, rows)|
  {
    var keep: Row -> bool := r => Counts(q, r) && InClass(c, r.delaySeconds);
    WhereExact(rows, keep);
    WhereUnique(rows, keep);
    UniqueHasNoRepeats(OfClass(q, c, rows));
    assert Members(q, c, rows) == set r | r in OfClass(q, c, rows);
    SizeWithoutRepeats(OfClass(q, c, rows));
  }

  /** The stops measured, but for those more than 90 s early. */
  ghost function Stops(q: Query, rows: seq<Row>): set<Row> {
    set r | r in rows && Measured(q, r) && r.delaySeconds >= -90
  }

  /** In a unique table the counts are those of all stops, of the stops up to two minutes late, of
      the later ones up to six minutes, and of the rest. */
  lemma CountsAreSizes(q: Query, rows: seq<Row>)
    requires Unique(rows)
    ensures var c := Punctuality(q, rows);
            && c.total == |Stops(q, rows)|
            && c.onTime == |set r | r in Stops(q, rows) && r.delaySeconds <= 120|
            && c.slightlyDelayed == |set r | r in Stops(q, rows) && 120 < r.delaySeconds <= 360|
            && c.delayed == |set r | r in Stops(q, rows) && 360 < r.delaySeconds|
  {
    CountIsCardinality(q, Any, rows);
    CountIsCardinality(q, OnTime, rows);
    CountIsCardinality(q, SlightlyDelayed, rows);
    CountIsCardinality(q, Delayed, rows);
    assert Members(q, Any, rows) == Stops(q, rows);
    assert Members(q, OnTime, rows) == set r | r in Stops(q, rows) && r.delaySeconds <= 120;
    assert Members(q, SlightlyDelayed, rows) == set r | r in Stops(q, rows) && 120 < r.delaySeconds <= 360;
    assert Members(q, Delayed, rows) == set r | r in Stops(q, rows) && 360 < r.delaySeconds;
  }

  lemma {:induction false} SizeWithoutRepeats<T(!new)>(xs: seq<T>)
    requires NoRepeats(xs)
    ensures |set x | x in xs| == |xs|
  {
    if xs != [] {
      var front, last := xs[..|xs| - 1], xs[|xs| - 1];
      SizeWithoutRepeats(front);
      FrontAndLast(xs);
      assert last !in front;
      assert (set x | x in xs) == (set x | x in front) + {last};
    }
  }

  /** Half of what separates neighbouring doubles, relative to their size. */
  const ULP_SHARE: real := 1.0 / 9007199254740992.0

  /** x is what double arithmetic may make of an exact result. */
  predicate Rounded(x: real, exact: real)
    requires exact >= 0.0
  {
    exact - exact * ULP_SHARE <= x <= exact + exact * ULP_SHARE
  }

  /** The computation of a percentage in doubles: the quotient, a hundred times the quotient, and
      the nearest tenths to that. */
  datatype Percentage = Percentage(quotient: real, percent: real, tenths: int) {
    /** A possible outcome for n of a total, zero when nothing was counted. */
    predicate Of(n: nat, total: nat) {
      if total == 0 then tenths == 0
      else
        && Rounded(quotient, n as real / total as real)
        && quotient >= 0.0 && Rounded(percent, quotient * 100.0)
        && -0.5 <= 10.0 * percent - tenths as real <= 0.5
    }
  }

  /** Exact arithmetic with the nearest tenths is one way to compute it. */
  lemma ExactPercentage(n: nat, total: nat) returns (p: Percentage)
    requires 0 < total
    ensures p.Of(n, total) && p.percent == n as real / total as real * 100.0
  {
    var share := n as real / total as real;
    p := Percentage(share, share * 100.0, (1000.0 * share + 0.5).Floor);
    assert share >= 0.0;
    ExactIsRounded(share);
    ExactIsRounded(share * 100.0);
  }

  lemma ExactIsRounded(x: real)
    requires x >= 0.0
    ensures Rounded(x, x)
  {}

  /** However the doubles round, the reported tenths are less than two thirds away from the exact
      ones. */
  lemma TenthsAreClose(p: Percentage, n: nat, total: nat)
    requires n <= total && 0 < total && p.Of(n, total)
    ensures -2 * total < 3 * (p.tenths * total - 1000 * n) < 2 * total
  {
    var share := n as real / total as real;
    assert share * total as real == n as real;
    ShareAtMostOne(n, total);
    DoublesAreClose(share, p.quotient, p.percent);
    Unscaled(p.tenths, share, n, total);
  }

  lemma ShareAtMostOne(n: nat, total: nat)
    requires n <= total && 0 < total
    ensures 0.0 <= n as real / total as real <= 1.0
  {}

  lemma DoublesAreClose(share: real, quotient: real, percent: real)
    requires 0.0 <= share <= 1.0 && Rounded(quotient, share) && quotient >= 0.0 && Rounded(percent, quotient * 100.0)
    ensures -0.1 < 10.0 * percent - 1000.0 * share < 0.1
  {
    assert 0.0 <= share * ULP_SHARE <= ULP_SHARE;
    assert quotient <= 2.0;
    assert 0.0 <= quotient * 100.0 * ULP_SHARE <= 200.0 * ULP_SHARE;
  }

  lemma Unscaled(tenths: int, share: real, n: nat, total: nat)
    requires total > 0 && share * total as real == n as real
    requires -0.6 < tenths as real - 1000.0 * share < 0.6
    ensures -2 * total < 3 * (tenths * total - 1000 * n) < 2 * total
  {
    Products(tenths, total);
    Differences(tenths * total, n);
    Expanded(tenths as real, share, total as real, n as real);
    ScaledWithin(tenths as real - 1000.0 * share, total as real, (tenths * total - 1000 * n) as real);
    WithinInts(tenths * total - 1000 * n, total);
  }

  lemma Products(a: int, b: nat)
    ensures (a * b) as real == a as real * b as real
  {}

  lemma Differences(a: int, n: nat)
    ensures (a - 1000 * n) as real == a as real - 1000.0 * n as real
  {}

  lemma Expanded(a: real, share: real, t: real, part: real)
    requires share * t == part
    ensures (a - 1000.0 * share) * t == a * t - 1000.0 * part
  {}

  lemma WithinInts(k: int, total: nat)
    requires total > 0 && -0.6 * total as real < k as real < 0.6 * total as real
    ensures -2 * total < 3 * k < 2 * total
  {}

  lemma ScaledWithin(off: real, t: real, product: real)
    requires t > 0.0 && -0.6 < off < 0.6 && off * t == product
    ensures -0.6 * t < product < 0.6 * t
  {}

  /** The three reported percentages add up to 100 within one tenth, however the doubles behind
      them round; without any stops they are all zero. */
  lemma PercentagesAddUp(q: Query, rows: seq<Row>, onTime: Percentage, slightly: Percentage, delayed: Percentage)
    requires var c := Punctuality(q, rows);
             onTime.Of(c.onTime, c.total) && slightly.Of(c.slightlyDelayed, c.total) && delayed.Of(c.delayed, c.total)
    ensures var sum := onTime.tenths + slightly.tenths + delayed.tenths;
            if Punctuality(q, rows).total == 0 then sum == 0 else 999 <= sum <= 1001
  {
    var c := Punctuality(q, rows);
    ClassesPartitionTheTotal(q, rows);
    if c.total > 0 {
      TenthsAreClose(onTime, c.onTime, c.total);
      TenthsAreClose(slightly, c.slightlyDelayed, c.total);
      TenthsAreClose(delayed, c.delayed, c.total);
      ThreeRoundings(onTime.tenths, slightly.tenths, delayed.tenths, c.onTime, c.slightlyDelayed, c.delayed, c.total);
    }
  }

  lemma ThreeRoundings(x: int, y: int, z: int, a: nat, b: nat, c: nat, total: nat)
    requires total > 0 && a + b + c == total
    requires -2 * total < 3 * (x * total - 1000 * a) < 2 * total
    requires -2 * total < 3 * (y * total - 1000 * b) < 2 * total
    requires -2 * total < 3 * (z * total - 1000 * c) < 2 * total
    ensures 999 <= x + y + z <= 1001
  {
    var sum := x + y + z;
    Distributes(x, y, z, total);
    assert -2 * total < sum * total - 1000 * total < 2 * total;
    if sum > 1001 {
      ProductBound(1002, sum, total);
      assert false;
    } else if sum < 999 {
      ProductBound(sum, 998, total);
      assert false;
    }
  }

  lemma Distributes(x: int, y: int, z: int, total: int)
    ensures (x + y + z) * total == x * total + y * total + z * total
  {}

  lemma ProductBound(x: int, y: int, total: nat)
    requires x <= y
    ensures x * total <= y * total
  {}

  /** No share is reported as zero, and the whole as all. */
  lemma NoneAndAll(p: Percentage, n: nat, total: nat)
    requires 0 < total && p.Of(n, total)
    ensures n == 0 ==> p.tenths == 0
    ensures n == total ==> p.tenths == 1000
  {
    if n == 0 || n == total {
      TenthsAreClose(p, n, total);
      var k := if n == 0 then 0 else 1000;
      assert -2 * total < 3 * (p.tenths * total - k * total) < 2 * total;
      if p.tenths > k {
        ProductBound(k + 1, p.tenths, total);
        assert false;
      } else if p.tenths < k {
        ProductBound(p.tenths, k - 1, total);
        assert false;
      }
    }
  }

  // ----- trips per day -----

  /** The distinct trips and dates of some rows. */
  function TripDays(rows: seq<Row>): set<(string, Date)> {
    set r | r in rows :: (r.tripId, r.serviceDate)
  }

  function WhereOnLine(q: Query, rows: seq<Row>): seq<Row> {
    Where(rows, r => OnLine(q, r))
  }

  function WhereCounted(q: Query, rows: seq<Row>): seq<Row> {
    Where(rows, r => Counts(q, r))
  }

  /** The trips of a line in a period, whatever was detected of them. */
  function TripsCount(q: Query, rows: seq<Row>): nat {
    |TripDays(WhereOnLine(q, rows))|
  }

  /** A day's average delay in tenths of a second and how many trips it had. */
  datatype TrendDay = TrendDay(date: Date, avgTenths: int, tripsCount: nat)

  function TripsOn(rows: seq<Row>, date: Date): set<string> {
    set r | r in rows && r.serviceDate == date :: r.tripId
  }

  function OnDate(rows: seq<Row>, date: Date): seq<Row> {
    Where(rows, (r: Row) => r.serviceDate == date)
  }

  function SumOfDelays(rows: seq<Row>): int {
    if rows == [] then 0 else SumOfDelays(rows[..|rows| - 1]) + rows[|rows| - 1].delaySeconds
  }

  /** round(avg(delay), 1), counted in tenths: to the nearest, and away from zero of two that are
      equally near. */
  function AverageTenths(rows: seq<Row>): int {
    var n, sum := |rows|, SumOfDelays(rows);
    if n == 0 then 0
    else if sum >= 0 then (20 * sum + n) / (2 * n)
    else -((n - 20 * sum) / (2 * n))
  }

  /** GROUP BY date. */
  function Dates(rows: seq<Row>): seq<Date> {
    if rows == [] then []
    else
      var dates, date := Dates(rows[..|rows| - 1]), rows[|rows| - 1].serviceDate;
      if date in dates then dates else dates + [date]
  }

  function DateKey(d: Date): int {
    d
  }

  function DaysOf(rows: seq<Row>, dates: seq<Date>): seq<TrendDay> {
    if dates == [] then []
    else
      var date := dates[|dates| - 1];
      DaysOf(rows, dates[..|dates| - 1]) + [TrendDay(date, AverageTenths(OnDate(rows, date)), |TripsOn(rows, date)|)]
  }

  function Trend(q: Query, rows: seq<Row>): seq<TrendDay> {
    var counted := WhereCounted(q, rows);
    DaysOf(counted, SortBy(Dates(counted), DateKey))
  }

  function SumOfTrips(days: seq<TrendDay>): nat {
    if days == [] then 0 else SumOfTrips(days[..|days| - 1]) + days[|days| - 1].tripsCount
  }

  /** The trips analysed are all trips of the line in the period, whatever was detected of them. */
  lemma TripsCountIs(q: Query, rows: seq<Row>)
    ensures TripsCount(q, rows) ==
              |set r | r in rows && r.lineNumber == q.lineNumber && q.startDate <= r.serviceDate <= q.endDate ::
                 (r.tripId, r.serviceDate)|
  {
    WhereExact(rows, r => OnLine(q, r));
    assert TripDays(WhereOnLine(q, rows)) ==
      set r | r in rows && r.lineNumber == q.lineNumber && q.startDate <= r.serviceDate <= q.endDate ::
        (r.tripId, r.serviceDate);
  }

  ghost predicate HasDay(days: seq<TrendDay>, date: Date) {
    exists day | day in days :: day.date == date
  }

  lemma CountedAreStops(q: Query, rows: seq<Row>)
    ensures forall r :: r in WhereCounted(q, rows) <==> r in Stops(q, rows)
  {
    WhereExact(rows, r => Counts(q, r));
  }

  /** A day is in the trend if and only if it has stops to count. */
  lemma TrendDatesAre(q: Query, rows: seq<Row>, date: Date)
    ensures HasDay(Trend(q, rows), date) <==> exists r | r in Stops(q, rows) :: r.serviceDate == date
  {
    var counted := WhereCounted(q, rows);
    var dates := SortBy(Dates(counted), DateKey);
    CountedAreStops(q, rows);
    SortByPermutes(Dates(counted), DateKey);
    DatesExact(counted);
    SameElements(Dates(counted), dates);
    DayForDay(counted, dates, date);
  }

  /** Each day of the trend has the number of trips that its stops are of, and their average delay
      to the nearest tenth, the one further from zero of two that are equally near. */
  lemma TrendDayIs(q: Query, rows: seq<Row>, day: TrendDay)
    requires day in Trend(q, rows)
    ensures day.tripsCount == |set r | r in Stops(q, rows) && r.serviceDate == day.date :: r.tripId|
    ensures var stops := OnDate(WhereCounted(q, rows), day.date);
            var n, sum := |stops|, SumOfDelays(stops);
            && (forall r :: r in stops <==> r in Stops(q, rows) && r.serviceDate == day.date)
            && n > 0
            && (if sum >= 0 then -n < 2 * (day.avgTenths * n - 10 * sum) <= n
                else -n <= 2 * (day.avgTenths * n - 10 * sum) < n)
  {
    var counted := WhereCounted(q, rows);
    var stops := OnDate(counted, day.date);
    CountedAreStops(q, rows);
    DaysAre(counted, SortBy(Dates(counted), DateKey), day);
    WhereExact(counted, (r: Row) => r.serviceDate == day.date);
    assert TripsOn(counted, day.date) == set r | r in Stops(q, rows) && r.serviceDate == day.date :: r.tripId;
    AverageIsNearest(stops);
    TrendDatesAre(q, rows, day.date);
    var r :| r in Stops(q, rows) && r.serviceDate == day.date;
    assert r in stops;
  }

  lemma {:induction false} DaysAre(rows: seq<Row>, dates: seq<Date>, day: TrendDay)
    requires day in DaysOf(rows, dates)
    ensures day.tripsCount == |TripsOn(rows, day.date)| && day.avgTenths == AverageTenths(OnDate(rows, day.date))
  {
    var front := dates[..|dates| - 1];
    if day in DaysOf(rows, front) {
      DaysAre(rows, front, day);
    }
  }

  lemma {:induction false} DayForDay(rows: seq<Row>, dates: seq<Date>, date: Date)
    ensures HasDay(DaysOf(rows, dates), date) <==> date in dates
  {
    if dates != [] {
      var front, last := dates[..|dates| - 1], dates[|dates| - 1];
      DayForDay(rows, front, date);
      FrontAndLast(dates);
      var before, day := DaysOf(rows, front), TrendDay(last, AverageTenths(OnDate(rows, last)), |TripsOn(rows, last)|);
      assert DaysOf(rows, dates) == before + [day];
      OneMoreDayThere(before, day, date);
    }
  }

  lemma OneMoreDayThere(days: seq<TrendDay>, day: TrendDay, date: Date)
    ensures HasDay(days + [day], date) <==> HasDay(days, date) || day.date == date
  {
    if day.date == date {
      assert day in days + [day];
    }
    if HasDay(days, date) {
      var x :| x in days && x.date == date;
      assert x in days + [day];
    }
  }

  /** Each day of the trend is there once and in order, and their trip counts add up to the number
      of distinct trips and dates counted, which is at most the trips of the line. */
  lemma TrendConservesTrips(q: Query, rows: seq<Row>)
    ensures SumOfTrips(Trend(q, rows)) == |set r | r in Stops(q, rows) :: (r.tripId, r.serviceDate)|
    ensures SumOfTrips(Trend(q, rows)) <= TripsCount(q, rows)
    ensures forall i, j | 0 <= i < j < |Trend(q, rows)| :: Trend(q, rows)[i].date < Trend(q, rows)[j].date
  {
    var counted := WhereCounted(q, rows);
    var dates := SortedDates(counted);
    DaysConserve(counted, dates);
    DaysFollowDates(counted, dates);
    AllDatesThere(counted, dates);
    CountedTripDays(q, rows);
    CountedAreOnLine(q, rows);
    SubsetIsSmaller(TripDays(counted), TripDays(WhereOnLine(q, rows)));
  }

  lemma SortedDates(rows: seq<Row>) returns (dates: seq<Date>)
    ensures dates == SortBy(Dates(rows), DateKey)
    ensures forall i, j | 0 <= i < j < |dates| :: dates[i] < dates[j]
    ensures NoRepeats(dates) && forall d :: d in dates <==> exists r :: r in rows && r.serviceDate == d
  {
    dates := SortBy(Dates(rows), DateKey);
    SortBySorts(Dates(rows), DateKey);
    SortByPermutes(Dates(rows), DateKey);
    DatesExact(rows);
    SameElements(Dates(rows), dates);
    assert forall i, j | 0 <= i < j < |dates| :: DateKey(dates[i]) <= DateKey(dates[j]);
  }

  lemma AllDatesThere(rows: seq<Row>, dates: seq<Date>)
    requires forall r | r in rows :: r.serviceDate in dates
    ensures TripDays(rows) == set r | r in rows && r.serviceDate in dates :: (r.tripId, r.serviceDate)
  {}

  lemma CountedTripDays(q: Query, rows: seq<Row>)
    ensures TripDays(WhereCounted(q, rows)) == set r | r in Stops(q, rows) :: (r.tripId, r.serviceDate)
  {
    CountedAreStops(q, rows);
  }

  lemma {:induction false} DatesExact(rows: seq<Row>)
    ensures NoRepeats(Dates(rows))
    ensures forall d :: d in Dates(rows) <==> exists r :: r in rows && r.serviceDate == d
  {
    if rows != [] {
      var front, last := rows[..|rows| - 1], rows[|rows| - 1];
      DatesExact(front);
      FrontAndLast(rows);
    }
  }

  /** Sorting neither adds nor repeats dates. */
  lemma SameElements(a: seq<Date>, b: seq<Date>)
    requires multiset(a) == multiset(b) && NoRepeats(a)
    ensures NoRepeats(b) && forall d :: d in a <==> d in b
  {
    forall d
      ensures d in a <==> d in b
    {
      assert d in multiset(a) <==> d in multiset(b);
    }
    forall i, j | 0 <= i < j < |b|
      ensures b[i] != b[j]
    {
      if b[i] == b[j] {
        CountedTwice(b, i, j);
        CountedOnce(a, b[i]);
      }
    }
  }

  lemma {:induction false} DaysFollowDates(rows: seq<Row>, dates: seq<Date>)
    ensures |DaysOf(rows, dates)| == |dates| && forall i | 0 <= i < |dates| :: DaysOf(rows, dates)[i].date == dates[i]
  {
    if dates != [] {
      DaysFollowDates(rows, dates[..|dates| - 1]);
    }
  }

  lemma {:induction false} DaysConserve(rows: seq<Row>, dates: seq<Date>)
    requires NoRepeats(dates)
    ensures SumOfTrips(DaysOf(rows, dates)) ==
              |set r | r in rows && r.serviceDate in dates :: (r.tripId, r.serviceDate)|
  {
    if dates != [] {
      var front, date := dates[..|dates| - 1], dates[|dates| - 1];
      DaysConserve(rows, front);
      assert DaysOf(rows, dates)[..|dates| - 1] == DaysOf(rows, front) by {
        DaysFollowDates(rows, front);
      }
      OneMoreDay(rows, front, date);
      FrontAndLast(dates);
    } else {
      assert (set r | r in rows && r.serviceDate in dates :: (r.tripId, r.serviceDate)) == {};
    }
  }

  lemma OneMoreDay(rows: seq<Row>, front: seq<Date>, date: Date)
    requires date !in front
    ensures |set r | r in rows && r.serviceDate in front + [date] :: (r.tripId, r.serviceDate)|
            == |set r | r in rows && r.serviceDate in front :: (r.tripId, r.serviceDate)| + |TripsOn(rows, date)|
  {
    var before := set r | r in rows && r.serviceDate in front :: (r.tripId, r.serviceDate);
    var today := set t | t in TripsOn(rows, date) :: (t, date);
    assert (set r | r in rows && r.serviceDate in front + [date] :: (r.tripId, r.serviceDate)) == before + today;
    assert before !! today;
    TaggedSize(TripsOn(rows, date), date);
  }

  // ----- average delay per day -----

  /** How many rows the days of a trend average over, and their averages weighted by that. */
  function StopsOf(rows: seq<Row>, days: seq<TrendDay>): nat {
    if days == [] then 0
    else StopsOf(rows, days[..|days| - 1]) + |OnDate(rows, days[|days| - 1].date)|
  }

  function WeightedTenths(rows: seq<Row>, days: seq<TrendDay>): int {
    if days == [] then 0
    else
      var day := days[|days| - 1];
      WeightedTenths(rows, days[..|days| - 1]) + day.avgTenths * |OnDate(rows, day.date)|
  }

  /** The days average over exactly the stops that punctuality counts, and their averages, weighted
      by their stops, give all the delay back up to half a tenth of a second for each stop. */
  lemma TrendConservesDelay(q: Query, rows: seq<Row>)
    ensures var counted := WhereCounted(q, rows);
            && StopsOf(counted, Trend(q, rows)) == |counted| == Punctuality(q, rows).total
            && -|counted| <= 2 * (WeightedTenths(counted, Trend(q, rows)) - 10 * SumOfDelays(counted)) <= |counted|
  {
    var counted := WhereCounted(q, rows);
    var dates := SortBy(Dates(counted), DateKey);
    SortByPermutes(Dates(counted), DateKey);
    DatesExact(counted);
    SameElements(Dates(counted), dates);
    DaysConserveDelay(counted, dates);
    WhereAll(counted, (r: Row) => r.serviceDate in dates);
    WhereAlike(rows, r => Counts(q, r), r => Counts(q, r) && InClass(Any, r.delaySeconds));
  }

  lemma {:induction false} WhereAll<T>(xs: seq<T>, keep: T -> bool)
    requires forall i | 0 <= i < |xs| :: keep(xs[i])
    ensures Where(xs, keep) == xs
  {
    if xs != [] {
      WhereAll(xs[..|xs| - 1], keep);
      FrontAndLast(xs);
    }
  }

  function Within(rows: seq<Row>, dates: seq<Date>): seq<Row> {
    Where(rows, (r: Row) => r.serviceDate in dates)
  }

  lemma {:induction false} DaysConserveDelay(rows: seq<Row>, dates: seq<Date>)
    requires NoRepeats(dates)
    ensures var days, part := DaysOf(rows, dates), Within(rows, dates);
            && StopsOf(rows, days) == |part|
            && -|part| <= 2 * (WeightedTenths(rows, days) - 10 * SumOfDelays(part)) <= |part|
  {
    if dates == [] {
      WhereNone(rows, (r: Row) => r.serviceDate in dates);
    } else {
      var front, date := dates[..|dates| - 1], dates[|dates| - 1];
      DaysConserveDelay(rows, front);
      assert date !in front && dates == front + [date];
      SplitWhere(rows, (r: Row) => r.serviceDate in front, (r: Row) => r.serviceDate == date,
                 (r: Row) => r.serviceDate in dates);
      AverageIsNearest(OnDate(rows, date));
      DaysOneMore(rows, dates);
    }
  }

  lemma DaysOneMore(rows: seq<Row>, dates: seq<Date>)
    requires dates != []
    ensures var days, before, date := DaysOf(rows, dates), DaysOf(rows, dates[..|dates| - 1]), dates[|dates| - 1];
            && StopsOf(rows, days) == StopsOf(rows, before) + |OnDate(rows, date)|
            && WeightedTenths(rows, days)
               == WeightedTenths(rows, before) + AverageTenths(OnDate(rows, date)) * |OnDate(rows, date)|
  {
    var days := DaysOf(rows, dates);
    assert days[..|days| - 1] == DaysOf(rows, dates[..|dates| - 1]);
  }

  lemma {:induction false} WhereNone<T>(xs: seq<T>, keep: T -> bool)
    requires forall i | 0 <= i < |xs| :: !keep(xs[i])
    ensures Where(xs, keep) == []
  {
    if xs != [] {
      WhereNone(xs[..|xs| - 1], keep);
    }
  }

  lemma {:induction false} SplitWhere(rows: seq<Row>, f: Row -> bool, g: Row -> bool, either: Row -> bool)
    requires forall i | 0 <= i < |rows| :: either(rows[i]) == (f(rows[i]) || g(rows[i])) && !(f(rows[i]) && g(rows[i]))
    ensures |Where(rows, either)| == |Where(rows, f)| + |Where(rows, g)|
    ensures SumOfDelays(Where(rows, either)) == SumOfDelays(Where(rows, f)) + SumOfDelays(Where(rows, g))
  {
    if rows != [] {
      var front, last := rows[..|rows| - 1], rows[|rows| - 1];
      SplitWhere(front, f, g, either);
      SumGrows(Where(front, f), last);
      SumGrows(Where(front, g), last);
      SumGrows(Where(front, either), last);
    }
  }

  lemma SumGrows(rows: seq<Row>, last: Row)
    ensures SumOfDelays(rows + [last]) == SumOfDelays(rows) + last.delaySeconds
    ensures rows + [] == rows
  {
    assert (rows + [last])[..|rows|] == rows;
  }

  /** A day's average is a nearest tenth to the exact one, the one further from zero of two that are
      equally near. */
  lemma AverageIsNearest(rows: seq<Row>)
    ensures -|rows| <= 2 * (AverageTenths(rows) * |rows| - 10 * SumOfDelays(rows)) <= |rows|
    ensures rows != [] && SumOfDelays(rows) >= 0 ==>
              2 * (AverageTenths(rows) * |rows| - 10 * SumOfDelays(rows)) > -|rows|
    ensures rows != [] && SumOfDelays(rows) < 0 ==>
              2 * (AverageTenths(rows) * |rows| - 10 * SumOfDelays(rows)) < |rows|
  {
    var n, sum := |rows|, SumOfDelays(rows);
    if n > 0 {
      if sum >= 0 {
        HalfUp(20 * sum, n);
      } else {
        HalfUp(-20 * sum, n);
        Negated((n - 20 * sum) / (2 * n), n);
      }
    }
  }

  lemma HalfUp(twice: int, n: int)
    requires n > 0
    ensures -n < 2 * ((twice + n) / (2 * n) * n) - twice <= n
  {
    var d, m := (twice + n) / (2 * n), 2 * n;
    assert d * m + (twice + n) % m == twice + n;
    assert d * m == 2 * (d * n);
  }

  lemma Negated(x: int, n: nat)
    ensures (-x) * n == -(x * n)
  {}

  lemma {:induction false} TaggedSize(trips: set<string>, date: Date)
    ensures |set t | t in trips :: (t, date)| == |trips|
  {
    if trips == {} {
      assert (set t | t in trips :: (t, date)) == {};
    } else {
      var x :| x in trips;
      TaggedSize(trips - {x}, date);
      assert (set t | t in trips :: (t, date)) == (set t | t in trips - {x} :: (t, date)) + {(x, date)};
    }
  }

  lemma CountedAreOnLine(q: Query, rows: seq<Row>)
    ensures forall r | r in WhereCounted(q, rows) :: r in WhereOnLine(q, rows)
  {
    WhereExact(rows, r => Counts(q, r));
    WhereExact(rows, r => OnLine(q, r));
  }

  lemma SubsetIsSmaller<T>(a: set<T>, b: set<T>)
    requires a <= b
    ensures |a| <= |b|
  {
    assert b == a + (b - a);
  }
}
