/** The circuit breaker in the poll loop, and how often a dead feed gets polled. Clock readings are
    seconds on the monotonic clock. */
module CircuitBreaker {
  import opened Domain

  const FAILURE_THRESHOLD := 5
  const COOLDOWN_SECONDS := 60

  /** A breaker's parameters. */
  datatype Settings = Settings(threshold: nat, cooldown: nat)

  const CONFIGURED := Settings(FAILURE_THRESHOLD, COOLDOWN_SECONDS)

  datatype BreakerState = BreakerState(failures: nat, openUntil: real)

  /** A fresh breaker, and one after a success. */
  const CLOSED := BreakerState(0, 0.0)

  predicate IsOpenAt(s: Settings, b: BreakerState, now: real) {
    b.failures >= s.threshold && now < b.openUntil
  }

  /** One poll of a feed: the clock when the breaker is asked, when a failure asks it again and when
      the failure sets the cooldown, and whether fetching and publishing worked. */
  datatype Poll = Poll(checkedAt: real, failedAt: real, reopenedAt: real, works: bool)

  datatype PollResult = Skipped | Succeeded | Failed(opening: bool)

  /** What one poll does to the breaker, and whether it reports an opening. */
  function AfterPoll(s: Settings, b: BreakerState, p: Poll): (BreakerState, PollResult) {
    if IsOpenAt(s, b, p.checkedAt) then (b, Skipped)
    else if p.works then (CLOSED, Succeeded)
    else
      var failures := b.failures + 1;
      if failures >= s.threshold then
        (BreakerState(failures, p.reopenedAt + s.cooldown as real), Failed(!IsOpenAt(s, b, p.failedAt)))
      else
        (BreakerState(failures, b.openUntil), Failed(false))
  }

  class Breaker {
    const settings: Settings
    var failures: nat
    var openUntil: real

    function State(): BreakerState
      reads this
    {
      BreakerState(failures, openUntil)
    }

    constructor (settings: Settings)
      ensures this.settings == settings && State() == CLOSED
    {
      this.settings, failures, openUntil := settings, 0, 0.0;
    }

    predicate IsOpen(now: real)
      reads this
    {
      failures >= settings.threshold && now < openUntil
    }

    method RecordSuccess()
      modifies this
      ensures State() == CLOSED
    {
      failures := 0;
      openUntil := 0.0;
    }

    /** `failedAt` and `reopenedAt` are the two readings of the clock. */
    method RecordFailure(failedAt: real, reopenedAt: real) returns (opening: bool)
      modifies this
      ensures failures == old(failures) + 1
      ensures openUntil ==
                if failures >= settings.threshold then reopenedAt + settings.cooldown as real else old(openUntil)
      ensures opening <==> failures >= settings.threshold && !old(IsOpen(failedAt))
    {
      var wasOpen := IsOpen(failedAt);
      failures := failures + 1;
      if failures >= settings.threshold {
        openUntil := reopenedAt + settings.cooldown as real;
        if !wasOpen {
          return true;
        }
      }
      return false;
    }

    method PollFeed(p: Poll) returns (r: PollResult)
      modifies this
      ensures (State(), r) == AfterPoll(settings, old(State()), p)
    {
      if IsOpen(p.checkedAt) {
        return Skipped;
      }
      if p.works {
        RecordSuccess();
        return Succeeded;
      }
      var circuitOpened := RecordFailure(p.failedAt, p.reopenedAt);
      return Failed(circuitOpened);
    }

    /** The poll loop as one feed sees it. */
    method PollRepeatedly(polls: seq<Poll>) returns (results: seq<PollResult>)
      modifies this
      ensures State() == Run(settings, old(State()), polls).0
      ensures results == Run(settings, old(State()), polls).1
    {
      results := [];
      for i := 0 to |polls|
        invariant (State(), results) == Run(settings, old(State()), polls[..i])
      {
        PrefixFront(polls, i);
        var r := PollFeed(polls[i]);
        results := results + [r];
      }
      assert polls[..|polls|] == polls;
    }
  }

  /** The breaker after some polls, and the result of each. */
  function Run(s: Settings, b: BreakerState, polls: seq<Poll>): (BreakerState, seq<PollResult>) {
    if polls == [] then (b, [])
    else
      var (before, results) := Run(s, b, polls[..|polls| - 1]);
      var (after, r) := AfterPoll(s, before, polls[|polls| - 1]);
      (after, results + [r])
  }

  /** The clock never runs backwards, within a poll or from one to a later one. */
  ghost predicate ClockAdvances(polls: seq<Poll>) {
    && (forall i | 0 <= i < |polls| :: polls[i].checkedAt <= polls[i].failedAt <= polls[i].reopenedAt)
    && (forall i, j | 0 <= i < j < |polls| :: polls[i].reopenedAt <= polls[j].checkedAt)
  }

  /** When the failures of a run were recorded. */
  function FailureTimes(s: Settings, b: BreakerState, polls: seq<Poll>): seq<real> {
    if polls == [] then []
    else
      var front, p := polls[..|polls| - 1], polls[|polls| - 1];
      FailureTimes(s, b, front)
      + FailureOf(p, AfterPoll(s, Run(s, b, front).0, p).1)
  }

  /** What each failure of a run reported. */
  function Openings(s: Settings, b: BreakerState, polls: seq<Poll>): seq<bool> {
    if polls == [] then []
    else
      var front, p := polls[..|polls| - 1], polls[|polls| - 1];
      Openings(s, b, front) + OpeningOf(AfterPoll(s, Run(s, b, front).0, p).1)
  }

  ghost predicate NeverWorks(polls: seq<Poll>) {
    forall i | 0 <= i < |polls| :: !polls[i].works
  }

  /** The failure from which on the breaker is set. */
  function FirstOpening(s: Settings): nat {
    if s.threshold == 0 then 1 else s.threshold
  }

  ghost predicate Rising(times: seq<real>) {
    forall i, j | 0 <= i < j < |times| :: times[i] <= times[j]
  }

  /** From the one that sets the breaker on, each failure is a cooldown after the one before it. */
  ghost predicate Spaced(s: Settings, times: seq<real>) {
    forall i, j | 0 <= i < |times| && FirstOpening(s) <= j < |times| && i == j - 1 ::
      times[i] + s.cooldown as real <= times[j]
  }

  /** What a run of failing polls from a fresh breaker has come to. */
  ghost predicate Dead(s: Settings, b: BreakerState, polls: seq<Poll>, times: seq<real>, openings: seq<bool>) {
    && b.failures == |times| == |openings|
    && (times == [] ==> b.openUntil == 0.0)
    && (times != [] ==> polls != [] && times[|times| - 1] <= polls[|polls| - 1].reopenedAt)
    && (|times| >= FirstOpening(s) ==> b.openUntil >= times[|times| - 1] + s.cooldown as real)
    && Rising(times) && Spaced(s, times)
    && (forall i | 0 <= i < |openings| :: openings[i] <==> i + 1 >= FirstOpening(s))
  }

  lemma {:induction false} DeadFeed(s: Settings, polls: seq<Poll>)
    requires ClockAdvances(polls) && NeverWorks(polls)
    requires forall i | 0 <= i < |polls| :: 0.0 <= polls[i].checkedAt
    ensures Dead(s, Run(s, CLOSED, polls).0, polls, FailureTimes(s, CLOSED, polls), Openings(s, CLOSED, polls))
  {
    if polls != [] {
      var front, p := polls[..|polls| - 1], polls[|polls| - 1];
      assert forall i | 0 <= i < |front| :: front[i] == polls[i];
      DeadFeed(s, front);
      DeadStep(s, Run(s, CLOSED, front).0, front, FailureTimes(s, CLOSED, front), Openings(s, CLOSED, front), p);
      RunGrows(s, front, p);
      FrontAndLast(polls);
    }
  }

  lemma RunGrows(s: Settings, front: seq<Poll>, p: Poll)
    ensures Run(s, CLOSED, front + [p]).0 == AfterPoll(s, Run(s, CLOSED, front).0, p).0
    ensures var r := AfterPoll(s, Run(s, CLOSED, front).0, p).1;
            && FailureTimes(s, CLOSED, front + [p]) == FailureTimes(s, CLOSED, front) + FailureOf(p, r)
            && Openings(s, CLOSED, front + [p]) == Openings(s, CLOSED, front) + OpeningOf(r)
  {
    assert (front + [p])[..|front|] == front;
  }

  function FailureOf(p: Poll, r: PollResult): seq<real> {
    if r.Failed? then [p.failedAt] else []
  }

  function OpeningOf(r: PollResult): seq<bool> {
    if r.Failed? then [r.opening] else []
  }

  lemma DeadStep(s: Settings, b: BreakerState, front: seq<Poll>, times: seq<real>, openings: seq<bool>, p: Poll)
    requires Dead(s, b, front, times, openings) && !p.works
    requires 0.0 <= p.checkedAt <= p.failedAt <= p.reopenedAt
    requires front != [] ==> front[|front| - 1].reopenedAt <= p.checkedAt
    ensures var r := AfterPoll(s, b, p).1;
            Dead(s, AfterPoll(s, b, p).0, front + [p], times + FailureOf(p, r), openings + OpeningOf(r))
  {
    var (after, r) := AfterPoll(s, b, p);
    if r.Skipped? {
      assert times + [] == times && openings + [] == openings;
    } else {
      assert |times| >= FirstOpening(s) ==> times[|times| - 1] + s.cooldown as real <= p.failedAt;
      assert r.opening <==> |times| + 1 >= FirstOpening(s);
      DeadFailure(s, after, front + [p], times, openings, p.failedAt, r.opening);
    }
  }

  lemma DeadFailure(s: Settings, after: BreakerState, polls: seq<Poll>, times: seq<real>, openings: seq<bool>,
                    at: real, opening: bool)
    requires after.failures == |times| + 1 == |openings| + 1
    requires polls != [] && at <= polls[|polls| - 1].reopenedAt
    requires |times| + 1 >= FirstOpening(s) ==> after.openUntil >= at + s.cooldown as real
    requires times != [] ==> times[|times| - 1] <= at
    requires |times| >= FirstOpening(s) ==> times[|times| - 1] + s.cooldown as real <= at
    requires opening <==> |times| + 1 >= FirstOpening(s)
    requires Rising(times) && Spaced(s, times)
    requires forall i | 0 <= i < |openings| :: openings[i] <==> i + 1 >= FirstOpening(s)
    ensures Dead(s, after, polls, times + [at], openings + [opening])
  {}

  /** How many polls failed since the last one that succeeded. */
  function FailuresInARow(results: seq<PollResult>): nat {
    if results == [] then 0
    else
      var earlier := FailuresInARow(results[..|results| - 1]);
      match results[|results| - 1]
      case Skipped => earlier
      case Succeeded => 0
      case Failed(_) => earlier + 1
  }

  /** Poll j failed and all polls after it were skipped. */
  ghost predicate LatestFailed(results: seq<PollResult>, j: int) {
    && 0 <= j < |results| && results[j].Failed?
    && forall k | j < k < |results| :: results[k].Skipped?
  }

  /** The breaker counts the failures in a row; from the threshold on its cooldown is that of the
      latest failure, and otherwise there is none. */
  ghost predicate Cooling(s: Settings, b: BreakerState, polls: seq<Poll>, results: seq<PollResult>) {
    && |results| == |polls| && b.failures == FailuresInARow(results)
    && (b.failures < s.threshold ==> b.openUntil == 0.0)
    && (forall j | LatestFailed(results, j) && b.failures >= s.threshold ::
          b.openUntil == polls[j].reopenedAt + s.cooldown as real)
    && (b.openUntil == 0.0 || exists j :: LatestFailed(results, j))
  }

  lemma {:induction false} RunCools(s: Settings, polls: seq<Poll>)
    ensures Cooling(s, Run(s, CLOSED, polls).0, polls, Run(s, CLOSED, polls).1)
  {
    if polls != [] {
      var front, p := polls[..|polls| - 1], polls[|polls| - 1];
      RunCools(s, front);
      CoolsOn(s, Run(s, CLOSED, front).0, front, Run(s, CLOSED, front).1, p);
      FrontAndLast(polls);
    }
  }

  lemma CoolsOn(s: Settings, b: BreakerState, front: seq<Poll>, results: seq<PollResult>, p: Poll)
    requires Cooling(s, b, front, results)
    ensures Cooling(s, AfterPoll(s, b, p).0, front + [p], results + [AfterPoll(s, b, p).1])
  {
    var r := AfterPoll(s, b, p).1;
    var results' := results + [r];
    assert results'[..|results|] == results;
    if r.Skipped? {
      forall j
        ensures LatestFailed(results', j) <==> LatestFailed(results, j)
      {
        SkipKeepsLatest(results, r, j);
      }
    } else {
      forall j | LatestFailed(results', j)
        ensures j == |results|
      {
        assert results'[|results|] == r;
      }
      assert r.Failed? ==> LatestFailed(results', |results|);
    }
  }

  lemma SkipKeepsLatest(results: seq<PollResult>, r: PollResult, j: int)
    requires r.Skipped?
    ensures LatestFailed(results + [r], j) <==> LatestFailed(results, j)
  {
    var results' := results + [r];
    assert results'[|results|] == r;
    if LatestFailed(results, j) {
      assert forall k | j < k < |results'| :: results'[k] == if k < |results| then results[k] else r;
    }
    if LatestFailed(results', j) {
      assert forall k | j < k < |results| :: results'[k] == results[k];
    }
  }

  /** Whatever the feed does, a poll is skipped if and only if at least the threshold of polls failed
      in a row and the cooldown of the latest failure is not over. */
  lemma SkippedOnlyInCooldown(s: Settings, polls: seq<Poll>, p: Poll)
    requires 0.0 <= p.checkedAt
    ensures var results := Run(s, CLOSED, polls).1;
            && |results| == |polls|
            && (AfterPoll(s, Run(s, CLOSED, polls).0, p).1.Skipped?
                <==> && FailuresInARow(results) >= s.threshold
                     && exists j :: LatestFailed(results, j) && p.checkedAt < polls[j].reopenedAt + s.cooldown as real)
  {
    RunCools(s, polls);
  }

  /** A failure reports an opening exactly from the threshold on. */
  lemma OpeningsFromThresholdOn(s: Settings, polls: seq<Poll>, i: nat)
    requires ClockAdvances(polls) && NeverWorks(polls)
    requires forall k | 0 <= k < |polls| :: 0.0 <= polls[k].checkedAt
    requires i < |Openings(s, CLOSED, polls)|
    ensures Openings(s, CLOSED, polls)[i] <==> i + 1 >= FirstOpening(s)
  {
    DeadFeed(s, polls);
  }

  /** A feed that never works fails at most threshold + floor(T / cooldown) times within T seconds
      of its first failure. */
  lemma FailureRateBound(s: Settings, polls: seq<Poll>, n: nat, seconds: real)
    requires ClockAdvances(polls) && NeverWorks(polls) && s.cooldown >= 1
    requires forall i | 0 <= i < |polls| :: 0.0 <= polls[i].checkedAt
    requires 1 <= n <= |FailureTimes(s, CLOSED, polls)|
    requires var times := FailureTimes(s, CLOSED, polls); times[n - 1] <= times[0] + seconds
    ensures n <= FirstOpening(s) + (seconds / s.cooldown as real).Floor
  {
    DeadFeed(s, polls);
    SpacedTimes(s, FailureTimes(s, CLOSED, polls), n, seconds);
  }

  /** With the configured breaker a dead feed fails at most once a minute and five times more. */
  lemma ConfiguredRateBound(polls: seq<Poll>, n: nat, minutes: nat)
    requires ClockAdvances(polls) && NeverWorks(polls)
    requires forall i | 0 <= i < |polls| :: 0.0 <= polls[i].checkedAt
    requires var times := FailureTimes(CONFIGURED, CLOSED, polls);
             1 <= n <= |times| && times[n - 1] < times[0] + 60.0 * (minutes + 1) as real
    ensures n <= 5 + minutes
  {
    var times := FailureTimes(CONFIGURED, CLOSED, polls);
    FailureRateBound(CONFIGURED, polls, n, times[n - 1] - times[0]);
  }

  lemma SpacedTimes(s: Settings, times: seq<real>, n: nat, seconds: real)
    requires s.cooldown >= 1 && 1 <= n <= |times| && times[n - 1] <= times[0] + seconds
    requires Rising(times) && Spaced(s, times)
    ensures n <= FirstOpening(s) + (seconds / s.cooldown as real).Floor
  {
    FloorBound(0, s.cooldown, seconds);
    if n > FirstOpening(s) {
      Spacing(s, times, n - 1);
      FloorBound(n - FirstOpening(s), s.cooldown, seconds);
    }
  }

  lemma {:induction false} Spacing(s: Settings, times: seq<real>, i: nat)
    requires Rising(times) && Spaced(s, times)
    requires FirstOpening(s) - 1 <= i < |times|
    ensures times[0] + (i + 1 - FirstOpening(s)) as real * s.cooldown as real <= times[i]
  {
    if i >= FirstOpening(s) {
      Spacing(s, times, i - 1);
      OneMore(i - FirstOpening(s), s.cooldown);
      assert times[i - 1] + s.cooldown as real <= times[i];
    }
  }

  lemma OneMore(k: nat, cooldown: nat)
    ensures (k + 1) as real * cooldown as real == k as real * cooldown as real + cooldown as real
  {}

  lemma FloorBound(k: nat, cooldown: nat, seconds: real)
    requires cooldown >= 1 && k as real * cooldown as real <= seconds
    ensures k <= (seconds / cooldown as real).Floor
  {
    var c := cooldown as real;
    assert seconds / c * c == seconds;
    if seconds / c < k as real {
      Scaled(seconds / c, k as real, c);
      assert false;
    }
  }

  lemma Scaled(x: real, y: real, c: real)
    requires x < y && c > 0.0
    ensures x * c < y * c
  {}
}
