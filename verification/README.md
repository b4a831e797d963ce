# A verified model of KRKTransit's stop detection, writing and statistics

KRKTransit follows the public transport of Kraków from its GTFS feeds. A poller caches predicted
arrivals; the stop writer turns vehicle positions into stop events and stores them; an API answers
delay statistics from the stored rows. This project models that path in Dafny and proves what it
keeps over every run.

| file | what it holds |
|---|---|
| `Domain.dfy` | positions, stop events and the other values that travel |
| `ServiceDay.dfy`, `TimeFormat.dfy` | service-day arithmetic; the HH:MM:SS parser and its inverse |
| `GtfsStatic.dfy` | the static feed, its lookups, and the bounded caches in front of them |
| `Predictions.dfy`, `PredictionHistory.dfy` | the trip-update cache; what its entries tell of the updates received |
| `Detection.dfy`, `Detector.dfy` | the detector's decisions as functions of its stores; the classes that carry them out |
| `SaveLog.dfy` | what every run keeps: the log of saves and its order |
| `Coverage.dfy` | which stops get scanned for estimates, how often, and what becomes of them |
| `UpdateMeaning.dfy` | what an update marks and returns, for every event if and only if |
| `BatchPruning.dfy`, `Estimates.dfy` | what an update returns beside an observed event; where estimated times come from |
| `Writer.dfy`, `Pipeline.dfy` | the insert-ignore table, transactions with failures, the buffer and recovery; the stop writer end to end |
| `StatsRows.dfy`, `HopDelay.dfy`, `RouteDelay.dfy`, `Punctuality.dfy`, `TableRows.dfy` | the statistics queries and the simple queries they refine, on rows the writer wrote |
| `CircuitBreaker.dfy` | the breaker in the poll loop |
| `StoreKeys.dfy` | the text keys of the Redis entries |
| `Limits.dfy` | runs that show where the guarantees stop |

`dafny verify dfyconfig.toml` checks everything.

## How it is built

Code that changes state is a class with methods, each proved equal to a function of the old state:
`StopEventDetector.ProcessUpdate` moves the three stores and returns events exactly as
`Detection.ProcessedUpdate` says, through cached lookups that may have evicted anything. The
theorems are about those functions over whole runs, in which vehicle positions and trip updates of
any vehicles and trips alternate freely. The centre is the *good log*: every save found its place
free and met the acceptance rules against all saves before it (`SaveLog.GoodLog`). What one
update does is also said outright, without the functions that work it out: `UpdateMeaning` lists the
events it may mark, field by field, and proves that it marks and returns exactly those that meet the
rules. In the same way `PredictionHistory` reads cache entries off the updates as received, and the
statistics are compared with conditions on plain rows. Queries are
functions on rows, with NULLs as options and LAG, ORDER BY, DISTINCT ON and LIMIT written out.

Assumptions:

- Instants are whole seconds; local time is at one fixed offset from UTC.
- Redis entries do not expire and always decode; static data does not change during a run.
- One stop writer handles its messages one after the other; the poller's updates fall between them.
- A cache that is full drops one arbitrary entry other than the new one.
- Numbers are unbounded; text is compared character by character. Which characters are spaces and
  digits is a parameter of the time parser (`TimeFormat.Charset`); ASCII is one choice.
- Double arithmetic rounds each result by at most half a unit in its last place.

Where code and documentation differ the model follows the code:

- The project's README calls everything found at the end of a trip TIMEOUT. Only the last stop of
  the trip is; the other stops are labelled SEQ_JUMP (`Estimates.FinalTimes`).
- The route-delay query is documented as the delay at the last stop but one less that at the second
  stop. When a trip's rows disagree on its length the last row can be neither trip version's
  last but one (`RouteDelay.DisagreeingTripRunsElsewhere`); `RouteDelay.ReportedEnds` says exactly
  when it is. That takes a feed change between the trip's rows: under one feed every reported route
  ends where it should (`TableRows.RouteQueryOnRun`).

## Model

| member | source | states |
|---|---|---|
| ServiceDay.ServiceDateWindow | app/shared/gtfs/timeparse.py:39-53 | each date is the answer on exactly one 24-hour window of local event times, starting at midnight, 03:00 or the next midnight for stops scheduled before 22:00, before 24:00 or later |
| ServiceDay.ServiceDateMonotone | app/shared/gtfs/timeparse.py:39-53 | later events never resolve to an earlier date, later-scheduled stops never to a later one |
| ServiceDay.PlannedTime | app/shared/gtfs/timeparse.py:56-67 | the planned instant is the scheduled number of seconds after the date's local midnight |
| ServiceDay.DelayBelowOneDay | app/shared/gtfs/timeparse.py:39-74 | for stops scheduled below 48 h the delay against the resolved date is under a day in absolute value |
| ServiceDay.DateRecoveredIff | app/shared/gtfs/timeparse.py:39-74 | an event is attributed to the date it was planned for if and only if its delay lies in the stop's 24-hour window |
| ServiceDay.PunctualDateRecoveredIff | app/shared/gtfs/timeparse.py:39-67 | punctual events are attributed to the right date for stops scheduled before 48:00:00 and for no others |
| TimeFormat.ParsesExactlyPrintedTimes | app/shared/gtfs/timeparse.py:7-36 | whatever counts as space and digit, the parser reads a text as n if and only if the text is the printed form of n, behind some zeros, in digits of any script, between white space |
| TimeFormat.ParseAfterPrint | app/shared/gtfs/timeparse.py:7-36 | printing any number of seconds and parsing it gives it back |
| TimeFormat.PastMidnight | app/shared/gtfs/timeparse.py:11-11 | 25:10:00 is ten past one in the following night |
| GtfsStatic.StopTimeAtIsTheRow | app/stop_writer/detector/gtfs_cache.py:35-39 | looking a stop sequence up finds exactly the trip's row that carries it |
| GtfsStatic.MaxOfIsTheMaximum | app/shared/gtfs/repositories/gtfs_static.py:23-25 | the maximum is attained, bounds all rows, and is missing only without rows |
| GtfsStatic.MaxStopSequenceIff | app/stop_writer/detector/gtfs_cache.py:41-46 | the length of a trip is the largest sequence among its rows, unless that is zero |
| GtfsStatic.MaxBoundsLookups | app/shared/gtfs/repositories/gtfs_static.py:18-25 | no stop that can be looked up lies beyond the maximum |
| GtfsStatic.StopIdToSequenceIsLargest | app/shared/gtfs/repositories/gtfs_static.py:27-29 | the stop-id map knows exactly the trip's stops, gives each its largest sequence, and the stop-time lookup leads back to the stop |
| GtfsStatic.Insert | app/stop_writer/detector/gtfs_cache.py:16-19 | a bounded cache keeps its bound and the new entry, and changes no entry it keeps |
| GtfsStatic.GtfsCache.GetTrip | app/stop_writer/detector/gtfs_cache.py:21-26 | whatever was cached or evicted, the answer is the repository's and the caches stay bounded and faithful |
| GtfsStatic.GtfsCache.GetStop | app/stop_writer/detector/gtfs_cache.py:28-33 | the same for stops |
| GtfsStatic.GtfsCache.GetStopTime | app/stop_writer/detector/gtfs_cache.py:35-39 | the same for a stop of a trip, also when the trip has no rows |
| GtfsStatic.GtfsCache.GetMaxStopSequence | app/stop_writer/detector/gtfs_cache.py:41-46 | the same for the maximum, a maximum of zero counting as none |
| GtfsStatic.StopIdCache.GetStopIdToSeq | app/rt_poller/publisher.py:80-84 | the poller's cached map is always the one built from the feed |
| Predictions.MinSeqIsTheMinimum | app/shared/redis/repositories/trip_updates.py:41-47 | the incoming minimum is the smallest sequence the update resolves, with zero falling through to the stop-id map |
| Predictions.TripUpdatesRepository.Update | app/shared/redis/repositories/trip_updates.py:32-85 | the two loops leave the trip's entry as the fold says and every other entry as it was |
| Predictions.TripUpdatesRepository.GetArrival | app/shared/redis/repositories/trip_updates.py:90-100 | the last seen arrival, or none without entry or stop |
| Predictions.CacheReflectsHistory | app/shared/redis/repositories/trip_updates.py:32-85 | after any history an entry exists exactly for each stop written to; it was last seen at its latest write and first seen at its latest resetting write |
| PredictionHistory.CacheTellsHistory | app/shared/redis/repositories/trip_updates.py:32-85 | read off the stop-time updates as received: a stop is cached if and only if one names it, by its own sequence or by the feed's, and gives an arrival or else a departure; last seen is the time given last, first seen the one given last by an update that moved on or was the first |
| Predictions.StopsNeverDisappear | app/shared/redis/repositories/trip_updates.py:51-78 | no update drops a stop |
| Predictions.EntriesAreIndependent | app/shared/redis/repositories/trip_updates.py:19-88 | a trip's entry depends only on that trip's updates since its last deletion |
| Detector.EventFactory.Create | app/stop_writer/detector/event_factory.py:18-67 | builds the event from the cached lookups or refuses without stop, feed hash or length |
| Detector.StoppedAtStrategy.Detect | app/stop_writer/detector/strategies/stopped_at.py:13-33 | the observed event, unless not standing or already saved |
| Detector.SeqJumpStrategy.Detect | app/stop_writer/detector/strategies/seq_jump.py:23-68 | the candidates of the skipped stops, in order |
| Detector.TripFinalizer.Finalize | app/stop_writer/detector/strategies/trip_completion.py:24-80 | the candidates of the stops left ahead on the trip left behind, in order |
| Detector.EventValidator.ValidateEvent | app/stop_writer/detector/validation.py:44-84 | the acceptance decision against the saved store |
| Detector.EventValidator.ValidateInBatch | app/stop_writer/detector/validation.py:17-42 | the events that stand beside the last observed one |
| Detector.SavedSequencesRepository.MarkSaved | app/stop_writer/repositories/saved_sequences.py:28-42 | one field of one hash is set |
| Detector.SavedSequencesRepository.AllSequences | app/stop_writer/repositories/saved_sequences.py:24-26 | exactly the stops saved for the trip and date |
| Detector.StopEventDetector.PersistEvents | app/stop_writer/detector/orchestrator.py:105-126 | candidates are accepted or refused in turn, each against the store left by those before |
| Detector.StopEventDetector.CompleteTrip | app/stop_writer/detector/orchestrator.py:54-59 | the trip left behind is finalised, its predictions and the vehicle's state dropped |
| Detector.StopEventDetector.ProcessUpdate | app/stop_writer/detector/orchestrator.py:45-103 | all three stores and the returned list are those of the update function |
| Detector.Publisher.ProcessTripUpdate | app/rt_poller/publisher.py:73-76 | a trip update moves the prediction cache as the model's prediction step does |
| Detector.Publisher.ProcessTripUpdates | app/rt_poller/publisher.py:73-76 | a list of trip updates moves the cache one after the other |
| StoreKeys.SavedKeysDiffer | app/stop_writer/repositories/saved_sequences.py:17-19 | different agency, trip and date give different hash keys, though trip ids may contain colons |
| StoreKeys.VehicleKeysDiffer | app/stop_writer/repositories/vehicle_state.py:16-18 | different vehicles give different keys |
| StoreKeys.TripKeysDiffer | app/shared/redis/repositories/trip_updates.py:18-20 | different trips give different prediction keys |
| StoreKeys.KindsDiffer | app/stop_writer/repositories/vehicle_state.py:16-18 | entries of different kinds never share a key |
| SaveLog.CollectExact | app/stop_writer/detector/strategies/seq_jump.py:37-68 | a scan returns exactly the candidates of its window, in ascending stop order |
| SaveLog.PersistMarksGoodLog | app/stop_writer/detector/orchestrator.py:105-126 | persisting fresh candidates marks a good log and nothing else |
| SaveLog.StepIsGood | app/stop_writer/detector/orchestrator.py:45-126 | every step changes the saved store only by marking a good log of events that agree with the static feed |
| SaveLog.RunIsGood | app/stop_writer/detector/orchestrator.py:45-126 | so does every run, from any stores |
| SaveLog.MarkedAtMostOnce | app/stop_writer/detector/orchestrator.py:82-126 | no two marks of a run share agency, trip, date and stop, and none falls on an existing entry |
| SaveLog.SavedStoreIsTheLog | app/stop_writer/repositories/saved_sequences.py:28-61 | the saved store is exactly what it held at first and what the log wrote, all as first written |
| SaveLog.LaterSavedNeighbourIsOrdered | app/stop_writer/detector/validation.py:64-82 | a stop saved after its predecessor is later in time and at most 180 s less delayed |
| SaveLog.SavedStopsAreNotTooEarly | app/stop_writer/detector/validation.py:45-52 | no stop but the first is saved more than 180 s early |
| SaveLog.HopsTelescope | app/stop_writer/detector/validation.py:64-82 | along n hops saved in order at most 180·n s of delay are made up, and the ride takes at least its scheduled time less 180·n |
| Coverage.VehiclesAreIndependent | app/stop_writer/detector/orchestrator.py:50-101 | a vehicle's stored state is trip, stop and time of its latest position at a known stop, unless it left that trip since for an unknown one |
| Coverage.CrossingsBalance | app/stop_writer/detector/strategies/seq_jump.py:24-37 | on one trip the scans of a stop equal its net crossings plus the times the vehicle fell back over it |
| Coverage.LegScans | app/stop_writer/detector/strategies/trip_completion.py:37-37 | with the final scan, every stop up to the maximum is scanned once more than it was fallen back over, and the last recorded stop as often as fallen back over |
| Coverage.ScannedOnceIff | app/stop_writer/detector/strategies/seq_jump.py:24-37 | the exact condition for a stop to be scanned exactly once |
| Coverage.ScansTileTheTrip | app/stop_writer/detector/strategies/trip_completion.py:24-80 | if recorded stops never decrease, each static stop from the first tracked one to the end is scanned exactly once, but for the last recorded |
| Coverage.SavedIffMeetsRules | app/stop_writer/detector/validation.py:44-84 | a fresh candidate is accepted if and only if it meets the rules, in closed form, against the store at its turn |
| Coverage.CandidateIsSettled | app/stop_writer/detector/orchestrator.py:112-126 | after its batch a candidate is saved or breaks a rule against the final store |
| Coverage.JumpSettles | app/stop_writer/detector/strategies/seq_jump.py:37-68 | a skipped stop ends saved, or without prediction, or refused by factory or rules |
| Coverage.FinalSettles | app/stop_writer/detector/strategies/trip_completion.py:37-80 | the same for a stop scanned when the trip is left |
| Coverage.TripIsSettled | app/stop_writer/detector/orchestrator.py:52-101 | over a whole trip without falling back, each stop but the last recorded is settled by its one scan |
| UpdateMeaning.MarkedIff | app/stop_writer/detector/orchestrator.py:45-126 | the meaning of an update: it marks exactly the stops left ahead on a trip left behind, the stop a standing vehicle reports and the stops missed since its last position, each event spelled out, that meet the rules |
| UpdateMeaning.ReturnedIff | app/stop_writer/detector/orchestrator.py:89-103 | it returns exactly what it marked, but for estimates contradicting the event observed in the same update |
| UpdateMeaning.StandingSettles | app/stop_writer/detector/strategies/stopped_at.py:13-33 | the stop a standing vehicle reports ends saved, or no event can be built, or the event at the reported time breaks a rule |
| UpdateMeaning.MarkedWasExamined | app/stop_writer/detector/strategies/trip_completion.py:37-37 | every estimate marked is of a stop that the counted scans reach: past the last recorded stop, or within the window of skipped ones |
| Estimates.RunPredictions | app/stop_writer/detector/orchestrator.py:57-57 | the prediction cache of a run is its updates and trip-change deletions applied in order |
| Estimates.FinalTimes | app/stop_writer/detector/strategies/trip_completion.py:63-70 | the last stop is a timeout at its first seen arrival, the others jumps at their last seen one |
| Estimates.EstimateComesFromHistory | app/stop_writer/detector/strategies/seq_jump.py:43-46 | in every run an estimate's time is the one at which its trip's updates, since the last deletion, first or last saw the stop |
| BatchPruning.DetectionShape | app/stop_writer/detector/orchestrator.py:81-87 | an update marks at most one observed event, at the reported stop, and estimates of earlier stops in ascending order |
| BatchPruning.ObservedIsReturned | app/stop_writer/detector/validation.py:26-28 | an observed event that is marked is returned |
| BatchPruning.ObservedComesFirst | app/stop_writer/detector/orchestrator.py:37-40 | the observed event is judged and marked before the estimates |
| BatchPruning.ReturnedBesideObserved | app/stop_writer/detector/validation.py:17-42 | beside a marked observed event, itself returned, the returned estimates are of earlier stops, no later, at most 180 s more delayed; what is marked but not returned is exactly the estimates breaking that; the update returns these after what completed the trip before |
| BatchPruning.AllReturnedWithoutObserved | app/stop_writer/detector/validation.py:18-20 | without an observed event all that was marked is returned |
| BatchPruning.EstimatedNeighboursIncrease | app/stop_writer/detector/validation.py:72-82 | estimates of neighbouring stops returned together strictly increase in time |
| Writer.InsertInBatches | app/stop_writer/repositories/stop_event.py:42-46 | inserting two batches in turn is inserting them as one |
| Writer.RetryIsAbsorbed | app/stop_writer/repositories/stop_event.py:42-46 | retrying a batch that took effect, with or without more behind it, changes nothing |
| Writer.FirstOccurrenceWins | app/stop_writer/repositories/stop_event.py:42-46 | the first event with a key stays |
| Writer.NothingDiscardedIff | app/stop_writer/repositories/stop_event.py:42-46 | every event gets a row of its own if and only if no two share a key |
| Writer.StopEventRepository.InsertBatch | app/stop_writer/repositories/stop_event.py:12-46 | one insert-ignore of the whole batch in the open transaction, nothing for an empty one |
| Writer.BatchWriter.AddMany | app/stop_writer/writer.py:31-38 | the events join the buffer in order; it is written exactly when full or old, and a write error comes exactly from a failing transaction then; buffer, flushed events and time of last flush are those of each case |
| Writer.BatchWriter.Flush | app/stop_writer/writer.py:40-62 | on success the buffer moves to the flushed events and the table follows; on failure buffer and events stay, whether or not the commit took effect |
| Writer.RecoverWriter | app/stop_writer/main.py:32-66 | recovers exactly when an attempt succeeds before shutdown, loses no event, and waits 1, 5, 15, then always 30 s |
| Pipeline.RunReturnsMarked | app/stop_writer/detector/orchestrator.py:82-103 | a run returns events it marked, none twice |
| Pipeline.RunIsReported | app/stop_writer/detector/orchestrator.py:50-126 | over every run, each event is of a vehicle that reported its trip, and estimated exactly if not observed |
| Pipeline.ReturnedRowsAreDistinct | app/stop_writer/repositories/stop_event.py:42-43 | if no trip is shared between agencies, no two returned events compete for a row |
| Pipeline.NothingDiscardedIffAgenciesAgree | app/stop_writer/repositories/stop_event.py:42-43 | the table keeps all returned events if and only if no two of different agencies name the same stop, trip and date; that no trip is shared, which can be known beforehand, is enough but not needed |
| Pipeline.TickIsRun | app/stop_writer/main.py:92-96 | what a turn makes of the stores and returns is a run over what it brings |
| Pipeline.Turn | app/stop_writer/main.py:91-103 | one turn of the loop moves the stores and hands on every returned event in order; the buffer is flushed without a message, and with events when full or old, and otherwise kept; the loop goes on only with less than a batch buffered |
| Pipeline.RunLoop | app/stop_writer/main.py:90-103 | at every point events added are flushed batches followed by the buffer; only a failed recovery ends the loop early |
| Pipeline.RunWriter | app/stop_writer/main.py:69-118 | for all schedules and failures the table is made of a prefix of the returned events, after a last good flush of all of them, and without shared trips it then holds exactly those, one row each |
| StatsRows.LagIsRightBefore | app/api/repositories/stats_repository.py:87-108 | LAG over trip and date yields exactly the nearest earlier stop of the partition |
| StatsRows.FirstTenOfSorted | app/api/repositories/stats_repository.py:151-152 | ORDER BY with LIMIT 10 gives a top ten |
| StatsRows.TopTenIff | app/api/repositories/stats_repository.py:151-152 | a list is a top ten, ties broken anyhow, if and only if it is in order, without repetition, from what there is to choose, and leaves nothing out unless ten others belong before it |
| StatsRows.PassesIffMeasured | app/api/repositories/stats_repository.py:76-83 | the WHERE clause of the delay queries keeps inner stops of the line in the period, observed or admitted estimates |
| HopDelay.CandidatesAreTheSelfJoin | app/api/repositories/stats_repository.py:61-150 | the query's candidates are exactly the pairs of filtered rows at neighbouring stops with one plate and the earlier delay at least -90, each once |
| HopDelay.PreviousFilterIsRedundant | app/api/repositories/stats_repository.py:41-48 | the filter on the previous detection method removes nothing further |
| HopDelay.MaxDelayIsTopTenOfSelfJoin | app/api/repositories/stats_repository.py:55-156 | the possible answers are exactly the ten pairs of measured neighbouring stops, each once, whose delay grew most, in falling order, however ties are broken |
| HopDelay.EstimatesOnRequest | app/api/repositories/stats_repository.py:34-48 | hops are flagged by their methods; estimated ones appear only on request and from the date on |
| RouteDelay.DistinctExact | app/api/repositories/stats_repository.py:295-317 | exactly one output row for each trip and date that has bounds |
| RouteDelay.ReportedIff | app/api/repositories/stats_repository.py:208-317 | whichever row DISTINCT ON keeps, a trip is reported if and only if one vehicle served it, both ends were recorded and it was not more than 90 s early at stop 2 |
| RouteDelay.RoutesAreWholeTrips | app/api/repositories/stats_repository.py:208-317 | what DISTINCT ON chooses from is exactly such trips, from the row at stop 2 to the row furthest along |
| RouteDelay.ReportedEnds | app/api/repositories/stats_repository.py:218-289 | a reported trip starts at stop 2, and ends at stop m-1 if and only if no row lies at or beyond m |
| RouteDelay.AgreeingTripRunsToPenultimate | app/api/repositories/stats_repository.py:179-289 | if its rows agree on the length m it runs from stop 2 to stop m-1 |
| RouteDelay.DisagreeingTripRunsElsewhere | app/api/repositories/stats_repository.py:179-179 | a trip whose rows disagree, because the feed changed between them, can end at the last but one stop of neither length |
| RouteDelay.RouteDelayIsSumOfHops | app/api/repositories/stats_repository.py:292-292 | the reported delay is the sum of what is generated from row to row |
| RouteDelay.SomeHopExplainsTheRoute | app/api/repositories/stats_repository.py:102-105 | on a complete trip some neighbouring pair, as LAG sees it, generates at least the average |
| RouteDelay.MaxRouteDelayIsTopTen | app/api/repositories/stats_repository.py:295-322 | the possible answers, for any choice of DISTINCT ON and of ties, are exactly the ten whole trips along which delay grew most, in falling order, one row each |
| TableRows.RunRowsUnique | app/stop_writer/repositories/stop_event.py:12-46 | the rows of a run's returned events are unique when no trip is shared between agencies |
| TableRows.TableRowsUnique | app/stop_writer/repositories/stop_event.py:42-46 | the rows of the writer's table are unique and from marked events, whatever failed; after a good last flush, without shared trips, they are those of the returned events |
| TableRows.HopQueryOnRun | app/api/repositories/stats_repository.py:55-156 | on rows a run wrote each hop of the answer is of one vehicle that reported the trip, its delay is time taken less time scheduled by the feed, and it is flagged estimated exactly if a stop of it was |
| TableRows.RowFromRun | app/stop_writer/repositories/stop_event.py:12-46 | a written row names line, headsign, stop and schedule as the feed does |
| TableRows.RowLabels | app/stop_writer/repositories/stop_event.py:12-46 | a written row has method 1 exactly if observed, and the plate of a vehicle that reported the trip |
| TableRows.RouteQueryOnRun | app/api/repositories/stats_repository.py:158-325 | on rows a run wrote each reported route ends at stop 2 and at the last but one stop of its trip, and its delay is time taken less time scheduled |
| TableRows.StatisticsOfTheRun | app/api/repositories/stats_repository.py:55-325 | from positions to statistics: after a good last flush both queries answer over the table exactly as the returned events call for |
| Punctuality.ClassesPartitionTheTotal | app/api/repositories/stats_repository.py:335-340 | the three counts add up to the total |
| Punctuality.CountsAreSizes | app/api/repositories/stats_repository.py:335-349 | the counts are those of all stops measured and not over 90 s early, of those up to 120 s, up to 360 s, and over 360 s late |
| Punctuality.TripsCountIs | app/api/repositories/stats_repository.py:158-174 | the number of distinct trips and dates of the line in the period, whatever was detected |
| Punctuality.CountIsCardinality | app/api/repositories/stats_repository.py:335-349 | each count is the number of rows of its class |
| Punctuality.PercentagesAddUp | app/api/services/stats_service.py:94-100 | however the doubles round, the three percentages given to a tenth add up to 100 within a tenth; without stops all are zero |
| Punctuality.ExactPercentage | app/api/services/stats_service.py:95-99 | exact arithmetic with the nearest tenths is one of the outcomes considered |
| Punctuality.NoneAndAll | app/api/services/stats_service.py:94-100 | no stops of a class are given as 0.0, all of them as 100.0 |
| Punctuality.TrendConservesTrips | app/api/repositories/stats_repository.py:354-382 | days are distinct and in order, and their trip counts add up to the distinct trips and dates counted, at most the line's trips |
| Punctuality.TrendDatesAre | app/api/repositories/stats_repository.py:377-378 | a day is in the trend if and only if it has stops to count |
| Punctuality.TrendDayIs | app/api/repositories/stats_repository.py:361-367 | each day has the number of trips its stops are of and their average to the nearest tenth |
| Punctuality.TrendConservesDelay | app/api/repositories/stats_repository.py:362-382 | the days average over exactly the stops punctuality counts, and their rounded averages weighted by stops give the total delay back within half a tenth a stop |
| CircuitBreaker.Breaker.RecordFailure | app/rt_poller/circuit_breaker.py:30-42 | the new state and exactly when an opening is reported |
| CircuitBreaker.Breaker.PollFeed | app/rt_poller/main.py:27-52 | one poll moves the breaker as the model says |
| CircuitBreaker.Breaker.PollRepeatedly | app/rt_poller/main.py:65-71 | the poll loop as one feed sees it moves the breaker and answers as the run in the theorems |
| CircuitBreaker.SkippedOnlyInCooldown | app/rt_poller/circuit_breaker.py:20-42 | whatever the feed does, a poll is skipped if and only if at least the threshold of polls failed in a row since the last success and the cooldown of the latest failure is not over |
| CircuitBreaker.OpeningsFromThresholdOn | app/rt_poller/circuit_breaker.py:30-42 | while a feed fails, failures report an opening exactly from the threshold on |
| CircuitBreaker.FailureRateBound | app/rt_poller/main.py:27-52 | a dead feed fails at most threshold + floor(T / cooldown) times within T seconds of its first failure |
| CircuitBreaker.ConfiguredRateBound | app/rt_poller/constants.py:3-4 | with the configured breaker at most five failures and one more for each full minute |
| Limits.StopsSavedBackwardsAreNotOrdered | app/stop_writer/detector/validation.py:60-82 | a run in which a stop saved after its successor has the later time: the save order in the ordering property is needed |
| Limits.SharedTripLosesAnEvent | app/stop_writer/repositories/stop_event.py:43-43 | a run in which two agencies report one trip and a returned event is dropped by the table |
| Limits.SharedTripMayLoseNothing | app/stop_writer/repositories/stop_event.py:43-43 | a run in which two agencies share a trip and the table keeps all |

## Left out

- ServiceDay.PlannedTime: does not model daylight-saving changes, because the offset is fixed; the code's wall-clock arithmetic is not claimed to equal the GTFS "noon minus 12 h" rule.
- Punctuality.TrendConservesDelay: takes a day's average exactly before rounding it to a tenth; the database carries it to a finite number of digits.
- Pipeline.RunWriter: an exception other than a failed write, such as a rollback that raises, ends the process and is not modelled; the reload marker is an end of the schedule.
- A trip update arriving while a position is being processed: predictions are read once per position here, once per stop in the finalizer.
- Expiry and undecodable values in Redis, and process restarts: at-most-once marking is a claim about the life of an entry.
- Global time order of saved stops: a stop saved after its successor is not compared with it, and gaps are not bridged; `Limits.StopsSavedBackwardsAreNotOrdered` is such a run.
- Which of several correct answers a query returns: SQL leaves open how ties are broken and which row DISTINCT ON keeps; the theorems hold for every choice.
- A condition on the positions alone for the table to keep every event: `NothingDiscardedIffAgenciesAgree` reads its condition off the returned events; the one that can be checked beforehand, `OneAgencyPerTrip`, is sufficient (`Pipeline.ReturnedRowsAreDistinct`) and not necessary (`Limits.SharedTripMayLoseNothing`).
- LRU order: any victim may be evicted, the least recently used being one.
- The loop over several feeds in the poller: breakers do not share state, so one feed's breaker is modelled.
- Live positions, shapes, trip listings, weather, import and download: reads and writes without a hard property.
- HTTP, response caching, serialisation, protobuf decoding, logging, Sentry and configuration.
