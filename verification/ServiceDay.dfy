/** Service-day arithmetic at a fixed offset `tz` of local time from UTC. */
module ServiceDay {
  import opened Domain

  const DAY := 86400
  const LATE_EVENING := 79200 // 22:00:00
  const EARLY_MORNING := 10800 // 03:00:00

  /** The service date of an event at a stop scheduled `scheduled` seconds into the service day. */
  function ServiceDate(tz: int, eventTime: Instant, scheduled: int): Date {
    var local := eventTime + tz;
    var date := local / DAY;
    var hour := local % DAY / 3600;
    if scheduled >= DAY then
      date - 1
    else if scheduled >= LATE_EVENING && hour < 3 then
      date - 1
    else
      date
  }

  /** The instant at which a stop scheduled `scheduled` seconds into `serviceDate` is due. */
  function PlannedTime(tz: int, serviceDate: Date, scheduled: int): (t: Instant)
    ensures t + tz == serviceDate * DAY + scheduled
  {
    var dayOffset := scheduled / DAY;
    var secondsInDay := scheduled % DAY;
    var localMidnight := serviceDate * DAY - tz;
    localMidnight + dayOffset * DAY + secondsInDay
  }

  function DelaySeconds(eventTime: Instant, plannedTime: Instant): int {
    eventTime - plannedTime
  }

  /** Local time of day at which the 24 hours that resolve to a service date begin, counted from
      the midnight that starts that date. */
  function WindowStart(scheduled: int): int {
    if scheduled < 22 * 3600 then 0
    else if scheduled < 24 * 3600 then 3 * 3600
    else 24 * 3600
  }

  /** Every service date is the answer on exactly one 24-hour window of local event times. */
  lemma ServiceDateWindow(tz: int, eventTime: Instant, scheduled: int, date: Date)
    ensures ServiceDate(tz, eventTime, scheduled) == date
       <==> 0 <= eventTime + tz - date * 86400 - WindowStart(scheduled) < 86400
  {
    var local := eventTime + tz;
    assert local == local / DAY * DAY + local % DAY;
    var hour := local % DAY / 3600;
    assert hour < 3 <==> local % DAY < EARLY_MORNING;
    DivisionIsUnique(local, if scheduled >= DAY then date + 1 else date);
    DivisionIsUnique(local, date + 1);
  }

  lemma DivisionIsUnique(local: int, date: int)
    ensures local / DAY == date <==> date * DAY <= local < (date + 1) * DAY
  {}

  /** Later events never resolve to an earlier date, and stops scheduled later never to a later one. */
  lemma ServiceDateMonotone(tz: int, t: Instant, t': Instant, s: int, s': int)
    requires t <= t' && s' <= s
    ensures ServiceDate(tz, t, s) <= ServiceDate(tz, t', s')
  {
    var d, d' := ServiceDate(tz, t, s), ServiceDate(tz, t', s');
    ServiceDateWindow(tz, t, s, d);
    ServiceDateWindow(tz, t', s', d');
  }

  /** For stops scheduled within two days the delay measured against the resolved date is less
      than a day either way, so the choice of date never costs a whole day. */
  lemma DelayBelowOneDay(tz: int, eventTime: Instant, scheduled: int)
    requires 0 <= scheduled < 2 * DAY
    ensures var planned := PlannedTime(tz, ServiceDate(tz, eventTime, scheduled), scheduled);
            -DAY < DelaySeconds(eventTime, planned) < DAY
  {
    ServiceDateWindow(tz, eventTime, scheduled, ServiceDate(tz, eventTime, scheduled));
  }

  /** A vehicle passing a stop of service date `date` with a given delay is attributed to that
      date exactly when the delay keeps it inside the stop's window. */
  lemma DateRecoveredIff(tz: int, date: Date, scheduled: int, delay: int)
    ensures ServiceDate(tz, PlannedTime(tz, date, scheduled) + delay, scheduled) == date
       <==> WindowStart(scheduled) - scheduled <= delay < WindowStart(scheduled) - scheduled + DAY
  {
    ServiceDateWindow(tz, PlannedTime(tz, date, scheduled) + delay, scheduled, date);
  }

  /** Punctual events are attributed to the right date for all stops scheduled before 48:00:00
      and for no stop scheduled after it. */
  lemma PunctualDateRecoveredIff(tz: int, date: Date, scheduled: int)
    requires 0 <= scheduled
    ensures ServiceDate(tz, PlannedTime(tz, date, scheduled), scheduled) == date <==> scheduled < 2 * DAY
  {
    DateRecoveredIff(tz, date, scheduled, 0);
  }
}
