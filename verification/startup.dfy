/** The start-up wait of `main` in main.py: started late in the evening, the
    engine sleeps until 05:30 local time before it polls. Local time is a
    count of seconds since a local midnight, every day 86400 seconds long. */
module Startup {
  import opened Outcomes

  const SecondsPerDay: int := 86400
  const SecondsPerHour: int := 3600

  /** Past this local hour the engine waits for the morning. */
  const LatestStartHour: int := 20

  /** 05:30, in seconds after midnight. */
  const WakeTimeOfDay: int := 5 * SecondsPerHour + 30 * 60

  /** `tm_hour` of the local time `now`. */
  function LocalHour(now: int): (h: int)
    ensures 0 <= h < 24
  {
    (now % SecondsPerDay) / SecondsPerHour
  }

  /** The instant `main` sleeps until, or `None` when it starts at once: only
      outside debug mode and after 20:59 does it wait, and then until the
      next 05:30. */
  function WakeInstant(debug: bool, now: int): (r: Option<int>)
    ensures r.Some? <==> !debug && LocalHour(now) > LatestStartHour
    ensures r.Some? ==> r.value % SecondsPerDay == WakeTimeOfDay
    ensures r.Some? ==> now < r.value <= now + SecondsPerDay
    ensures r.Some? ==> WakeTimeOfDay < r.value - now <= WakeTimeOfDay + 3 * SecondsPerHour
  {
    if debug || LocalHour(now) <= LatestStartHour then
      None
    else
      var start := now - now % SecondsPerDay + WakeTimeOfDay;
      Some(if start < now then start + SecondsPerDay else start)
  }

  /** The wake instant is the earliest 05:30 that is not before `now`. */
  lemma WakeIsEarliest(debug: bool, now: int, t: int)
    requires WakeInstant(debug, now).Some?
    requires t >= now && t % SecondsPerDay == WakeTimeOfDay
    ensures WakeInstant(debug, now).value <= t
  {
    var w := WakeInstant(debug, now).value;
    var day := t / SecondsPerDay;
    assert t == day * SecondsPerDay + WakeTimeOfDay;
    assert w == (now / SecondsPerDay + 1) * SecondsPerDay + WakeTimeOfDay;
  }
}
