/** The daily window, 08:30 to 10:30 inclusive, in which the poll accepts votes. */
module PollWindow {

  type Hour = h: int | 0 <= h < 24
  type Minute = m: int | 0 <= m < 60

  /**
   * A reading of the session clock: the local hour and minute that decide the window,
   * and the epoch milliseconds that are stored as a vote's timestamp.
   */
  datatype Instant = Instant(hours: Hour, minutes: Minute, millis: int)

  /** 08:30 and 10:30 as minutes since midnight. */
  const OPEN_AT: int := 8 * 60 + 30
  const CLOSE_AT: int := 10 * 60 + 30

  /** Minutes since local midnight; hours and minutes are recovered from it. */
  function TotalMinutes(t: Instant): (m: nat)
    ensures m < 24 * 60
    ensures m / 60 == t.hours && m % 60 == t.minutes
  {
    t.hours * 60 + t.minutes
  }

  /** Whether the poll is open at `t`: judged on the clock face, the date is ignored. */
  function IsTimeInRange(t: Instant): (open: bool)
    ensures open <==> (t.hours == 8 && 30 <= t.minutes) || t.hours == 9 || (t.hours == 10 && t.minutes <= 30)
  {
    OPEN_AT <= TotalMinutes(t) && TotalMinutes(t) <= CLOSE_AT
  }

  /** Both bounds belong to the window; the minutes just outside do not. */
  lemma BoundaryTimes(millis: int)
    ensures IsTimeInRange(Instant(8, 30, millis)) && IsTimeInRange(Instant(10, 30, millis))
    ensures !IsTimeInRange(Instant(8, 29, millis)) && !IsTimeInRange(Instant(10, 31, millis))
  {
  }

  /** The simulated-time presets behave as their labels say. */
  lemma PresetTimes(millis: int)
    ensures !IsTimeInRange(Instant(8, 0, millis))
    ensures IsTimeInRange(Instant(9, 0, millis))
    ensures IsTimeInRange(Instant(10, 25, millis))
    ensures !IsTimeInRange(Instant(11, 0, millis))
  {
  }
}
