/** Time as the OEE modules use it: instants and durations are integers (nanoseconds since the
    Unix epoch), and a zone is a fixed offset from UTC, so every calendar day has 1440 minutes. */
module Instants {

  // One minute and one day in nanoseconds, as functions with literal coefficients.
  function Minutes(n: int): int { n * 60_000_000_000 }

  function Days(n: int): int { n * 86_400_000_000_000 }

  /** A half-open interval [from, to). */
  datatype Window = Window(from: int, to: int)

  function Max(a: int, b: int): int { if a > b then a else b }

  function Min(a: int, b: int): int { if a < b then a else b }

  /** The number of the calendar day that contains t, in a zone that is `zone` ahead of UTC. */
  function DayOf(zone: int, t: int): int { (t + zone) / 86_400_000_000_000 }

  /** The instant at which calendar day d begins in that zone. */
  function DayStart(zone: int, d: int): int { Days(d) - zone }

  /** Sunday is 0; day 0 of the epoch was a Thursday. */
  function Weekday(d: int): int { (d + 4) % 7 }

  lemma DayOfBounds(zone: int, t: int)
    ensures DayStart(zone, DayOf(zone, t)) <= t < DayStart(zone, DayOf(zone, t) + 1)
  {
  }

  lemma DayOfUnique(zone: int, t: int, d: int)
    requires DayStart(zone, d) <= t < DayStart(zone, d + 1)
    ensures DayOf(zone, t) == d
  {
  }
}
