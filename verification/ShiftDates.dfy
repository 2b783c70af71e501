/** Planned time against the calendar: which days a shift is worked on, counted from a dated Monday in
    nanoseconds, without weekday arithmetic of the scan's own. */
module ShiftDates {
  import opened Instants
  import opened Shifts
  import opened ShiftMeasure
  import opened ShiftWeek

  /** Midnight of local day k, where day 0 is Monday, 1 January 2024 (1704067200 seconds after the Unix epoch
      in UTC), in a zone that is `zone` ahead of UTC. */
  function Midnight(zone: int, k: int): int { 1_704_067_200_000_000_000 - zone + k * 86_400_000_000_000 }

  /** The calendar asks for a shift on day k: 0 is Sunday, so day 0 has number 1. */
  predicate Listed(s: Shift, k: int) { s.weekdays == [] || (k + 1) % 7 in s.weekdays }

  /** t lies in the shift that starts on day k, minutes after its midnight, and in none of that day's breaks. */
  predicate WorkedOn(s: Shift, k: int, t: int) {
    var day := Midnight(s.zone, k);
    && day + s.startMin * 60_000_000_000 <= t < day + s.endMin * 60_000_000_000
    && forall b | b in s.breaks :: !(day + b.startMin * 60_000_000_000 <= t < day + b.endMin * 60_000_000_000)
  }

  ghost predicate Worked(s: Shift, t: int) { exists k :: Listed(s, k) && WorkedOn(s, k, t) }

  /** The number of worked instants of [lo, hi). */
  ghost function WorkedCount(s: Shift, lo: int, hi: int): nat
    decreases hi - lo
  {
    if hi <= lo then 0 else WorkedCount(s, lo, hi - 1) + if Worked(s, hi - 1) then 1 else 0
  }

  /** Instant 0 fell on a Thursday in UTC, and day 19723 of the epoch is that Monday. */
  lemma DatedWeekdays(zone: int, k: int)
    ensures Weekday(DayOf(0, 0)) == 4
    ensures Weekday(DayOf(0, 1_704_067_200_000_000_000)) == 1
    ensures DayStart(zone, 19723 + k) == Midnight(zone, k) && Weekday(19723 + k) == (k + 1) % 7
  {
  }

  lemma DatedDay(s: Shift, k: int, t: int)
    ensures Active(s, 19723 + k) <==> Listed(s, k)
    ensures Productive(s, 19723 + k, t) <==> WorkedOn(s, k, t)
  {
    DatedWeekdays(s.zone, k);
    forall b | b in s.breaks
      ensures InBreak(b, DayStart(s.zone, 19723 + k), t)
         <==> Midnight(s.zone, k) + b.startMin * 60_000_000_000 <= t < Midnight(s.zone, k) + b.endMin * 60_000_000_000
    {
    }
  }

  lemma WorkingIsDated(s: Shift, t: int)
    ensures Working(s, t) <==> Worked(s, t)
  {
    if Working(s, t) {
      var d :| Active(s, d) && Productive(s, d, t);
      DatedDay(s, d - 19723, t);
    }
    if Worked(s, t) {
      var k :| Listed(s, k) && WorkedOn(s, k, t);
      DatedDay(s, k, t);
    }
  }

  lemma {:induction false} WorkedIsWorking(s: Shift, lo: int, hi: int)
    ensures WorkedCount(s, lo, hi) == WorkingCount(s, lo, hi)
    decreases hi - lo
  {
    if lo < hi {
      WorkedIsWorking(s, lo, hi - 1);
      WorkingIsDated(s, hi - 1);
    }
  }

  /** Planned time is the number of instants worked by the calendar, on every window, exactly when no instant
      is productive on two active days and every active day is clean. */
  lemma PlannedTimeIsDated(s: Shift)
    requires Scannable(s)
    ensures (forall w: Window :: PlannedTime(s, w) == WorkedCount(s, w.from, w.to))
       <==> Once(s) && forall d | Active(s, d) :: Clean(s, d)
  {
    PlannedTimeMeasureIff(s);
    forall w: Window ensures WorkedCount(s, w.from, w.to) == WorkingCount(s, w.from, w.to) {
      WorkedIsWorking(s, w.from, w.to);
    }
  }

  // ----- one civil day -----

  /** The minutes of [lo, hi) after midnight that are in no break. */
  function FreeMinutes(breaks: seq<Break>, lo: int, hi: int): nat
    decreases hi - lo
  {
    if hi <= lo then 0 else
      FreeMinutes(breaks, lo, hi - 1)
      + if exists b :: b in breaks && b.startMin <= hi - 1 < b.endMin then 0 else 1
  }

  lemma {:induction false} BreakMinute(breaks: seq<Break>, lo: int, m: int)
    requires lo <= m
    ensures BreakTime(breaks, 0, Minutes(lo), Minutes(m + 1))
         == BreakTime(breaks, 0, Minutes(lo), Minutes(m)) + 60_000_000_000 * Hits(breaks, 0, Minutes(m))
  {
    if breaks != [] { BreakMinute(breaks[..|breaks| - 1], lo, m); }
  }

  lemma {:induction false} NetIsFreeMinutes(s: Shift, hi: int)
    requires DisjointBreaks(s) && s.startMin <= hi
    ensures Minutes(hi - s.startMin) - BreakTime(s.breaks, 0, Minutes(s.startMin), Minutes(hi))
         == 60_000_000_000 * FreeMinutes(s.breaks, s.startMin, hi)
    decreases hi - s.startMin
  {
    if hi == s.startMin {
      BreakTimeEmpty(s.breaks, 0, Minutes(hi));
    } else {
      NetIsFreeMinutes(s, hi - 1);
      BreakMinute(s.breaks, s.startMin, hi - 1);
      DisjointHits(s.breaks, 0, Minutes(hi - 1));
      HitsZero(s.breaks, 0, Minutes(hi - 1));
      MinuteFree(s.breaks, hi - 1);
    }
  }

  lemma MinuteFree(breaks: seq<Break>, m: int)
    ensures (forall b | b in breaks :: !InBreak(b, 0, Minutes(m)))
       <==> !exists b :: b in breaks && b.startMin <= m < b.endMin
  {
    assert forall b: Break :: InBreak(b, 0, Minutes(m)) <==> b.startMin <= m < b.endMin;
  }

  /** A shift within its own day, over the civil day that lies k days after the dated Monday: its free minutes
      if its list is empty or names that weekday, and nothing otherwise. */
  lemma CivilDayPlan(s: Shift, k: int)
    requires DisjointBreaks(s) && 0 <= s.startMin <= s.endMin <= 1440
    ensures PlannedTime(s, Window(Midnight(s.zone, k), Midnight(s.zone, k + 1)))
         == if s.weekdays == [] || (k + 1) % 7 in s.weekdays
            then 60_000_000_000 * FreeMinutes(s.breaks, s.startMin, s.endMin) else 0
  {
    var d := 19723 + k;
    var w := Window(Midnight(s.zone, k), Midnight(s.zone, k + 1));
    DatedWeekdays(s.zone, k);
    DatedWeekdays(s.zone, k + 1);
    CivilDaySum(s, d);
    WholeShift(s, d, w.from, w.to);
    TimeOnDayCounts(s, d, w.from, w.to);
    NetIsFreeMinutes(s, s.endMin);
  }

  lemma CivilDaySum(s: Shift, d: int)
    requires 0 <= s.startMin <= s.endMin <= 1440
    ensures var w := Window(DayStart(s.zone, d), DayStart(s.zone, d + 1));
      PlannedTime(s, w) == if Active(s, d) then TimeOnDay(s, d, w) else 0
  {
    var w := Window(DayStart(s.zone, d), DayStart(s.zone, d + 1));
    DayOfUnique(s.zone, w.from, d);
    DayOfUnique(s.zone, w.to, d + 1);
    OtherDayIsZero(s, d - 1, d);
    OtherDayIsZero(s, d + 1, d);
    OtherDayIsZero(s, d + 2, d);
    assert DaySum(s, w, d - 1, d - 1) == 0;
    assert DaySum(s, w, d - 1, d) == 0;
    assert DaySum(s, w, d - 1, d + 3) == DaySum(s, w, d - 1, d + 1);
  }

  lemma OtherDayIsZero(s: Shift, d: int, day: int)
    requires 0 <= s.startMin <= s.endMin <= 1440 && d != day
    ensures TimeOnDay(s, d, Window(DayStart(s.zone, day), DayStart(s.zone, day + 1))) == 0
  {
  }

  /** A shift listed for one weekday is worked on exactly the civil days that lie whole weeks from a dated day of
      that weekday: k counts from a Monday, so weekday wd first comes wd - 1 days later. */
  lemma OneWeekdayPlan(s: Shift, wd: int, k: int)
    requires DisjointBreaks(s) && 0 <= s.startMin <= s.endMin <= 1440 && 0 <= wd < 7 && s.weekdays == [wd]
    requires FreeMinutes(s.breaks, s.startMin, s.endMin) > 0
    ensures var planned := PlannedTime(s, Window(Midnight(s.zone, k), Midnight(s.zone, k + 1)));
      && (planned == 60_000_000_000 * FreeMinutes(s.breaks, s.startMin, s.endMin) <==> (k - (wd - 1)) % 7 == 0)
      && (planned == 0 <==> (k - (wd - 1)) % 7 != 0)
  {
    CivilDayPlan(s, k);
    WeeksApart(wd, k);
  }

  lemma WeeksApart(wd: int, k: int)
    requires 0 <= wd < 7
    ensures (k + 1) % 7 == wd <==> (k - (wd - 1)) % 7 == 0
  {
  }
}
