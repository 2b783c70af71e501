/** Planned production time of a shift: the day scan, the clipping to a window and the subtraction
    of breaks, as loops, each proved against the sum it computes. What those sums mean is proved
    in ShiftMeasure and ShiftWeek. */
module Shifts {
  import opened Instants

  datatype Break = Break(startMin: int, endMin: int)

  /** `weekdays` empty means every day. `endMin` may exceed 1440 for a shift that ends the next day. */
  datatype Shift = Shift(startMin: int, endMin: int, weekdays: seq<int>, breaks: seq<Break>, zone: int)

  function ShiftStart(s: Shift, d: int): int { DayStart(s.zone, d) + Minutes(s.startMin) }

  function ShiftEnd(s: Shift, d: int): int { DayStart(s.zone, d) + Minutes(s.endMin) }

  predicate Active(s: Shift, d: int) {
    |s.weekdays| == 0 || Weekday(d) in s.weekdays
  }

  /** Length of the intersection of [aStart, aEnd) and [bStart, bEnd). */
  function Overlap(aStart: int, aEnd: int, bStart: int, bEnd: int): int {
    Max(0, Min(aEnd, bEnd) - Max(aStart, bStart))
  }

  /** Total overlap of the breaks with [from, to) on the day that starts at `day`; an instant in two
      breaks is counted twice. */
  function BreakTime(breaks: seq<Break>, day: int, from: int, to: int): int {
    if breaks == [] then 0 else
      var b := breaks[|breaks| - 1];
      BreakTime(breaks[..|breaks| - 1], day, from, to)
      + Overlap(day + Minutes(b.startMin), day + Minutes(b.endMin), from, to)
  }

  /** Worked span of day d inside the window minus its break time, before clamping at zero. */
  function Net(s: Shift, d: int, w: Window): int {
    var from := Max(ShiftStart(s, d), w.from);
    var to := Min(ShiftEnd(s, d), w.to);
    if to <= from then 0 else to - from - BreakTime(s.breaks, DayStart(s.zone, d), from, to)
  }

  function TimeOnDay(s: Shift, d: int, w: Window): int { Max(0, Net(s, d, w)) }

  /** Sum of TimeOnDay over the active days of [lo, hi). */
  function DaySum(s: Shift, w: Window, lo: int, hi: int): int
    decreases hi - lo
  {
    if hi <= lo then 0 else
      DaySum(s, w, lo, hi - 1) + if Active(s, hi - 1) then TimeOnDay(s, hi - 1, w) else 0
  }

  function FirstDay(s: Shift, w: Window): int { DayOf(s.zone, w.from) - 1 }

  function LastDay(s: Shift, w: Window): int { DayOf(s.zone, w.to) + 1 }

  function PlannedTime(s: Shift, w: Window): int {
    if w.to <= w.from then 0 else DaySum(s, w, FirstDay(s, w), LastDay(s, w) + 1)
  }

  method WeekdaySet(weekdays: seq<int>) returns (days: set<int>)
    ensures forall wd :: wd in days <==> wd in weekdays
  {
    days := {};
    for i := 0 to |weekdays|
      invariant forall wd :: wd in days <==> wd in weekdays[..i]
    {
      days := days + {weekdays[i]};
    }
  }

  method PlannedTimeOnDay(s: Shift, ghost d: int, day: int, w: Window) returns (worked: int)
    requires day == DayStart(s.zone, d)
    ensures worked == TimeOnDay(s, d, w)
  {
    var shiftStart := day + Minutes(s.startMin);
    var shiftEnd := day + Minutes(s.endMin);
    var workedFrom := Max(shiftStart, w.from);
    var workedTo := Min(shiftEnd, w.to);
    if workedTo <= workedFrom {
      return 0;
    }
    worked := workedTo - workedFrom;
    for i := 0 to |s.breaks|
      invariant worked == workedTo - workedFrom - BreakTime(s.breaks[..i], day, workedFrom, workedTo)
    {
      var b := s.breaks[i];
      assert s.breaks[..i + 1][..i] == s.breaks[..i];
      worked := worked - Overlap(day + Minutes(b.startMin), day + Minutes(b.endMin), workedFrom, workedTo);
    }
    assert s.breaks[..|s.breaks|] == s.breaks;
    if worked < 0 {
      return 0;
    }
  }

  /** The scan starts a day before the window's first calendar day and ends a day after its last. */
  method PlannedProductionTime(s: Shift, w: Window) returns (total: int)
    ensures total == PlannedTime(s, w)
  {
    if w.to <= w.from {
      return 0;
    }
    var weekdays := WeekdaySet(s.weekdays);
    var everyDay := |s.weekdays| == 0;
    var lastDay := DayStart(s.zone, DayOf(s.zone, w.to)) + Days(1);
    total := 0;
    ghost var d := FirstDay(s, w);
    var day := DayStart(s.zone, DayOf(s.zone, w.from)) - Days(1);
    while day <= lastDay
      invariant day == DayStart(s.zone, d) && FirstDay(s, w) <= d <= LastDay(s, w) + 1
      invariant total == DaySum(s, w, FirstDay(s, w), d)
      decreases LastDay(s, w) + 1 - d
    {
      DayOfUnique(s.zone, day, d);
      if everyDay || Weekday(DayOf(s.zone, day)) in weekdays {
        var t := PlannedTimeOnDay(s, d, day, w);
        total := total + t;
      }
      day, d := day + Days(1), d + 1;
    }
  }
}
