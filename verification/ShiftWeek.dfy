/** Planned time over any seven consecutive days: the number of active weekdays times the shift's
    net length, at whatever instant the window starts and wherever it cuts a shift in two. */
module ShiftWeek {
  import opened Instants
  import opened Shifts
  import opened ShiftMeasure

  /** Weekday numbers outside 0..6 never match a day. */
  function ActiveWeekdays(s: Shift): set<int> {
    set wd | 0 <= wd < 7 && (|s.weekdays| == 0 || wd in s.weekdays)
  }

  /** Shift length minus the break time inside the shift. */
  function NetShiftTime(s: Shift): int {
    Minutes(s.endMin - s.startMin) - BreakTime(s.breaks, 0, Minutes(s.startMin), Minutes(s.endMin))
  }

  lemma BreakTimeTranslates(breaks: seq<Break>, day: int, shift: int, from: int, to: int)
    ensures BreakTime(breaks, day + shift, from + shift, to + shift) == BreakTime(breaks, day, from, to)
  {
    if breaks != [] { BreakTimeTranslates(breaks[..|breaks| - 1], day, shift, from, to); }
  }

  /** Planned time depends on the window only up to translation by whole weeks. */
  lemma CountTranslates(s: Shift, d: int, k: int, lo: int, hi: int)
    requires DisjointBreaks(s)
    ensures Count(s, d + k, lo + Days(k), hi + Days(k)) == Count(s, d, lo, hi)
  {
    TimeOnDayCounts(s, d, lo, hi);
    TimeOnDayCounts(s, d + k, lo + Days(k), hi + Days(k));
    var from, to := Max(ShiftStart(s, d), lo), Min(ShiftEnd(s, d), hi);
    BreakTimeTranslates(s.breaks, DayStart(s.zone, d), Days(k), from, to);
  }

  lemma ActiveRepeats(s: Shift, d: int, k: int)
    requires k % 7 == 0
    ensures Active(s, d + k) == Active(s, d)
  {
  }

  lemma DaySumTranslates(s: Shift, k: int, w: Window, first: int, last: int)
    requires DisjointBreaks(s) && k % 7 == 0
    ensures DaySum(s, Window(w.from + Days(k), w.to + Days(k)), first + k, last + k) == DaySum(s, w, first, last)
    decreases last - first
  {
    if first < last {
      var d := last - 1;
      DaySumTranslates(s, k, w, first, d);
      ActiveRepeats(s, d, k);
      CountTranslates(s, d, k, w.from, w.to);
      TimeOnDayCounts(s, d, w.from, w.to);
      TimeOnDayCounts(s, d + k, w.from + Days(k), w.to + Days(k));
      assert d + k == (last + k) - 1;
    }
  }

  lemma PlannedTimeIsWeekPeriodic(s: Shift, k: int, w: Window)
    requires DisjointBreaks(s) && k % 7 == 0
    ensures PlannedTime(s, Window(w.from + Days(k), w.to + Days(k))) == PlannedTime(s, w)
  {
    DayShifts(s.zone, w.from, k);
    DayShifts(s.zone, w.to, k);
    DaySumTranslates(s, k, w, FirstDay(s, w), LastDay(s, w) + 1);
  }

  lemma DayShifts(zone: int, t: int, k: int)
    ensures DayOf(zone, t + Days(k)) == DayOf(zone, t) + k
  {
    DayOfBounds(zone, t);
    DayOfUnique(zone, t + Days(k), DayOf(zone, t) + k);
  }

  /** A window that covers the whole shift of day d counts the shift's net length. */
  lemma WholeShift(s: Shift, d: int, lo: int, hi: int)
    requires DisjointBreaks(s) && s.startMin <= s.endMin
    requires lo <= ShiftStart(s, d) && ShiftEnd(s, d) <= hi
    ensures Count(s, d, lo, hi) == NetShiftTime(s)
  {
    TimeOnDayCounts(s, d, lo, hi);
    BreakTimeTranslates(s.breaks, 0, DayStart(s.zone, d), Minutes(s.startMin), Minutes(s.endMin));
    BreakTimeEmpty(s.breaks, 0, Minutes(s.startMin));
  }

  function Part(s: Shift, d: int, a: int): int {
    if Active(s, d) then Count(s, d, a, a + Days(7)) else 0
  }

  lemma TenDays(s: Shift, a: int, d: int)
    requires DisjointBreaks(s)
    ensures DaySum(s, Window(a, a + Days(7)), d - 1, d + 9)
         == Part(s, d - 1, a) + Part(s, d, a) + Part(s, d + 1, a) + Part(s, d + 2, a) + Part(s, d + 3, a)
          + Part(s, d + 4, a) + Part(s, d + 5, a) + Part(s, d + 6, a) + Part(s, d + 7, a) + Part(s, d + 8, a)
  {
    var w := Window(a, a + Days(7));
    DayPart(s, w, d - 1, d + 8);
    DayPart(s, w, d - 1, d + 7);
    DayPart(s, w, d - 1, d + 6);
    DayPart(s, w, d - 1, d + 5);
    DayPart(s, w, d - 1, d + 4);
    DayPart(s, w, d - 1, d + 3);
    DayPart(s, w, d - 1, d + 2);
    DayPart(s, w, d - 1, d + 1);
    DayPart(s, w, d - 1, d);
    DayPart(s, w, d - 1, d - 1);
  }

  lemma DayPart(s: Shift, w: Window, first: int, d: int)
    requires DisjointBreaks(s) && first <= d && w.to == w.from + Days(7)
    ensures DaySum(s, w, first, d + 1) == DaySum(s, w, first, d) + Part(s, d, w.from)
    ensures first == d ==> DaySum(s, w, first, d) == 0
  {
    TimeOnDayCounts(s, d, w.from, w.to);
  }

  function Indicator(s: Shift, wd: int): int { if wd in ActiveWeekdays(s) then 1 else 0 }

  lemma WeekdayCount(s: Shift)
    ensures |ActiveWeekdays(s)| == Indicator(s, 0) + Indicator(s, 1) + Indicator(s, 2) + Indicator(s, 3)
                                 + Indicator(s, 4) + Indicator(s, 5) + Indicator(s, 6)
  {
    UpTo(s, 0); UpTo(s, 1); UpTo(s, 2); UpTo(s, 3); UpTo(s, 4); UpTo(s, 5); UpTo(s, 6);
    assert (set wd | wd in ActiveWeekdays(s) && wd < 7) == ActiveWeekdays(s);
    assert (set wd | wd in ActiveWeekdays(s) && wd < 0) == {};
  }

  lemma UpTo(s: Shift, n: int)
    ensures |set wd | wd in ActiveWeekdays(s) && wd < n + 1|
         == |set wd | wd in ActiveWeekdays(s) && wd < n| + Indicator(s, n)
  {
    var below := set wd | wd in ActiveWeekdays(s) && wd < n;
    var upTo := set wd | wd in ActiveWeekdays(s) && wd < n + 1;
    assert upTo == if n in ActiveWeekdays(s) then below + {n} else below;
  }

  lemma NextWeekday(d: int)
    ensures Weekday(d + 1) == if Weekday(d) == 6 then 0 else Weekday(d) + 1
  {
  }

  /** Seven consecutive days meet every weekday once. */
  lemma SevenDays(s: Shift, d: int)
    ensures |ActiveWeekdays(s)|
         == Indicator(s, Weekday(d)) + Indicator(s, Weekday(d + 1)) + Indicator(s, Weekday(d + 2))
          + Indicator(s, Weekday(d + 3)) + Indicator(s, Weekday(d + 4)) + Indicator(s, Weekday(d + 5))
          + Indicator(s, Weekday(d + 6))
  {
    WeekdayCount(s);
    NextWeekday(d);
    NextWeekday(d + 1);
    NextWeekday(d + 2);
    NextWeekday(d + 3);
    NextWeekday(d + 4);
    NextWeekday(d + 5);
    var x := Weekday(d);
    assert x == 0 || x == 1 || x == 2 || x == 3 || x == 4 || x == 5 || x == 6;
  }

  lemma WholePart(s: Shift, d: int, a: int)
    requires DisjointBreaks(s) && s.startMin <= s.endMin
    requires a <= ShiftStart(s, d) && ShiftEnd(s, d) <= a + Days(7)
    ensures Part(s, d, a) == Indicator(s, Weekday(d)) * NetShiftTime(s)
  {
    WholeShift(s, d, a, a + Days(7));
    ActiveIsIndicator(s, d);
  }

  lemma ActiveIsIndicator(s: Shift, d: int)
    ensures Indicator(s, Weekday(d)) == if Active(s, d) then 1 else 0
  {
  }

  /** Two days a week apart, one cut by the window's start and the other by its end, make one shift. */
  lemma SplitParts(s: Shift, d: int, a: int)
    requires DisjointBreaks(s) && s.startMin <= s.endMin
    requires || (a <= ShiftStart(s, d + 7) && ShiftEnd(s, d + 7) <= a + Days(14))
             || (a - Days(7) <= ShiftStart(s, d) && ShiftEnd(s, d) <= a + Days(7))
    ensures Part(s, d, a) + Part(s, d + 7, a) == Indicator(s, Weekday(d)) * NetShiftTime(s)
  {
    ActiveRepeats(s, d, 7);
    ActiveIsIndicator(s, d);
    if a <= ShiftStart(s, d + 7) && ShiftEnd(s, d + 7) <= a + Days(14) {
      CountTranslates(s, d, 7, a, a + Days(7));
      CountSplit(s, d + 7, a, a + Days(7), a + Days(14));
      WholeShift(s, d + 7, a, a + Days(14));
    } else {
      CountTranslates(s, d, 7, a - Days(7), a);
      CountSplit(s, d, a - Days(7), a, a + Days(7));
      WholeShift(s, d, a - Days(7), a + Days(7));
    }
  }

  lemma WeekParts(s: Shift, a: int, d: int)
    requires DisjointBreaks(s) && 0 <= s.startMin <= s.endMin <= 2880 && d == DayOf(s.zone, a)
    ensures DaySum(s, Window(a, a + Days(7)), d - 1, d + 9)
         == Indicator(s, Weekday(d - 1)) * NetShiftTime(s) + Indicator(s, Weekday(d)) * NetShiftTime(s)
          + Indicator(s, Weekday(d + 1)) * NetShiftTime(s) + Indicator(s, Weekday(d + 2)) * NetShiftTime(s)
          + Indicator(s, Weekday(d + 3)) * NetShiftTime(s) + Indicator(s, Weekday(d + 4)) * NetShiftTime(s)
          + Indicator(s, Weekday(d + 5)) * NetShiftTime(s)
  {
    DayOfBounds(s.zone, a);
    TenDays(s, a, d);
    SplitParts(s, d - 1, a);
    SplitParts(s, d, a);
    SplitParts(s, d + 1, a);
    WholePart(s, d + 2, a);
    WholePart(s, d + 3, a);
    WholePart(s, d + 4, a);
    WholePart(s, d + 5, a);
  }

  /** The week theorem. */
  lemma WeekTotal(s: Shift, a: int)
    requires DisjointBreaks(s) && 0 <= s.startMin <= s.endMin <= 2880
    ensures PlannedTime(s, Window(a, a + Days(7))) == |ActiveWeekdays(s)| * NetShiftTime(s)
  {
    var d := DayOf(s.zone, a);
    DayShifts(s.zone, a, 7);
    WeekParts(s, a, d);
    SevenDays(s, d - 1);
    Distribute(NetShiftTime(s), Indicator(s, Weekday(d - 1)), Indicator(s, Weekday(d)), Indicator(s, Weekday(d + 1)),
               Indicator(s, Weekday(d + 2)), Indicator(s, Weekday(d + 3)), Indicator(s, Weekday(d + 4)),
               Indicator(s, Weekday(d + 5)));
  }

  lemma Distribute(n: int, a: int, b: int, c: int, d: int, e: int, f: int, g: int)
    ensures (a + b + c + d + e + f + g) * n == a * n + b * n + c * n + d * n + e * n + f * n + g * n
  {
  }
}
