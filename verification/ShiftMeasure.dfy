/** Planned time measures a set of instants. The reference definitions here mention no scan, no
    clipping and no clamp: an instant is productive on day d when it lies in that day's shift and in
    none of that day's breaks, and planned time counts such instants. */
module ShiftMeasure {
  import opened Instants
  import opened Shifts

  predicate InShift(s: Shift, d: int, t: int) { ShiftStart(s, d) <= t < ShiftEnd(s, d) }

  predicate InBreak(b: Break, day: int, t: int) {
    day + Minutes(b.startMin) <= t < day + Minutes(b.endMin)
  }

  predicate Productive(s: Shift, d: int, t: int) {
    InShift(s, d, t) && forall b | b in s.breaks :: !InBreak(b, DayStart(s.zone, d), t)
  }

  /** t is planned production time: productive on some active day. */
  ghost predicate Working(s: Shift, t: int) {
    exists d :: Active(s, d) && Productive(s, d, t)
  }

  /** The number of instants of [lo, hi) that are productive on day d. */
  function Count(s: Shift, d: int, lo: int, hi: int): nat
    decreases hi - lo
  {
    if hi <= lo then 0 else Count(s, d, lo, hi - 1) + if Productive(s, d, hi - 1) then 1 else 0
  }

  /** The number of working instants of [lo, hi). */
  ghost function WorkingCount(s: Shift, lo: int, hi: int): nat
    decreases hi - lo
  {
    if hi <= lo then 0 else WorkingCount(s, lo, hi - 1) + if Working(s, hi - 1) then 1 else 0
  }

  /** Two breaks that share no instant; an empty break is disjoint from every break. */
  predicate Disjoint(a: Break, b: Break) {
    a.endMin <= b.startMin || b.endMin <= a.startMin || a.endMin <= a.startMin || b.endMin <= b.startMin
  }

  predicate DisjointBreaks(s: Shift) {
    forall i, j :: 0 <= i < j < |s.breaks| ==> Disjoint(s.breaks[i], s.breaks[j])
  }

  /** The day scan reaches every shift that can meet the window, and shifts of two days never overlap. */
  predicate Scannable(s: Shift) { -1440 <= s.startMin && s.endMin <= 2880 }

  predicate AtMostADay(s: Shift) { s.endMin - s.startMin <= 1440 }

  // ----- one day: the clipped span minus break overlaps against the count -----

  function Hits(breaks: seq<Break>, day: int, t: int): nat {
    if breaks == [] then 0 else
      Hits(breaks[..|breaks| - 1], day, t) + if InBreak(breaks[|breaks| - 1], day, t) then 1 else 0
  }

  lemma BreakTimeEmpty(breaks: seq<Break>, day: int, t: int)
    ensures BreakTime(breaks, day, t, t) == 0
  {
  }

  lemma BreakTimeStep(breaks: seq<Break>, day: int, from: int, t: int)
    requires from <= t
    ensures BreakTime(breaks, day, from, t + 1) == BreakTime(breaks, day, from, t) + Hits(breaks, day, t)
  {
    if breaks != [] { BreakTimeStep(breaks[..|breaks| - 1], day, from, t); }
  }

  lemma HitsZero(breaks: seq<Break>, day: int, t: int)
    ensures Hits(breaks, day, t) == 0 <==> forall b | b in breaks :: !InBreak(b, day, t)
  {
    if breaks != [] {
      HitsZero(breaks[..|breaks| - 1], day, t);
      assert breaks == breaks[..|breaks| - 1] + [breaks[|breaks| - 1]];
    }
  }

  lemma DisjointHits(breaks: seq<Break>, day: int, t: int)
    requires forall i, j :: 0 <= i < j < |breaks| ==> Disjoint(breaks[i], breaks[j])
    ensures Hits(breaks, day, t) <= 1
  {
    if breaks != [] {
      var n := |breaks| - 1;
      DisjointHits(breaks[..n], day, t);
      if InBreak(breaks[n], day, t) {
        forall b | b in breaks[..n] ensures !InBreak(b, day, t) {
          var i :| 0 <= i < n && breaks[i] == b;
          assert Disjoint(breaks[i], breaks[n]);
        }
        HitsZero(breaks[..n], day, t);
      }
    }
  }

  lemma NetStep(s: Shift, d: int, lo: int, hi: int)
    requires lo <= hi
    ensures Net(s, d, Window(lo, hi + 1))
         == Net(s, d, Window(lo, hi)) + if InShift(s, d, hi) then 1 - Hits(s.breaks, DayStart(s.zone, d), hi) else 0
  {
    var day, from := DayStart(s.zone, d), Max(ShiftStart(s, d), lo);
    if InShift(s, d, hi) {
      BreakTimeStep(s.breaks, day, from, hi);
      BreakTimeEmpty(s.breaks, day, from);
    }
  }

  /** For every break list, overlapping ones included, the unclamped value never exceeds the count;
      it falls short exactly when some counted instant of the shift lies in two breaks. */
  lemma NetAgainstCount(s: Shift, d: int, lo: int, hi: int)
    ensures Net(s, d, Window(lo, hi)) <= Count(s, d, lo, hi)
    ensures Net(s, d, Window(lo, hi)) == Count(s, d, lo, hi)
       <==> forall t :: lo <= t < hi && InShift(s, d, t) ==> Hits(s.breaks, DayStart(s.zone, d), t) <= 1
    decreases hi - lo
  {
    if lo < hi {
      NetAgainstCount(s, d, lo, hi - 1);
      NetStep(s, d, lo, hi - 1);
      HitsZero(s.breaks, DayStart(s.zone, d), hi - 1);
    }
  }

  /** With disjoint breaks the clamp in plannedTimeOnDay never fires and the value is the count. */
  lemma TimeOnDayCounts(s: Shift, d: int, lo: int, hi: int)
    requires DisjointBreaks(s)
    ensures Net(s, d, Window(lo, hi)) >= 0
    ensures TimeOnDay(s, d, Window(lo, hi)) == Count(s, d, lo, hi)
  {
    forall t { DisjointHits(s.breaks, DayStart(s.zone, d), t); }
    NetAgainstCount(s, d, lo, hi);
  }

  /** No instant of day d's shift lies in two breaks, or the breaks leave nothing of the shift. */
  ghost predicate Clean(s: Shift, d: int) {
    || (forall t :: InShift(s, d, t) ==> Hits(s.breaks, DayStart(s.zone, d), t) <= 1)
    || (forall t :: !Productive(s, d, t))
  }

  /** Exactly when a day's value is right on every window. */
  lemma TimeOnDayExact(s: Shift, d: int)
    ensures (forall lo, hi :: TimeOnDay(s, d, Window(lo, hi)) == Count(s, d, lo, hi)) <==> Clean(s, d)
  {
    var day := DayStart(s.zone, d);
    if t, u :| InShift(s, d, t) && Hits(s.breaks, day, t) >= 2 && Productive(s, d, u) {
      var lo, hi := Min(t, u), Max(t, u) + 1;
      NetAgainstCount(s, d, lo, hi);
      CountPositive(s, d, lo, hi, u);
      assert TimeOnDay(s, d, Window(lo, hi)) != Count(s, d, lo, hi);
    } else {
      forall lo, hi ensures TimeOnDay(s, d, Window(lo, hi)) == Count(s, d, lo, hi) {
        NetAgainstCount(s, d, lo, hi);
        if exists t :: InShift(s, d, t) && Hits(s.breaks, day, t) >= 2 {
          CountNone(s, d, lo, hi);
        }
      }
    }
  }

  lemma CountPositive(s: Shift, d: int, lo: int, hi: int, u: int)
    requires lo <= u < hi && Productive(s, d, u)
    ensures Count(s, d, lo, hi) > 0
    decreases hi - lo
  {
    if u < hi - 1 { CountPositive(s, d, lo, hi - 1, u); }
  }

  lemma CountNone(s: Shift, d: int, lo: int, hi: int)
    requires forall t | lo <= t < hi :: !Productive(s, d, t)
    ensures Count(s, d, lo, hi) == 0
    decreases hi - lo
  {
    if lo < hi {
      assert !Productive(s, d, hi - 1);
      CountNone(s, d, lo, hi - 1);
    }
  }

  lemma CountSplit(s: Shift, d: int, a: int, b: int, c: int)
    requires a <= b <= c
    ensures Count(s, d, a, c) == Count(s, d, a, b) + Count(s, d, b, c)
    decreases c - b
  {
    if b < c { CountSplit(s, d, a, b, c - 1); }
  }

  // ----- all days: the scan range and the sum over days -----

  /** The scan is complete for every window exactly when the shift begins at most one day before and
      ends at most two days after the midnight of its own day. */
  lemma ScanCompleteIff(s: Shift)
    requires s.startMin < s.endMin
    ensures (forall d, w: Window :: w.from < w.to && ShiftStart(s, d) < w.to && w.from < ShiftEnd(s, d)
                        ==> FirstDay(s, w) <= d <= LastDay(s, w))
       <==> Scannable(s)
  {
    if s.endMin > 2880 {
      var w := Window(ShiftEnd(s, 0) - 1, ShiftEnd(s, 0));
      assert w.from < w.to && ShiftStart(s, 0) < w.to && w.from < ShiftEnd(s, 0) && 0 < FirstDay(s, w);
    } else if s.startMin < -1440 {
      var w := Window(ShiftStart(s, 0), ShiftStart(s, 0) + 1);
      assert w.from < w.to && ShiftStart(s, 0) < w.to && w.from < ShiftEnd(s, 0) && LastDay(s, w) < 0;
    }
  }

  lemma UnscannedDayIsZero(s: Shift, d: int, w: Window)
    requires Scannable(s) && w.from <= w.to
    requires d < FirstDay(s, w) || d > LastDay(s, w)
    ensures TimeOnDay(s, d, w) == 0
  {
  }

  /** Widening the scan changes nothing. */
  lemma {:induction false} WiderScan(s: Shift, w: Window, lo: int, hi: int)
    requires Scannable(s) && w.from <= w.to
    requires lo <= FirstDay(s, w) && LastDay(s, w) + 1 <= hi
    ensures DaySum(s, w, lo, hi) == PlannedTime(s, w)
    decreases hi - LastDay(s, w)
  {
    if w.from == w.to {
      EmptyWindow(s, w, lo, hi);
    } else if LastDay(s, w) + 1 < hi {
      UnscannedDayIsZero(s, hi - 1, w);
      WiderScan(s, w, lo, hi - 1);
    } else {
      WiderStart(s, w, lo, hi);
    }
  }

  lemma EmptyWindow(s: Shift, w: Window, lo: int, hi: int)
    requires w.from == w.to
    ensures DaySum(s, w, lo, hi) == 0
    decreases hi - lo
  {
  }

  lemma WiderStart(s: Shift, w: Window, lo: int, hi: int)
    requires Scannable(s) && w.from <= w.to && lo <= FirstDay(s, w)
    ensures DaySum(s, w, lo, hi) == DaySum(s, w, FirstDay(s, w), hi)
    decreases hi - lo
  {
    if lo < hi {
      WiderStart(s, w, lo, hi - 1);
      if hi - 1 < FirstDay(s, w) { UnscannedDayIsZero(s, hi - 1, w); }
    }
  }

  // ----- additivity, and exactly when -----

  predicate AdditiveOnDay(s: Shift, d: int, a: int, b: int, c: int) {
    TimeOnDay(s, d, Window(a, c)) == TimeOnDay(s, d, Window(a, b)) + TimeOnDay(s, d, Window(b, c))
  }

  lemma NetSplit(s: Shift, d: int, a: int, b: int, c: int)
    requires a <= b <= c
    ensures Net(s, d, Window(a, c)) == Net(s, d, Window(a, b)) + Net(s, d, Window(b, c))
    decreases c - b
  {
    if b < c {
      NetSplit(s, d, a, b, c - 1);
      NetStep(s, d, a, c - 1);
      NetStep(s, d, b, c - 1);
    }
  }

  lemma OneInstant(s: Shift, d: int, t: int)
    ensures TimeOnDay(s, d, Window(t, t + 1)) == if Productive(s, d, t) then 1 else 0
  {
    NetStep(s, d, t, t);
    HitsZero(s.breaks, DayStart(s.zone, d), t);
  }

  lemma AdditiveCounts(s: Shift, d: int, lo: int, hi: int)
    requires forall a, b, c :: a <= b <= c ==> AdditiveOnDay(s, d, a, b, c)
    ensures TimeOnDay(s, d, Window(lo, hi)) == Count(s, d, lo, hi)
    decreases hi - lo
  {
    if lo < hi {
      AdditiveCounts(s, d, lo, hi - 1);
      assert AdditiveOnDay(s, d, lo, hi - 1, hi);
      OneInstant(s, d, hi - 1);
    }
  }

  lemma CleanIffAdditive(s: Shift, d: int)
    ensures Clean(s, d) <==> forall a, b, c :: a <= b <= c ==> AdditiveOnDay(s, d, a, b, c)
  {
    TimeOnDayExact(s, d);
    if Clean(s, d) {
      forall a, b, c | a <= b <= c ensures AdditiveOnDay(s, d, a, b, c) { CountSplit(s, d, a, b, c); }
    } else if forall a, b, c :: a <= b <= c ==> AdditiveOnDay(s, d, a, b, c) {
      forall lo, hi ensures TimeOnDay(s, d, Window(lo, hi)) == Count(s, d, lo, hi) { AdditiveCounts(s, d, lo, hi); }
    }
  }

  /** A window cut in two never plans less, and as much exactly when no scanned day clamps differently. */
  lemma {:induction false} DaySumSplit(s: Shift, a: int, b: int, c: int, first: int, last: int)
    requires a <= b <= c
    ensures DaySum(s, Window(a, c), first, last)
         <= DaySum(s, Window(a, b), first, last) + DaySum(s, Window(b, c), first, last)
    ensures DaySum(s, Window(a, c), first, last)
         == DaySum(s, Window(a, b), first, last) + DaySum(s, Window(b, c), first, last)
       <==> forall d | first <= d < last && Active(s, d) :: AdditiveOnDay(s, d, a, b, c)
    decreases last - first
  {
    if first < last {
      DaySumSplit(s, a, b, c, first, last - 1);
      NetSplit(s, last - 1, a, b, c);
    }
  }

  predicate PlannedAdditive(s: Shift, a: int, b: int, c: int) {
    PlannedTime(s, Window(a, c)) == PlannedTime(s, Window(a, b)) + PlannedTime(s, Window(b, c))
  }

  lemma PlannedSplit(s: Shift, a: int, b: int, c: int, first: int, last: int)
    requires Scannable(s) && a <= b <= c
    requires first <= FirstDay(s, Window(a, c)) && LastDay(s, Window(a, c)) < last
    ensures PlannedAdditive(s, a, b, c)
       <==> forall d | first <= d < last && Active(s, d) :: AdditiveOnDay(s, d, a, b, c)
  {
    WiderScan(s, Window(a, c), first, last);
    WiderScan(s, Window(a, b), first, last);
    WiderScan(s, Window(b, c), first, last);
    DaySumSplit(s, a, b, c, first, last);
  }

  /** Planned time adds up over adjacent windows, wherever they are cut, exactly when every active day is
      clean: whatever the shift's length, although the parts scan different days and clamp separately. */
  lemma PlannedTimeAdditiveIff(s: Shift)
    requires Scannable(s)
    ensures (forall a, b, c :: a <= b <= c ==> PlannedAdditive(s, a, b, c)) <==> forall d | Active(s, d) :: Clean(s, d)
  {
    if forall d | Active(s, d) :: Clean(s, d) {
      forall a, b, c | a <= b <= c ensures PlannedAdditive(s, a, b, c) {
        var first, last := FirstDay(s, Window(a, c)), LastDay(s, Window(a, c)) + 1;
        PlannedSplit(s, a, b, c, first, last);
        forall d | first <= d < last && Active(s, d) ensures AdditiveOnDay(s, d, a, b, c) { CleanIffAdditive(s, d); }
      }
    } else {
      var d :| Active(s, d) && !Clean(s, d);
      CleanIffAdditive(s, d);
      var a, b, c :| a <= b <= c && !AdditiveOnDay(s, d, a, b, c);
      var w := Window(a, c);
      PlannedSplit(s, a, b, c, Min(FirstDay(s, w), d), Max(LastDay(s, w), d) + 1);
      assert !PlannedAdditive(s, a, b, c);
    }
  }

  lemma DisjointIsClean(s: Shift)
    requires DisjointBreaks(s)
    ensures forall d :: Clean(s, d)
  {
    forall d ensures Clean(s, d) {
      forall t { DisjointHits(s.breaks, DayStart(s.zone, d), t); }
    }
  }

  /** In particular it adds up for disjoint breaks. */
  lemma PlannedTimeIsAdditive(s: Shift, a: int, b: int, c: int)
    requires Scannable(s) && DisjointBreaks(s) && a <= b <= c
    ensures PlannedTime(s, Window(a, c)) == PlannedTime(s, Window(a, b)) + PlannedTime(s, Window(b, c))
  {
    DisjointIsClean(s);
    PlannedTimeAdditiveIff(s);
    assert PlannedAdditive(s, a, b, c);
  }

  // ----- the measure and the bound, and exactly when -----

  /** No instant is productive on two active days. */
  ghost predicate Once(s: Shift) {
    forall t, d, e :: Active(s, d) && Productive(s, d, t) && Active(s, e) && Productive(s, e, t) ==> d == e
  }

  /** A shift of at most a day never overlaps the next day's. */
  lemma ShortIsOnce(s: Shift)
    requires AtMostADay(s)
    ensures Once(s)
  {
  }

  /** Without breaks: no two active days lie closer together than the shift is long. */
  lemma OnceWithoutBreaks(s: Shift)
    requires s.breaks == []
    ensures Once(s) <==> forall d, e | Active(s, d) && Active(s, e) && d < e :: s.endMin - s.startMin <= 1440 * (e - d)
  {
    if d, e :| Active(s, d) && Active(s, e) && d < e && s.endMin - s.startMin > 1440 * (e - d) {
      assert Productive(s, d, ShiftStart(s, e)) && Productive(s, e, ShiftStart(s, e));
    }
    if t, d, e :| Active(s, d) && Productive(s, d, t) && Active(s, e) && Productive(s, e, t) && d < e {
      assert Days(e - d) < Minutes(s.endMin - s.startMin);
    }
  }

  /** The number of active days of [first, last) on which t is productive. */
  function Multiplicity(s: Shift, t: int, first: int, last: int): nat
    decreases last - first
  {
    if last <= first then 0 else
      Multiplicity(s, t, first, last - 1) + if Active(s, last - 1) && Productive(s, last - 1, t) then 1 else 0
  }

  /** Productive instants of [lo, hi) on the active days of [first, last), counted once for each day. */
  function CountSum(s: Shift, lo: int, hi: int, first: int, last: int): nat
    decreases last - first
  {
    if last <= first then 0 else
      CountSum(s, lo, hi, first, last - 1) + if Active(s, last - 1) then Count(s, last - 1, lo, hi) else 0
  }

  lemma {:induction false} DaySumAgainstCount(s: Shift, lo: int, hi: int, first: int, last: int)
    ensures DaySum(s, Window(lo, hi), first, last) <= CountSum(s, lo, hi, first, last)
    ensures (forall d | Active(s, d) :: Clean(s, d)) ==>
      DaySum(s, Window(lo, hi), first, last) == CountSum(s, lo, hi, first, last)
    decreases last - first
  {
    if first < last {
      DaySumAgainstCount(s, lo, hi, first, last - 1);
      NetAgainstCount(s, last - 1, lo, hi);
      TimeOnDayExact(s, last - 1);
    }
  }

  lemma {:induction false} CountSumStep(s: Shift, lo: int, hi: int, first: int, last: int)
    requires lo <= hi
    ensures CountSum(s, lo, hi + 1, first, last) == CountSum(s, lo, hi, first, last) + Multiplicity(s, hi, first, last)
    decreases last - first
  {
    if first < last { CountSumStep(s, lo, hi, first, last - 1); }
  }

  lemma {:induction false} CountSumEmpty(s: Shift, t: int, first: int, last: int)
    ensures CountSum(s, t, t, first, last) == 0
    decreases last - first
  {
    if first < last { CountSumEmpty(s, t, first, last - 1); }
  }

  /** If shifts do not overlap, an instant is productive on at most one scanned day. */
  lemma {:induction false} MultiplicityIsIndicator(s: Shift, t: int, first: int, last: int)
    requires Once(s)
    ensures Multiplicity(s, t, first, last)
         == if exists d :: first <= d < last && Active(s, d) && Productive(s, d, t) then 1 else 0
    decreases last - first
  {
    if first < last { MultiplicityIsIndicator(s, t, first, last - 1); }
  }

  lemma {:induction false} MultiplicityMonotone(s: Shift, t: int, first: int, mid: int, last: int)
    requires mid <= last
    ensures Multiplicity(s, t, first, mid) <= Multiplicity(s, t, first, last)
    decreases last - mid
  {
    if mid < last { MultiplicityMonotone(s, t, first, mid, last - 1); }
  }

  lemma ProductiveTwice(s: Shift, t: int, d: int, e: int, first: int, last: int)
    requires first <= d < e < last
    requires Active(s, d) && Productive(s, d, t) && Active(s, e) && Productive(s, e, t)
    ensures Multiplicity(s, t, first, last) >= 2
  {
    MultiplicityMonotone(s, t, first, d + 1, e);
    MultiplicityMonotone(s, t, first, e + 1, last);
  }

  lemma {:induction false} CountSumIsWorking(s: Shift, lo: int, hi: int, first: int, last: int)
    requires Scannable(s) && Once(s) && lo <= hi
    requires first <= DayOf(s.zone, lo) - 1 && DayOf(s.zone, hi) + 1 < last
    ensures CountSum(s, lo, hi, first, last) == WorkingCount(s, lo, hi)
    decreases hi - lo
  {
    if lo == hi {
      CountSumEmpty(s, lo, first, last);
    } else {
      CountSumIsWorking(s, lo, hi - 1, first, last);
      CountSumStep(s, lo, hi - 1, first, last);
      MultiplicityIsIndicator(s, hi - 1, first, last);
      if Working(s, hi - 1) {
        var d :| Active(s, d) && Productive(s, d, hi - 1);
        assert first <= d < last;
      }
    }
  }

  lemma {:induction false} WorkingCountBound(s: Shift, lo: int, hi: int)
    ensures WorkingCount(s, lo, hi) <= Max(0, hi - lo)
    decreases hi - lo
  {
    if lo < hi { WorkingCountBound(s, lo, hi - 1); }
  }

  lemma {:induction false} WorkingCountSplit(s: Shift, a: int, b: int, c: int)
    requires a <= b <= c
    ensures WorkingCount(s, a, c) == WorkingCount(s, a, b) + WorkingCount(s, b, c)
    decreases c - b
  {
    if b < c { WorkingCountSplit(s, a, b, c - 1); }
  }

  /** Planned time is within the window's length on every window exactly when no instant is productive on
      two active days: any weekdays, any length, any breaks. */
  lemma PlannedTimeBoundIff(s: Shift)
    requires Scannable(s)
    ensures (forall w: Window :: PlannedTime(s, w) <= Max(0, w.to - w.from)) <==> Once(s)
  {
    if Once(s) {
      forall w: Window ensures PlannedTime(s, w) <= Max(0, w.to - w.from) {
        if w.from < w.to {
          var first, last := FirstDay(s, w), LastDay(s, w) + 1;
          DaySumAgainstCount(s, w.from, w.to, first, last);
          CountSumIsWorking(s, w.from, w.to, first, last);
          WorkingCountBound(s, w.from, w.to);
        }
      }
    } else {
      var t, d, e :| Active(s, d) && Productive(s, d, t) && Active(s, e) && Productive(s, e, t) && d < e;
      var w := Window(t, t + 1);
      var first, last := Min(FirstDay(s, w), d), Max(LastDay(s, w), e) + 1;
      WiderScan(s, w, first, last);
      DaySumInstant(s, t, first, last);
      ProductiveTwice(s, t, d, e, first, last);
      assert PlannedTime(s, w) > Max(0, w.to - w.from);
    }
  }

  lemma {:induction false} DaySumInstant(s: Shift, t: int, first: int, last: int)
    ensures DaySum(s, Window(t, t + 1), first, last) == Multiplicity(s, t, first, last)
    decreases last - first
  {
    if first < last {
      DaySumInstant(s, t, first, last - 1);
      OneInstant(s, last - 1, t);
    }
  }

  /** Planned time is the number of working instants of every window exactly when, besides, no instant of
      an active day's shift lies in two breaks or the breaks leave nothing of that shift. */
  lemma PlannedTimeMeasureIff(s: Shift)
    requires Scannable(s)
    ensures (forall w: Window :: PlannedTime(s, w) == WorkingCount(s, w.from, w.to))
       <==> Once(s) && forall d | Active(s, d) :: Clean(s, d)
  {
    if Once(s) && forall d | Active(s, d) :: Clean(s, d) {
      forall w: Window ensures PlannedTime(s, w) == WorkingCount(s, w.from, w.to) {
        if w.from < w.to {
          var first, last := FirstDay(s, w), LastDay(s, w) + 1;
          DaySumAgainstCount(s, w.from, w.to, first, last);
          CountSumIsWorking(s, w.from, w.to, first, last);
        }
      }
    }
    if forall w: Window :: PlannedTime(s, w) == WorkingCount(s, w.from, w.to) {
      forall w: Window ensures PlannedTime(s, w) <= Max(0, w.to - w.from) { WorkingCountBound(s, w.from, w.to); }
      PlannedTimeBoundIff(s);
      forall a, b, c | a <= b <= c ensures PlannedAdditive(s, a, b, c) { WorkingCountSplit(s, a, b, c); }
      PlannedTimeAdditiveIff(s);
    }
  }

  /** In particular for a shift of at most a day with disjoint breaks. */
  lemma PlannedTimeIsMeasure(s: Shift, w: Window)
    requires Scannable(s) && AtMostADay(s) && DisjointBreaks(s)
    ensures PlannedTime(s, w) == WorkingCount(s, w.from, w.to)
  {
    ShortIsOnce(s);
    DisjointIsClean(s);
    PlannedTimeMeasureIff(s);
  }

  // ----- the bound for short shifts, whether or not the scan reaches them -----

  lemma BreakTimeNonNegative(breaks: seq<Break>, day: int, from: int, to: int)
    ensures BreakTime(breaks, day, from, to) >= 0
  {
  }

  lemma {:induction false} DaySumBound(s: Shift, w: Window, first: int, last: int)
    requires AtMostADay(s) && first < last && w.from <= w.to
    ensures 0 <= DaySum(s, w, first, last) <= Max(0, Min(w.to, ShiftEnd(s, last - 1)) - w.from)
    decreases last - first
  {
    var d := last - 1;
    BreakTimeNonNegative(s.breaks, DayStart(s.zone, d), Max(ShiftStart(s, d), w.from), Min(ShiftEnd(s, d), w.to));
    if first < d {
      DaySumBound(s, w, first, d);
    } else {
      assert DaySum(s, w, first, d) == 0;
    }
  }

  /** A shift of at most a day never plans more than the window: any mask, any breaks. */
  lemma PlannedTimeBound(s: Shift, w: Window)
    requires AtMostADay(s)
    ensures 0 <= PlannedTime(s, w) <= Max(0, w.to - w.from)
  {
    if w.from < w.to {
      DaySumBound(s, w, FirstDay(s, w), LastDay(s, w) + 1);
    }
  }
}
