/** Machine states, state intervals and the availability calculator. */
module Availability {
  import opened Options
  import opened Instants

  datatype MachineState = Running | Stopped | Setup | Idle | Maintenance | Off {
    predicate IsDowntime() { Stopped? || Setup? || Maintenance? }

    predicate IsPlannedStop() { Setup? || Maintenance? }
  }

  /** `end` is None while the interval is open. */
  datatype Interval = Interval(machine: string, state: MachineState, start: int, end: Option<int>) {
    predicate IsOpen() { end.None? }

    predicate Covers(t: int) { start <= t && (end.None? || t < end.value) }
  }

  datatype Input = Input(planned: int, plannedDown: int, unplannedDown: int, count: nat)

  datatype Result = Result(availability: real, planned: int, runTime: int, plannedDown: int, unplannedDown: int,
                           hasData: bool)

  const NO_DATA := Result(0.0, 0, 0, 0, 0, false)

  /** Length of the part of iv inside w; an open interval extends to the end of the window. */
  function Clipped(w: Window, iv: Interval): nat {
    var end := if iv.end.Some? && iv.end.value < w.to then iv.end.value else w.to;
    Max(0, end - Max(iv.start, w.from))
  }

  datatype Figure = PlannedDown | UnplannedDown | IntervalCount

  /** What one interval contributes to a figure. */
  function Share(w: Window, iv: Interval, f: Figure): nat {
    match f
    case PlannedDown => if iv.state.IsDowntime() && iv.state.IsPlannedStop() then Clipped(w, iv) else 0
    case UnplannedDown => if iv.state.IsDowntime() && !iv.state.IsPlannedStop() then Clipped(w, iv) else 0
    case IntervalCount => if Clipped(w, iv) > 0 then 1 else 0
  }

  function Sum(w: Window, intervals: seq<Interval>, f: Figure): nat {
    if intervals == [] then 0 else
      Sum(w, intervals[..|intervals| - 1], f) + Share(w, intervals[|intervals| - 1], f)
  }

  function Totals(w: Window, intervals: seq<Interval>, planned: int): Input {
    Input(planned, Sum(w, intervals, PlannedDown), Sum(w, intervals, UnplannedDown), Sum(w, intervals, IntervalCount))
  }

  method Aggregate(w: Window, intervals: seq<Interval>, planned: int) returns (r: Input)
    ensures r == Totals(w, intervals, planned)
  {
    var plannedDown, unplannedDown, count: nat := 0, 0, 0;
    for i := 0 to |intervals|
      invariant plannedDown == Sum(w, intervals[..i], PlannedDown)
      invariant unplannedDown == Sum(w, intervals[..i], UnplannedDown)
      invariant count == Sum(w, intervals[..i], IntervalCount)
    {
      assert intervals[..i + 1][..i] == intervals[..i];
      var iv := intervals[i];
      var start := iv.start;
      if start < w.from {
        start := w.from;
      }
      var end := w.to;
      if iv.end.Some? && iv.end.value < w.to {
        end := iv.end.value;
      }
      if end <= start {
        continue;
      }
      var dur := end - start;
      if iv.state.IsDowntime() {
        if iv.state.IsPlannedStop() {
          plannedDown := plannedDown + dur;
        } else {
          unplannedDown := unplannedDown + dur;
        }
      }
      count := count + 1;
    }
    assert intervals[..|intervals|] == intervals;
    return Input(planned, plannedDown, unplannedDown, count);
  }

  function AvailabilityOf(i: Input): Result {
    if i.planned == 0 then NO_DATA else
      var downtime := i.plannedDown + i.unplannedDown;
      var runTime := Max(i.planned - downtime, 0);
      var ratio := runTime as real / i.planned as real;
      Result(if ratio > 1.0 then 1.0 else ratio, i.planned, runTime, i.plannedDown, i.unplannedDown, true)
  }

  /** The ratio is a proportion, and the upper clamp is never needed; it is 1 exactly when there was
      no downtime and 0 exactly when downtime used up the planned time. */
  lemma AvailabilityIsProportion(i: Input)
    requires i.planned > 0 && i.plannedDown >= 0 && i.unplannedDown >= 0
    ensures var r := AvailabilityOf(i);
      && r.hasData && 0.0 <= r.availability <= 1.0
      && r.availability * i.planned as real == r.runTime as real
      && (r.availability == 1.0 <==> i.plannedDown + i.unplannedDown == 0)
      && (r.availability == 0.0 <==> i.plannedDown + i.unplannedDown >= i.planned)
  {
    var run, planned := AvailabilityOf(i).runTime as real, i.planned as real;
    assert run / planned * planned == run;
    if run < planned {
      assert run / planned < 1.0;
    }
  }

  /** The share times the whole is the part. */
  predicate IsShare(share: real, part: int, whole: int) { share * whole as real == part as real }

  lemma RatioIsShare(part: int, whole: int)
    requires whole != 0 && part >= 0
    ensures var ratio := part as real / whole as real;
      IsShare(ratio, part, whole) && (part <= whole || whole < 0 ==> ratio <= 1.0)
  {
    var a, b := part as real, whole as real;
    var ratio := a / b;
    assert ratio * b == a;
    if ratio > 1.0 && b > 0.0 { assert ratio * b > b; }
  }

  /** There is a result exactly when some time was planned. A result repeats its input, run time is what
      downtime leaves of the planned time, if anything, and availability is run time's share of planned time;
      without a result they are all zero. */
  lemma ResultMeans(i: Input)
    requires i.plannedDown >= 0 && i.unplannedDown >= 0
    ensures var r := AvailabilityOf(i);
      && (r.hasData <==> i.planned != 0)
      && r.planned == i.planned
      && (r.hasData ==> r.plannedDown == i.plannedDown && r.unplannedDown == i.unplannedDown)
      && (!r.hasData ==> r.plannedDown == 0 && r.unplannedDown == 0 && r.availability == 0.0)
      && (r.hasData ==> IsShare(r.availability, r.runTime, r.planned))
      && r.runTime == Max(0, r.planned - (r.plannedDown + r.unplannedDown))
  {
    if i.planned != 0 {
      RatioIsShare(AvailabilityOf(i).runTime, i.planned);
    }
  }

  // ----- what one row contributes -----

  /** The number of instants of [lo, hi) that lie in [start, end), or from start on. */
  function Spent(start: int, end: Option<int>, lo: int, hi: int): nat
    decreases hi - lo
  {
    if hi <= lo then 0 else
      Spent(start, end, lo, hi - 1) + if start <= hi - 1 && (end == None || hi - 1 < end.value) then 1 else 0
  }

  lemma {:induction false} ClippedIsSpent(w: Window, iv: Interval)
    ensures Clipped(w, iv) == Spent(iv.start, iv.end, w.from, w.to)
    decreases w.to - w.from
  {
    if w.from < w.to { ClippedIsSpent(Window(w.from, w.to - 1), iv); }
  }

  /** A row counts for planned downtime in setup and maintenance, for unplanned downtime when stopped, and for
      neither when running, idle or off: by the time spent in it inside the window. It counts as an interval
      if that time is positive. Figures of several rows are added up. */
  lemma RowFigures(w: Window, iv: Interval, rows: seq<Interval>, f: Figure)
    ensures var spent := Spent(iv.start, iv.end, w.from, w.to);
      && Sum(w, [iv], PlannedDown) == (if iv.state == Setup || iv.state == Maintenance then spent else 0)
      && Sum(w, [iv], UnplannedDown) == (if iv.state == Stopped then spent else 0)
      && Sum(w, [iv], IntervalCount) == (if spent > 0 then 1 else 0)
      && Sum(w, rows + [iv], f) == Sum(w, rows, f) + Sum(w, [iv], f)
  {
    ClippedIsSpent(w, iv);
    assert [iv][..0] == [];
    SumConcat(w, rows, [iv], f);
  }

  // ----- laws of the sums -----

  lemma SumConcat(w: Window, a: seq<Interval>, b: seq<Interval>, f: Figure)
    ensures Sum(w, a + b, f) == Sum(w, a, f) + Sum(w, b, f)
  {
    if b == [] {
      assert a + b == a;
    } else {
      assert (a + b)[..|a + b| - 1] == a + b[..|b| - 1];
      SumConcat(w, a, b[..|b| - 1], f);
    }
  }

  lemma SumPush(w: Window, a: seq<Interval>, iv: Interval, f: Figure)
    ensures Sum(w, a + [iv], f) == Sum(w, a, f) + Share(w, iv, f)
  {
    assert (a + [iv])[..|a|] == a;
  }

  lemma SumRemove(w: Window, a: seq<Interval>, i: nat, f: Figure)
    requires i < |a|
    ensures Sum(w, a, f) == Sum(w, a[..i] + a[i + 1..], f) + Share(w, a[i], f)
  {
    assert a == a[..i] + ([a[i]] + a[i + 1..]);
    SumConcat(w, a[..i], [a[i]] + a[i + 1..], f);
    SumConcat(w, [a[i]], a[i + 1..], f);
    SumConcat(w, a[..i], a[i + 1..], f);
    assert [a[i]][..0] == [];
  }

  lemma WithoutOne(a: seq<Interval>, i: nat)
    requires i < |a|
    ensures multiset(a[..i] + a[i + 1..]) == multiset(a) - multiset{a[i]}
  {
    assert a == a[..i] + [a[i]] + a[i + 1..];
  }

  lemma WithoutLast(a: seq<Interval>)
    requires a != []
    ensures multiset(a[..|a| - 1]) == multiset(a) - multiset{a[|a| - 1]}
  {
    assert a == a[..|a| - 1] + [a[|a| - 1]];
  }

  lemma FindIn(a: Interval, b: seq<Interval>) returns (i: nat)
    requires a in multiset(b)
    ensures i < |b| && b[i] == a
  {
    i :| i < |b| && b[i] == a;
  }

  /** The figures do not depend on the order in which the rows are read. */
  lemma {:induction false} SumPermutes(w: Window, a: seq<Interval>, b: seq<Interval>, f: Figure)
    requires multiset(a) == multiset(b)
    ensures Sum(w, a, f) == Sum(w, b, f)
    decreases |a|
  {
    if a == [] {
      assert |multiset(b)| == |b|;
    } else {
      var n := |a| - 1;
      assert a[n] in multiset(a);
      var i := FindIn(a[n], b);
      WithoutLast(a);
      WithoutOne(b, i);
      SumPermutes(w, a[..n], b[..i] + b[i + 1..], f);
      SumRemove(w, b, i, f);
    }
  }

  /** Downtime over a window is the sum of the downtimes over its two parts. */
  lemma {:induction false} DowntimeSplits(a: int, b: int, c: int, rows: seq<Interval>, f: Figure)
    requires a <= b <= c && f != IntervalCount
    ensures Sum(Window(a, c), rows, f) == Sum(Window(a, b), rows, f) + Sum(Window(b, c), rows, f)
  {
    if rows != [] {
      DowntimeSplits(a, b, c, rows[..|rows| - 1], f);
    }
  }

  // ----- tables without gaps: what the sums measure -----

  /** A history: starts strictly increase, each row but the last is closed exactly where the next one
      begins, adjacent states differ, and the last row is open. */
  ghost predicate History(rows: seq<Interval>) {
    && (forall i, j :: 0 <= i && j == i + 1 && j < |rows| ==>
          && rows[i].end == Some(rows[j].start)
          && rows[i].start < rows[j].start
          && rows[i].state != rows[j].state)
    && (forall i :: 0 <= i < |rows| ==> (rows[i].IsOpen() <==> i == |rows| - 1))
  }

  lemma StartsIncrease(rows: seq<Interval>, i: nat, j: nat)
    requires History(rows) && i < j < |rows|
    ensures rows[i].start < rows[j].start && rows[i].end.Some? && rows[i].end.value <= rows[j].start
    decreases j - i
  {
    assert rows[i].end == Some(rows[i + 1].start);
    if i + 1 < j { StartsIncrease(rows, i + 1, j); }
  }

  /** In a history at most one row covers an instant. */
  lemma OneRowCovers(rows: seq<Interval>, i: nat, j: nat, t: int)
    requires History(rows) && i < |rows| && j < |rows| && rows[i].Covers(t) && rows[j].Covers(t)
    ensures i == j
  {
    if i < j {
      StartsIncrease(rows, i, j);
    } else if j < i {
      StartsIncrease(rows, j, i);
    }
  }

  predicate Counts(iv: Interval, f: Figure) {
    match f
    case PlannedDown => iv.state.IsDowntime() && iv.state.IsPlannedStop()
    case UnplannedDown => iv.state.IsDowntime() && !iv.state.IsPlannedStop()
    case IntervalCount => true
  }

  // ----- rows that share an instant -----

  datatype Scope = EveryRow | DowntimeRows

  predicate InScope(iv: Interval, scope: Scope) { scope.EveryRow? || iv.state.IsDowntime() }

  /** Some instant is covered by two rows in scope. */
  predicate Doubled(rows: seq<Interval>, scope: Scope, t: int) {
    exists i, j :: 0 <= i < j < |rows| && InScope(rows[i], scope) && InScope(rows[j], scope)
                   && rows[i].Covers(t) && rows[j].Covers(t)
  }

  /** No two rows in scope share an instant. */
  ghost predicate Apart(rows: seq<Interval>, scope: Scope) { forall t :: !Doubled(rows, scope, t) }

  lemma HistoryIsApart(rows: seq<Interval>, scope: Scope)
    requires History(rows)
    ensures Apart(rows, scope)
  {
    forall t ensures !Doubled(rows, scope, t) {
      if i, j :| 0 <= i < j < |rows| && rows[i].Covers(t) && rows[j].Covers(t) {
        OneRowCovers(rows, i, j, t);
      }
    }
  }

  // ----- what the sums measure -----

  /** Some row puts the machine into such a downtime at instant t. */
  predicate DownAt(rows: seq<Interval>, t: int, f: Figure) {
    exists i :: 0 <= i < |rows| && rows[i].Covers(t) && Counts(rows[i], f)
  }

  predicate Down(rows: seq<Interval>, t: int) { DownAt(rows, t, PlannedDown) || DownAt(rows, t, UnplannedDown) }

  /** The number of instants of [lo, hi) in that downtime. */
  function DownCount(rows: seq<Interval>, lo: int, hi: int, f: Figure): nat
    decreases hi - lo
  {
    if hi <= lo then 0 else DownCount(rows, lo, hi - 1, f) + if DownAt(rows, hi - 1, f) then 1 else 0
  }

  /** The number of instants of [lo, hi) at which the machine is in no downtime. */
  function UpCount(rows: seq<Interval>, lo: int, hi: int): nat
    decreases hi - lo
  {
    if hi <= lo then 0 else UpCount(rows, lo, hi - 1) + if Down(rows, hi - 1) then 0 else 1
  }

  /** The number of rows that put the machine into such a downtime at instant t. */
  function Covering(rows: seq<Interval>, t: int, f: Figure): nat {
    if rows == [] then 0 else
      var iv := rows[|rows| - 1];
      Covering(rows[..|rows| - 1], t, f) + if iv.Covers(t) && Counts(iv, f) then 1 else 0
  }

  function DownRows(rows: seq<Interval>, t: int): nat {
    Covering(rows, t, PlannedDown) + Covering(rows, t, UnplannedDown)
  }

  lemma {:induction false} SumStep(rows: seq<Interval>, lo: int, t: int, f: Figure)
    requires lo <= t && f != IntervalCount
    ensures Sum(Window(lo, t + 1), rows, f) == Sum(Window(lo, t), rows, f) + Covering(rows, t, f)
  {
    if rows != [] { SumStep(rows[..|rows| - 1], lo, t, f); }
  }

  lemma SumEmptyWindow(rows: seq<Interval>, lo: int, f: Figure)
    requires f != IntervalCount
    ensures Sum(Window(lo, lo), rows, f) == 0
  {
  }

  lemma {:induction false} CoveringNone(rows: seq<Interval>, t: int, f: Figure)
    ensures Covering(rows, t, f) == 0 <==> !DownAt(rows, t, f)
  {
    if rows != [] {
      var n := |rows| - 1;
      CoveringNone(rows[..n], t, f);
      if DownAt(rows[..n], t, f) {
        var i :| 0 <= i < n && rows[..n][i].Covers(t) && Counts(rows[..n][i], f);
        assert rows[i].Covers(t);
      } else {
        assert forall i :: 0 <= i < n ==> rows[i] == rows[..n][i];
      }
    }
  }

  lemma DownRowsNone(rows: seq<Interval>, t: int)
    ensures DownRows(rows, t) == 0 <==> !Down(rows, t)
  {
    CoveringNone(rows, t, PlannedDown);
    CoveringNone(rows, t, UnplannedDown);
  }

  lemma {:induction false} DownRowsTwo(rows: seq<Interval>, t: int)
    ensures DownRows(rows, t) >= 2 <==> Doubled(rows, DowntimeRows, t)
  {
    if rows != [] {
      var n := |rows| - 1;
      var before, iv := rows[..n], rows[n];
      DownRowsTwo(before, t);
      DownRowsNone(before, t);
      assert DownRows(rows, t) == DownRows(before, t) + if iv.state.IsDowntime() && iv.Covers(t) then 1 else 0;
      assert rows == before + [iv];
      DoubledSnoc(before, iv, t);
    }
  }

  lemma DoubledSnoc(rows: seq<Interval>, iv: Interval, t: int)
    ensures Doubled(rows + [iv], DowntimeRows, t)
       <==> Doubled(rows, DowntimeRows, t) || (Down(rows, t) && iv.state.IsDowntime() && iv.Covers(t))
  {
    var all, n := rows + [iv], |rows|;
    assert all[n] == iv && forall i :: 0 <= i < n ==> all[i] == rows[i];
    if i, j :| 0 <= i < j < n && InScope(rows[i], DowntimeRows) && InScope(rows[j], DowntimeRows)
               && rows[i].Covers(t) && rows[j].Covers(t) {
      assert all[i].Covers(t) && all[j].Covers(t);
    }
    if iv.state.IsDowntime() && iv.Covers(t) {
      if i :| 0 <= i < n && rows[i].Covers(t) && rows[i].state.IsDowntime() {
        assert all[i].Covers(t) && all[n].Covers(t);
      }
    }
  }

  /** While downtime rows are apart, a downtime figure is the number of instants the machine spent in it. */
  lemma {:induction false} DowntimeIsMeasure(rows: seq<Interval>, lo: int, hi: int, f: Figure)
    requires Apart(rows, DowntimeRows) && lo <= hi && f != IntervalCount
    ensures Sum(Window(lo, hi), rows, f) == DownCount(rows, lo, hi, f)
    decreases hi - lo
  {
    if lo == hi {
      SumEmptyWindow(rows, lo, f);
    } else {
      DowntimeIsMeasure(rows, lo, hi - 1, f);
      SumStep(rows, lo, hi - 1, f);
      DownRowsTwo(rows, hi - 1);
      CoveringNone(rows, hi - 1, f);
    }
  }

  lemma {:induction false} InstantsPartition(rows: seq<Interval>, lo: int, hi: int)
    requires Apart(rows, DowntimeRows) && lo <= hi
    ensures DownCount(rows, lo, hi, PlannedDown) + DownCount(rows, lo, hi, UnplannedDown) + UpCount(rows, lo, hi)
         == hi - lo
    decreases hi - lo
  {
    if lo < hi {
      InstantsPartition(rows, lo, hi - 1);
      DownRowsTwo(rows, hi - 1);
      CoveringNone(rows, hi - 1, PlannedDown);
      CoveringNone(rows, hi - 1, UnplannedDown);
    }
  }

  /** With the whole window as planned time, run time and the two downtimes add up to the window. */
  predicate Conserved(rows: seq<Interval>, w: Window) {
    var r := AvailabilityOf(Totals(w, rows, w.to - w.from));
    r.runTime + r.plannedDown + r.unplannedDown == w.to - w.from
  }

  /** Conservation: while downtime rows are apart, the three add up, run time is the time the machine was in
      no downtime, and the clamp never fires. */
  lemma WindowTimeIsConserved(rows: seq<Interval>, w: Window)
    requires Apart(rows, DowntimeRows) && w.from < w.to
    ensures Conserved(rows, w)
    ensures AvailabilityOf(Totals(w, rows, w.to - w.from)).runTime == UpCount(rows, w.from, w.to)
  {
    DowntimeIsMeasure(rows, w.from, w.to, PlannedDown);
    DowntimeIsMeasure(rows, w.from, w.to, UnplannedDown);
    InstantsPartition(rows, w.from, w.to);
  }

  ghost predicate AlwaysConserved(rows: seq<Interval>) {
    forall w: Window :: w.from < w.to ==> Conserved(rows, w)
  }

  /** Over any rows, window time is conserved on every window exactly when no instant is covered by two
      downtime rows. */
  lemma ConservationIff(rows: seq<Interval>)
    ensures AlwaysConserved(rows) <==> Apart(rows, DowntimeRows)
  {
    if Apart(rows, DowntimeRows) {
      forall w: Window | w.from < w.to ensures Conserved(rows, w) { WindowTimeIsConserved(rows, w); }
    } else {
      var t :| Doubled(rows, DowntimeRows, t);
      DownRowsTwo(rows, t);
      SumEmptyWindow(rows, t, PlannedDown);
      SumEmptyWindow(rows, t, UnplannedDown);
      SumStep(rows, t, t, PlannedDown);
      SumStep(rows, t, t, UnplannedDown);
      assert !Conserved(rows, Window(t, t + 1));
    }
  }
}
