/** The on-demand availability query: the range filter of the repository and the use case that clips,
    aggregates and flags. Its contract speaks of all the machine's rows: the filter, the ordering and
    the clipping of open rows must not change any figure. */
module Query {
  import opened Options
  import opened Instants
  import opened ShiftConfig
  import opened Availability
  import opened IntervalTables

  predicate Overlaps(iv: Interval, w: Window) {
    iv.start < w.to && (iv.end.None? || iv.end.value > w.from)
  }

  function InRange(rows: seq<Interval>, machine: string, w: Window): seq<Interval> {
    if rows == [] then [] else
      var iv := rows[|rows| - 1];
      InRange(rows[..|rows| - 1], machine, w) + if iv.machine == machine && Overlaps(iv, w) then [iv] else []
  }

  predicate SortedByStart(rows: seq<Interval>) {
    forall i, j :: 0 <= i < j < |rows| ==> rows[i].start <= rows[j].start
  }

  datatype Output = Output(machine: string, window: Window, availability: real, planned: int, runTime: int,
                           plannedDown: int, unplannedDown: int, count: nat, hasData: bool,
                           shiftConfigMissing: bool, openIntervalClipped: bool, noData: bool)

  predicate OpenBefore(rows: seq<Interval>, t: int) { exists iv :: iv in rows && iv.IsOpen() && iv.start < t }

  /** The answer as a function of every row of the machine. */
  function Answer(rows: seq<Interval>, machine: string, w: Window, config: Config): Output {
    var mine, found := RowsOf(rows, machine), Found(config, machine);
    var figures := Totals(w, mine, if found then PlannedFor(config, machine, w) else w.to - w.from);
    Report(machine, w, figures, found, OpenBefore(mine, w.to))
  }

  /** The machine has a row with an instant inside the window. */
  ghost predicate Seen(rows: seq<Interval>, machine: string, w: Window) {
    exists iv, t :: iv in rows && iv.machine == machine && w.from <= t < w.to && iv.Covers(t)
  }

  /** What a reader of an answer may rely on, said without the computation: there is data exactly when some time
      was planned and the machine was seen; data makes availability the share of planned time that is run
      time, run time is what downtime leaves of it, and no data means availability zero. */
  ghost predicate Truthful(a: Output, rows: seq<Interval>, machine: string, w: Window, config: Config) {
    var planned := if Found(config, machine) then PlannedFor(config, machine, w) else w.to - w.from;
    && a.machine == machine && a.window == w
    && (a.hasData <==> planned != 0 && Seen(rows, machine, w))
    && (a.noData <==> !a.hasData)
    && (!a.hasData ==> a.availability == 0.0)
    && (a.hasData ==> IsShare(a.availability, a.runTime, a.planned))
    && a.planned == planned
    && (planned != 0 ==>
          && a.plannedDown == Sum(w, RowsOf(rows, machine), PlannedDown)
          && a.unplannedDown == Sum(w, RowsOf(rows, machine), UnplannedDown))
    && (planned == 0 ==> a.plannedDown == 0 && a.unplannedDown == 0)
    && a.runTime == Max(0, a.planned - (a.plannedDown + a.unplannedDown))
    && a.count == Sum(w, RowsOf(rows, machine), IntervalCount)
    && (a.count > 0 <==> Seen(rows, machine, w))
    && (a.shiftConfigMissing <==> !Found(config, machine))
    && (a.openIntervalClipped <==>
          exists iv :: iv in rows && iv.machine == machine && iv.end == None && iv.start < w.to)
  }

  ghost predicate RowSeen(iv: Interval, w: Window) { exists t :: w.from <= t < w.to && iv.Covers(t) }

  lemma RowCounted(iv: Interval, w: Window)
    ensures Share(w, iv, IntervalCount) == if RowSeen(iv, w) then 1 else 0
  {
    if Clipped(w, iv) > 0 { assert iv.Covers(Max(iv.start, w.from)); }
  }

  lemma SeenSnoc(rows: seq<Interval>, iv: Interval, machine: string, w: Window)
    ensures Seen(rows + [iv], machine, w) <==> Seen(rows, machine, w) || (iv.machine == machine && RowSeen(iv, w))
  {
    var all := rows + [iv];
    assert all[|rows|] == iv && forall x :: x in all <==> x in rows || x == iv;
    if x, t :| x in rows && x.machine == machine && w.from <= t < w.to && x.Covers(t) {
      assert x in all;
    }
    if iv.machine == machine {
      if t :| w.from <= t < w.to && iv.Covers(t) { assert iv in all; }
    }
  }

  /** The machine's interval count is positive exactly when it was seen. */
  lemma {:induction false} CountedIsSeen(rows: seq<Interval>, machine: string, w: Window)
    ensures Sum(w, RowsOf(rows, machine), IntervalCount) > 0 <==> Seen(rows, machine, w)
  {
    if rows != [] {
      var before, iv := rows[..|rows| - 1], rows[|rows| - 1];
      CountedIsSeen(before, machine, w);
      PushOrSkip(w, RowsOf(before, machine), iv, iv.machine == machine, IntervalCount);
      RowCounted(iv, w);
      SeenSnoc(before, iv, machine, w);
      assert rows == before + [iv];
    }
  }

  lemma AnswerIsTruthful(rows: seq<Interval>, machine: string, w: Window, config: Config)
    ensures Truthful(Answer(rows, machine, w, config), rows, machine, w, config)
  {
    CountedIsSeen(rows, machine, w);
    AnswerRuns(rows, machine, w, config);
    RowsOfMembers(rows, machine);
  }

  lemma AnswerRuns(rows: seq<Interval>, machine: string, w: Window, config: Config)
    ensures var a := Answer(rows, machine, w, config);
      && (a.hasData ==> IsShare(a.availability, a.runTime, a.planned))
      && a.runTime == Max(0, a.planned - (a.plannedDown + a.unplannedDown))
  {
    ResultMeans(Totals(w, RowsOf(rows, machine),
                       if Found(config, machine) then PlannedFor(config, machine, w) else w.to - w.from));
  }

  function InsertByStart(rows: seq<Interval>, iv: Interval): seq<Interval> {
    if rows == [] || rows[|rows| - 1].start <= iv.start then rows + [iv]
    else InsertByStart(rows[..|rows| - 1], iv) + [rows[|rows| - 1]]
  }

  lemma {:induction false} InsertKeepsRows(rows: seq<Interval>, iv: Interval)
    ensures multiset(InsertByStart(rows, iv)) == multiset(rows) + multiset{iv}
  {
    if rows != [] && rows[|rows| - 1].start > iv.start {
      InsertKeepsRows(rows[..|rows| - 1], iv);
      assert rows == rows[..|rows| - 1] + [rows[|rows| - 1]];
    }
  }

  lemma {:induction false} InsertSorts(rows: seq<Interval>, iv: Interval)
    requires SortedByStart(rows)
    ensures SortedByStart(InsertByStart(rows, iv))
    ensures forall x | x in InsertByStart(rows, iv) :: x in rows || x == iv
  {
    if rows != [] && rows[|rows| - 1].start > iv.start {
      InsertSorts(rows[..|rows| - 1], iv);
      var r := InsertByStart(rows[..|rows| - 1], iv);
      assert forall i :: 0 <= i < |r| ==> r[i] in r;
    }
  }

  method ByMachineRange(rows: seq<Interval>, machine: string, w: Window) returns (intervals: seq<Interval>)
    ensures SortedByStart(intervals)
    ensures multiset(intervals) == multiset(InRange(rows, machine, w))
    ensures forall iv :: iv in intervals <==>
      iv in rows && iv.machine == machine && iv.start < w.to && (iv.end == None || iv.end.value > w.from)
  {
    intervals := [];
    for i := 0 to |rows|
      invariant SortedByStart(intervals)
      invariant multiset(intervals) == multiset(InRange(rows[..i], machine, w))
    {
      assert rows[..i + 1][..i] == rows[..i];
      if rows[i].machine == machine && Overlaps(rows[i], w) {
        InsertKeepsRows(intervals, rows[i]);
        InsertSorts(intervals, rows[i]);
        intervals := InsertByStart(intervals, rows[i]);
      }
    }
    assert rows[..|rows|] == rows;
    InRangeRows(rows, machine, w);
    assert forall iv :: iv in intervals <==> iv in multiset(intervals);
  }

  lemma {:induction false} InRangeRows(rows: seq<Interval>, machine: string, w: Window)
    ensures forall iv :: iv in InRange(rows, machine, w) <==>
      iv in rows && iv.machine == machine && iv.start < w.to && (iv.end == None || iv.end.value > w.from)
  {
    if rows != [] {
      InRangeRows(rows[..|rows| - 1], machine, w);
      assert rows == rows[..|rows| - 1] + [rows[|rows| - 1]];
    }
  }

  function ClipRow(iv: Interval, t: int): Interval { if iv.IsOpen() then iv.(end := Some(t)) else iv }

  function ClipOpen(rows: seq<Interval>, t: int): seq<Interval> {
    seq(|rows|, i requires 0 <= i < |rows| => ClipRow(rows[i], t))
  }

  method ClipOpenIntervals(intervals: seq<Interval>, end: int) returns (clipped: seq<Interval>, anyOpen: bool)
    ensures clipped == ClipOpen(intervals, end)
    ensures anyOpen <==> exists j :: 0 <= j < |intervals| && intervals[j].IsOpen()
  {
    clipped, anyOpen := intervals, false;
    for i := 0 to |clipped|
      invariant |clipped| == |intervals|
      invariant forall j :: 0 <= j < i ==> clipped[j] == ClipRow(intervals[j], end)
      invariant forall j :: i <= j < |clipped| ==> clipped[j] == intervals[j]
      invariant anyOpen <==> exists j :: 0 <= j < i && intervals[j].IsOpen()
    {
      if clipped[i].IsOpen() {
        anyOpen := true;
        clipped := clipped[i := clipped[i].(end := Some(end))];
      }
    }
  }

  /** The output from the calculator's result. */
  function Report(machine: string, w: Window, figures: Input, found: bool, anyOpen: bool): Output {
    var result := AvailabilityOf(figures);
    var hasData := result.hasData && figures.count > 0;
    Output(machine, w, if hasData then result.availability else 0.0, result.planned, result.runTime,
           result.plannedDown, result.unplannedDown, figures.count, hasData, !found, anyOpen, !hasData)
  }

  /** None when one of the two reads fails. */
  method Execute(rows: seq<Interval>, machine: string, w: Window, config: Config, intervalsFail: bool, shiftsFail: bool)
    returns (r: Option<Output>)
    ensures r == if intervalsFail || shiftsFail then None else Some(Answer(rows, machine, w, config))
    ensures r.Some? ==> Truthful(r.value, rows, machine, w, config)
  {
    if intervalsFail {
      return None;
    }
    var intervals := ByMachineRange(rows, machine, w);
    if shiftsFail {
      return None;
    }
    var planned, found := ForMachineWindow(config, machine, w);
    var shiftConfigMissing, openIntervalClipped := false, false;
    if !found {
      shiftConfigMissing := true;
      planned := w.to - w.from;
    }
    var clipped, anyOpen := ClipOpenIntervals(intervals, w.to);
    openIntervalClipped := anyOpen;
    var figures := Aggregate(w, clipped, planned);
    ReadFigures(rows, machine, w, intervals);
    var result := AvailabilityOf(figures);
    var hasData := result.hasData && figures.count > 0;
    var noData := false;
    if !hasData {
      noData := true;
    }
    var availability := result.availability;
    if !hasData {
      availability := 0.0;
    }
    AnswerIsTruthful(rows, machine, w, config);
    return Some(Output(machine, w, availability, result.planned, result.runTime, result.plannedDown,
                       result.unplannedDown, figures.count, hasData, shiftConfigMissing, openIntervalClipped, noData));
  }

  // ----- the filter, the order and the clipping change no figure -----

  lemma OutsideSharesNothing(w: Window, iv: Interval, f: Figure)
    ensures !Overlaps(iv, w) ==> Share(w, iv, f) == 0
  {
  }

  lemma {:induction false} FilterKeepsFigures(rows: seq<Interval>, machine: string, w: Window, f: Figure)
    ensures Sum(w, InRange(rows, machine, w), f) == Sum(w, RowsOf(rows, machine), f)
  {
    if rows != [] {
      var before, iv := rows[..|rows| - 1], rows[|rows| - 1];
      FilterKeepsFigures(before, machine, w, f);
      OutsideSharesNothing(w, iv, f);
      PushOrSkip(w, InRange(before, machine, w), iv, iv.machine == machine && Overlaps(iv, w), f);
      PushOrSkip(w, RowsOf(before, machine), iv, iv.machine == machine, f);
    }
  }

  lemma PushOrSkip(w: Window, rows: seq<Interval>, iv: Interval, push: bool, f: Figure)
    ensures Sum(w, rows + if push then [iv] else [], f) == Sum(w, rows, f) + if push then Share(w, iv, f) else 0
  {
    if push {
      SumPush(w, rows, iv, f);
    } else {
      assert rows + [] == rows;
    }
  }

  lemma {:induction false} ClippingKeepsFigures(rows: seq<Interval>, w: Window, f: Figure)
    ensures Sum(w, ClipOpen(rows, w.to), f) == Sum(w, rows, f)
  {
    if rows != [] {
      var n := |rows| - 1;
      assert ClipOpen(rows, w.to)[..n] == ClipOpen(rows[..n], w.to);
      ClippingKeepsFigures(rows[..n], w, f);
    }
  }

  lemma InRangeMembers(rows: seq<Interval>, machine: string, w: Window)
    ensures forall iv :: iv in InRange(rows, machine, w) <==> iv in RowsOf(rows, machine) && Overlaps(iv, w)
  {
    if rows != [] {
      InRangeMembers(rows[..|rows| - 1], machine, w);
    }
  }

  /** Filter and order: aggregating the rows read, in whatever order and with open rows clipped, gives the
      figures of all the machine's rows. */
  lemma ReadFigures(rows: seq<Interval>, machine: string, w: Window, read: seq<Interval>)
    requires multiset(read) == multiset(InRange(rows, machine, w))
    ensures forall planned :: Totals(w, ClipOpen(read, w.to), planned) == Totals(w, RowsOf(rows, machine), planned)
    ensures (exists j :: 0 <= j < |read| && read[j].IsOpen()) <==> OpenBefore(RowsOf(rows, machine), w.to)
  {
    forall f: Figure ensures Sum(w, ClipOpen(read, w.to), f) == Sum(w, RowsOf(rows, machine), f) {
      FilterKeepsFigures(rows, machine, w, f);
      SumPermutes(w, read, InRange(rows, machine, w), f);
      ClippingKeepsFigures(read, w, f);
    }
    ReadOpen(rows, machine, w, read);
  }

  /** An open row is read exactly when the machine has one that starts before the window ends. */
  lemma ReadOpen(rows: seq<Interval>, machine: string, w: Window, read: seq<Interval>)
    requires multiset(read) == multiset(InRange(rows, machine, w))
    ensures (exists j :: 0 <= j < |read| && read[j].IsOpen()) <==> OpenBefore(RowsOf(rows, machine), w.to)
  {
    var mine, inRange := RowsOf(rows, machine), InRange(rows, machine, w);
    InRangeMembers(rows, machine, w);
    assert forall iv :: iv in read <==> iv in multiset(read);
    assert forall iv :: iv in read <==> iv in mine && Overlaps(iv, w);
    if OpenBefore(mine, w.to) {
      var iv :| iv in mine && iv.IsOpen() && iv.start < w.to;
      assert iv in read;
    }
    if j :| 0 <= j < |read| && read[j].IsOpen() {
      assert read[j] in mine && read[j].start < w.to;
    }
  }

  predicate AnswerConserved(rows: seq<Interval>, machine: string, w: Window, config: Config) {
    var a := Answer(rows, machine, w, config);
    a.runTime + a.plannedDown + a.unplannedDown == w.to - w.from
  }

  /** Conservation for the query: without a shift config, run time and downtimes of the answer add up to the
      window, for every window, exactly when no two of the machine's downtime rows share an instant. */
  lemma AnswerConservesIff(rows: seq<Interval>, machine: string, config: Config)
    requires !Found(config, machine)
    ensures (forall w: Window :: w.from < w.to ==> AnswerConserved(rows, machine, w, config))
       <==> Apart(RowsOf(rows, machine), DowntimeRows)
  {
    var mine := RowsOf(rows, machine);
    forall w: Window ensures AnswerConserved(rows, machine, w, config) <==> Conserved(mine, w) {}
    ConservationIff(mine);
  }
}
