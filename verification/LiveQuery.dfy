/** The live snapshot against the on-demand query: two computations of the same figures, one from the
    engine's memory and one from the table. */
module LiveQuery {
  import opened Options
  import opened Instants
  import opened ShiftConfig
  import opened Availability
  import opened IntervalTables
  import opened LiveEngine
  import opened IngestState
  import opened Query

  lemma {:induction false} EndedBeforeWindow(rows: seq<Interval>, w: Window, f: Figure)
    requires forall iv | iv in rows :: iv.end.Some? && iv.end.value <= w.from
    ensures Sum(w, rows, f) == 0
  {
    if rows != [] {
      EndedBeforeWindow(rows[..|rows| - 1], w, f);
      assert rows[|rows| - 1] in rows;
    }
  }

  lemma ClosingAtEndKeepsFigures(rows: seq<Interval>, w: Window, f: Figure)
    ensures Sum(w, CloseLast(rows, w.to), f) == Sum(w, rows, f)
  {
    var n := |rows| - 1;
    if rows != [] && rows[n].IsOpen() {
      assert CloseLast(rows, w.to)[..n] == rows[..n];
    }
  }

  /** The engine's suffix and the whole table give the same three figures over [windowStart, now), even
      when transitions are stamped after now. */
  lemma TrackedFigures(rows: seq<Interval>, data: MachineData, now: int, f: Figure)
    requires History(rows) && Tracks(data, rows) && data.windowStart < now
    ensures var w := Window(data.windowStart, now);
      Sum(w, CloseLast(data.intervals, now), f) == Sum(w, rows, f)
  {
    var w, k := Window(data.windowStart, now), |rows| - |data.intervals|;
    assert rows == rows[..k] + rows[k..] && rows[k] == data.intervals[0];
    forall iv | iv in rows[..k] ensures iv.end.Some? && iv.end.value <= w.from {
      var i :| 0 <= i < k && rows[i] == iv;
      StartsIncrease(rows, i, k);
    }
    EndedBeforeWindow(rows[..k], w, f);
    SumConcat(w, rows[..k], rows[k..], f);
    ClosingAtEndKeepsFigures(data.intervals, w, f);
  }

  lemma TrackedCount(rows: seq<Interval>, data: MachineData, now: int)
    requires History(rows) && Tracks(data, rows) && data.windowStart < now
    ensures Sum(Window(data.windowStart, now), rows, IntervalCount) > 0
  {
    var w, k := Window(data.windowStart, now), |rows| - |data.intervals|;
    assert rows[k] == data.intervals[0];
    assert rows[k].end.Some? ==> rows[k].end.value > rows[k].start by {
      if k + 1 < |rows| { assert rows[k].end == Some(rows[k + 1].start); }
    }
    assert Share(w, rows[k], IntervalCount) == 1;
    SumRemove(w, rows, k, IntervalCount);
  }

  /** The figures, the interval count and whether there is data. */
  predicate SameFigures(s: Snapshot, a: Output) {
    && s.machine == a.machine && s.window == a.window
    && s.result.availability == a.availability
    && s.result.planned == a.planned
    && s.result.runTime == a.runTime
    && s.result.plannedDown == a.plannedDown
    && s.result.unplannedDown == a.unplannedDown
    && s.count == a.count
    && s.result.hasData == a.hasData
    && s.noData == a.noData
  }

  /** Every field the two reports share. */
  predicate SameReport(s: Snapshot, a: Output) {
    && SameFigures(s, a)
    && s.shiftConfigMissing == a.shiftConfigMissing
    && s.openIntervalClipped == a.openIntervalClipped
  }

  lemma NothingPlanned(config: Config, machine: string, w: Window)
    requires !Found(config, machine)
    ensures PlannedFor(config, machine, w) == 0
  {
  }

  /** Figures, count and data flag of live and query, and exactly when they agree: the counts always, the
      rest exactly when a shift config is found. Without one the engine reports no data, because it ignores
      that the config was missing, while the query takes the window's length as planned time. */
  lemma LiveFiguresIff(s: System, id: string, now: int, config: Config)
    requires Coupled(s) && id in s.machines && s.machines[id].windowStart < now
    ensures var live := SnapshotOf(id, s.machines[id], now, config);
      var answer := Answer(s.rows, id, live.window, config);
      && live.window == Window(s.machines[id].windowStart, now)
      && live.count == answer.count > 0
      && (SameFigures(live, answer) <==> Found(config, id))
  {
    var data, rows := s.machines[id], RowsOf(s.rows, id);
    var w := Window(data.windowStart, now);
    forall f: Figure ensures Sum(w, CloseLast(data.intervals, now), f) == Sum(w, rows, f) {
      TrackedFigures(rows, data, now, f);
    }
    TrackedCount(rows, data, now);
    if !Found(config, id) {
      NothingPlanned(config, id, w);
    }
  }

  /** A snapshot's figures are those of the whole table. */
  lemma SnapshotFromTable(s: System, id: string, now: int, config: Config)
    requires Coupled(s) && id in s.machines && s.machines[id].windowStart < now
    ensures var live := SnapshotOf(id, s.machines[id], now, config);
      var w := Window(s.machines[id].windowStart, now);
      var figures := Totals(w, RowsOf(s.rows, id), PlannedFor(config, id, w));
      live == Snapshot(id, w, AvailabilityOf(figures), figures.count, false, false, figures.planned == 0, now)
  {
    var data, rows := s.machines[id], RowsOf(s.rows, id);
    var w := Window(data.windowStart, now);
    forall f: Figure ensures Sum(w, CloseLast(data.intervals, now), f) == Sum(w, rows, f) {
      TrackedFigures(rows, data, now, f);
    }
    ResultMeans(Totals(w, rows, PlannedFor(config, id, w)));
  }

  /** What a reader of a snapshot may rely on, said from the table and without the computation. */
  lemma LiveIsTruthful(s: System, id: string, now: int, config: Config)
    requires Coupled(s) && id in s.machines && s.machines[id].windowStart < now
    ensures var live := SnapshotOf(id, s.machines[id], now, config);
      var w := Window(s.machines[id].windowStart, now);
      var r, mine := live.result, RowsOf(s.rows, id);
      && live.machine == id && live.window == w && live.computedAt == now
      && r.planned == PlannedFor(config, id, w)
      && (r.hasData <==> r.planned != 0)
      && (live.noData <==> !r.hasData)
      && !live.shiftConfigMissing && !live.openIntervalClipped
      && (r.hasData ==> IsShare(r.availability, r.runTime, r.planned))
      && (!r.hasData ==> r.availability == 0.0 && r.plannedDown == 0 && r.unplannedDown == 0)
      && (r.hasData ==> r.plannedDown == Sum(w, mine, PlannedDown) && r.unplannedDown == Sum(w, mine, UnplannedDown))
      && r.runTime == Max(0, r.planned - (r.plannedDown + r.unplannedDown))
      && live.count == Sum(w, mine, IntervalCount)
      && (!Found(config, id) ==> live.noData)
  {
    var w := Window(s.machines[id].windowStart, now);
    SnapshotFromTable(s, id, now, config);
    ResultMeans(Totals(w, RowsOf(s.rows, id), PlannedFor(config, id, w)));
    if !Found(config, id) { NothingPlanned(config, id, w); }
  }

  /** The query clips an open row exactly when the latest transition is stamped before now. */
  lemma ClippedIff(rows: seq<Interval>, data: MachineData, now: int)
    requires History(rows) && Tracks(data, rows)
    ensures OpenBefore(rows, now) <==> Latest(data).start < now
  {
    var last := rows[|rows| - 1];
    assert last == Latest(data) && last.IsOpen();
    if iv :| iv in rows && iv.IsOpen() && iv.start < now {
      var i :| 0 <= i < |rows| && rows[i] == iv;
    }
    if last.start < now { assert last in rows; }
  }

  /** Live equals query on every field exactly when a shift config is found and the latest transition is not
      stamped before now: otherwise the query raises a flag that the engine never raises. */
  lemma LiveEqualsQueryIff(s: System, id: string, now: int, config: Config)
    requires Coupled(s) && id in s.machines && s.machines[id].windowStart < now
    ensures var live := SnapshotOf(id, s.machines[id], now, config);
      SameReport(live, Answer(s.rows, id, live.window, config))
      <==> Found(config, id) && now <= Latest(s.machines[id]).start
  {
    LiveFiguresIff(s, id, now, config);
    ClippedIff(RowsOf(s.rows, id), s.machines[id], now);
  }

  /** The same over whole runs, for the sums the two computations are fed with as well. */
  lemma LiveEqualsQueryInRuns(steps: seq<Step>, id: string, now: int, config: Config)
    requires NeverHalfApplied(steps) && id in Run(steps).machines && Run(steps).machines[id].windowStart < now
    ensures var s := Run(steps);
      var data := s.machines[id];
      var w := Window(data.windowStart, now);
      var live, answer := SnapshotOf(id, data, now, config), Answer(s.rows, id, w, config);
      && (forall planned ::
            Totals(w, CloseLast(data.intervals, now), planned) == Totals(w, RowsOf(s.rows, id), planned))
      && (SameFigures(live, answer) <==> Found(config, id))
      && data.intervals != []
      && (SameReport(live, answer) <==> Found(config, id) && now <= Latest(data).start)
  {
    var s := Run(steps);
    RunIsCoupled(steps);
    LiveFiguresIff(s, id, now, config);
    LiveEqualsQueryIff(s, id, now, config);
    var data := s.machines[id];
    var w := Window(data.windowStart, now);
    forall f: Figure ensures Sum(w, CloseLast(data.intervals, now), f) == Sum(w, RowsOf(s.rows, id), f) {
      TrackedFigures(RowsOf(s.rows, id), data, now, f);
    }
  }

  /** Conservation over whole runs, under arbitrary faults: without a shift config and without a late
      transition the answer's run time and downtimes add up to the window, and run time is the time the
      machine spent in no downtime. */
  lemma RunConservesWindow(steps: seq<Step>, machine: string, w: Window, config: Config)
    requires NeverLate(steps, machine, DowntimeRows) && w.from < w.to && !Found(config, machine)
    ensures AnswerConserved(Run(steps).rows, machine, w, config)
    ensures Answer(Run(steps).rows, machine, w, config).runTime
         == UpCount(RowsOf(Run(steps).rows, machine), w.from, w.to)
  {
    RunIsApart(steps, machine, DowntimeRows);
    WindowTimeIsConserved(RowsOf(Run(steps).rows, machine), w);
  }
}
