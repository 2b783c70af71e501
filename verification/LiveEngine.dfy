/** The live engine: an in-memory accumulator of intervals per machine, recomputed on every tick. */
module LiveEngine {
  import opened Options
  import opened Instants
  import opened ShiftConfig
  import opened Availability
  import opened IntervalTables

  datatype Transition = Transition(machine: string, state: MachineState, timestamp: int)

  datatype MachineData = MachineData(intervals: seq<Interval>, windowStart: int)

  datatype Snapshot = Snapshot(machine: string, window: Window, result: Result, count: nat, shiftConfigMissing: bool,
                               openIntervalClipped: bool, noData: bool, computedAt: int)

  /** The state a machine entered last, as the engine has it. */
  function Latest(data: MachineData): Interval
    requires data.intervals != []
  {
    data.intervals[|data.intervals| - 1]
  }

  /** Close the last interval if it is open. */
  function CloseLast(intervals: seq<Interval>, t: int): seq<Interval> {
    var n := |intervals|;
    if n > 0 && intervals[n - 1].IsOpen() then
      intervals[..n - 1] + [intervals[n - 1].(end := Some(t))]
    else intervals
  }

  function Observed(machines: map<string, MachineData>, t: Transition): map<string, MachineData> {
    var data := if t.machine in machines then machines[t.machine] else MachineData([], t.timestamp);
    machines[t.machine := data.(intervals :=
      CloseLast(data.intervals, t.timestamp) + [Interval(t.machine, t.state, t.timestamp, None)])]
  }

  function RehydrateOne(machines: map<string, MachineData>, rows: seq<Interval>, id: string, fails: bool)
    : map<string, MachineData>
  {
    var open := LatestOpen(RowsOf(rows, id));
    if id in machines || fails || open.None? then machines
    else machines[id := MachineData([open.value], open.value.start)]
  }

  function Rehydrated(machines: map<string, MachineData>, rows: seq<Interval>, ids: seq<string>, failing: set<string>)
    : map<string, MachineData>
  {
    if ids == [] then machines else
      var id := ids[|ids| - 1];
      RehydrateOne(Rehydrated(machines, rows, ids[..|ids| - 1], failing), rows, id, id in failing)
  }

  /** Of the three flags only the last is ever raised. */
  function SnapshotOf(id: string, data: MachineData, now: int, config: Config): Snapshot {
    var w := Window(data.windowStart, now);
    var figures := Totals(w, CloseLast(data.intervals, now), PlannedFor(config, id, w));
    var result := AvailabilityOf(figures);
    Snapshot(id, w, result, figures.count, false, false, !result.hasData, now)
  }

  class Engine {
    var machines: map<string, MachineData>

    constructor ()
      ensures machines == map[]
    {
      machines := map[];
    }

    method Apply(t: Transition)
      modifies this
      ensures machines == Observed(old(machines), t)
    {
      if t.machine !in machines {
        machines := machines[t.machine := MachineData([], t.timestamp)];
      }
      var data := machines[t.machine];
      var n := |data.intervals|;
      if n > 0 {
        var last := data.intervals[n - 1];
        if last.IsOpen() {
          data := data.(intervals := data.intervals[n - 1 := last.(end := Some(t.timestamp))]);
        }
      }
      assert data.intervals == CloseLast(machines[t.machine].intervals, t.timestamp);
      data := data.(intervals := data.intervals + [Interval(t.machine, t.state, t.timestamp, None)]);
      assert machines[t.machine := data] == old(machines)[t.machine := data];
      machines := machines[t.machine := data];
    }

    method Rehydrate(table: IntervalTable, ids: seq<string>, failing: set<string>)
      modifies this
      ensures machines == Rehydrated(old(machines), table.rows, ids, failing)
    {
      for i := 0 to |ids|
        invariant machines == Rehydrated(old(machines), table.rows, ids[..i], failing)
      {
        assert ids[..i + 1][..i] == ids[..i];
        var id := ids[i];
        if id !in machines {
          var open, err := table.LastOpen(id, id in failing);
          if !err && open.Some? {
            machines := machines[id := MachineData([open.value], open.value.start)];
          }
        }
      }
      assert ids[..|ids|] == ids;
    }

    /** One snapshot per tracked machine whose shift can be read; the accumulator is left as it was. */
    method Tick(now: int, config: Config, failing: set<string>) returns (emitted: map<string, Snapshot>)
      ensures emitted.Keys == machines.Keys - failing
      ensures forall id :: id in emitted ==> emitted[id] == SnapshotOf(id, machines[id], now, config)
    {
      var snapshot := machines;
      emitted := map[];
      var todo := snapshot.Keys;
      while todo != {}
        invariant todo <= snapshot.Keys
        invariant emitted.Keys == snapshot.Keys - todo - failing
        invariant forall id :: id in emitted ==> emitted[id] == SnapshotOf(id, snapshot[id], now, config)
        decreases |todo|
      {
        var id :| id in todo;
        todo := todo - {id};
        var intervals := snapshot[id].intervals;
        var n := |intervals|;
        if n > 0 && intervals[n - 1].IsOpen() {
          intervals := intervals[n - 1 := intervals[n - 1].(end := Some(now))];
        }
        assert intervals == CloseLast(snapshot[id].intervals, now);
        var window := Window(snapshot[id].windowStart, now);
        if id !in failing {
          var planned, _ := ForMachineWindow(config, id, window);
          var figures := Aggregate(window, intervals, planned);
          var result := AvailabilityOf(figures);
          var s := Snapshot(id, window, result, figures.count, false, false, false, now);
          if !result.hasData {
            s := s.(noData := true);
          }
          emitted := emitted[id := s];
        }
      }
    }
  }
}
