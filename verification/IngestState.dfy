/** The ingest-state use case and the system it forms with the table and the live engine: any run of
    transitions, ticks, rehydrations and restarts, with store faults wherever they can strike. */
module IngestState {
  import opened Options
  import opened Instants
  import opened Availability
  import opened IntervalTables
  import opened LiveEngine

  /** Which of the three store calls of one Apply would fail. */
  datatype Faults = Faults(read: bool, close: bool, open: bool)

  datatype Outcome = ReadFailed | Ignored | CloseFailed | OpenFailed(closed: bool) | Applied(closed: bool)

  /** What one Apply does, given the rows of the transition's machine. */
  function DecideOn(mine: seq<Interval>, t: Transition, f: Faults): Outcome {
    var last := LatestOpen(mine);
    if f.read then ReadFailed
    else if last.Some? && (last.value.state == t.state || t.timestamp <= last.value.start) then Ignored
    else if last.Some? && f.close then CloseFailed
    else if f.open then OpenFailed(last.Some?)
    else Applied(last.Some?)
  }

  function Decide(rows: seq<Interval>, t: Transition, f: Faults): Outcome { DecideOn(RowsOf(rows, t.machine), t, f) }

  function RowsAfter(rows: seq<Interval>, t: Transition, o: Outcome): seq<Interval> {
    var closed := if (o.OpenFailed? || o.Applied?) && o.closed then Closed(rows, t.machine, t.timestamp) else rows;
    if o.Applied? then closed + [Interval(t.machine, t.state, t.timestamp, None)] else closed
  }

  /** At most one row of the machine is open. */
  predicate OneOpen(rows: seq<Interval>, machine: string) {
    forall i, j :: 0 <= i < j < |rows| && rows[i].machine == machine && rows[j].machine == machine ==>
      rows[i].end != None || rows[j].end != None
  }

  /** The machine's state changes: it is in no other open state, or was so before t. */
  predicate Changes(rows: seq<Interval>, t: Transition) {
    forall iv :: iv in rows && iv.machine == t.machine && iv.end == None ==>
      iv.state != t.state && iv.start < t.timestamp
  }

  predicate HasOpen(rows: seq<Interval>, machine: string) {
    exists iv :: iv in rows && iv.machine == machine && iv.end == None
  }

  /** Apply fails exactly when the read does, or a call that the change of state needs. */
  predicate MustFail(before: seq<Interval>, t: Transition, f: Faults) {
    f.read || (Changes(before, t) && (f.open || (f.close && HasOpen(before, t.machine))))
  }

  /** What one Apply must do to the table, by looking at the rows alone: the table grows
      exactly when the read and the insertion work and every open row of the machine can be closed and gives
      way to a later, different state; then the new row is last and the open row ends where it begins. */
  predicate Effective(before: seq<Interval>, after: seq<Interval>, t: Transition, f: Faults) {
    && (|after| > |before| <==>
          && !f.read && !f.open
          && forall iv :: iv in before && iv.machine == t.machine && iv.end == None ==>
               !f.close && iv.state != t.state && iv.start < t.timestamp)
    && (|after| > |before| ==>
          && |after| == |before| + 1
          && after[|before|] == Interval(t.machine, t.state, t.timestamp, None))
    && |after| >= |before|
    && (forall i :: 0 <= i < |before| ==>
          after[i] == if before[i].machine == t.machine && before[i].end == None
                         && !f.read && Changes(before, t) && !f.close
                      then before[i].(end := Some(t.timestamp)) else before[i])
  }

  /** With at most one open row, that row is the one found. */
  lemma TheOpenRow(rows: seq<Interval>, machine: string)
    requires OneOpen(rows, machine)
    ensures forall iv :: iv in rows && iv.machine == machine && iv.end == None
                         <==> LatestOpen(RowsOf(rows, machine)) == Some(iv)
  {
    RowsOfMembers(rows, machine);
    LatestOpenIsLatest(RowsOf(rows, machine));
    forall iv, x | iv in rows && x in rows && iv.machine == machine && x.machine == machine && iv.IsOpen() && x.IsOpen()
      ensures iv == x
    {
      var i :| 0 <= i < |rows| && rows[i] == iv;
      var j :| 0 <= j < |rows| && rows[j] == x;
    }
  }

  lemma TransitionIsEffective(rows: seq<Interval>, t: Transition, f: Faults)
    requires OneOpen(rows, t.machine)
    ensures var o := Decide(rows, t, f);
      Effective(rows, RowsAfter(rows, t, o), t, f) && (MustFail(rows, t, f) <==> !(o.Ignored? || o.Applied?))
  {
    TheOpenRow(rows, t.machine);
    var last := LatestOpen(RowsOf(rows, t.machine));
    assert last.Some? ==> last.value in rows && last.value.machine == t.machine && last.value.end == None;
    assert HasOpen(rows, t.machine) <==> last.Some?;
  }

  /** What Apply promises when at most one row of the machine is open. */
  predicate Served(before: seq<Interval>, after: seq<Interval>, t: Transition, f: Faults, err: bool) {
    OneOpen(before, t.machine) ==> Effective(before, after, t, f) && (err <==> MustFail(before, t, f))
  }

  lemma TransitionIsServed(rows: seq<Interval>, t: Transition, f: Faults)
    ensures var o := Decide(rows, t, f);
      Served(rows, RowsAfter(rows, t, o), t, f, !(o.Ignored? || o.Applied?))
  {
    if OneOpen(rows, t.machine) { TransitionIsEffective(rows, t, f); }
  }

  class UseCase {
    const store: IntervalTable
    const observer: Engine

    constructor (store: IntervalTable, observer: Engine)
      ensures this.store == store && this.observer == observer
    {
      this.store, this.observer := store, observer;
    }

    method Apply(t: Transition, f: Faults) returns (err: bool)
      modifies store, observer
      ensures var o := Decide(old(store.rows), t, f);
        && err == !(o.Ignored? || o.Applied?)
        && store.rows == RowsAfter(old(store.rows), t, o)
        && observer.machines == if o.Applied? then Observed(old(observer.machines), t) else old(observer.machines)
      ensures Served(old(store.rows), store.rows, t, f, err)
    {
      TransitionIsServed(store.rows, t, f);
      var last, readErr := store.LastOpen(t.machine, f.read);
      if readErr {
        return true;
      }
      if last.Some? {
        if last.value.state == t.state {
          return false;
        }
        if t.timestamp <= last.value.start {
          return false;
        }
        var closeErr := store.CloseOpen(t.machine, t.timestamp, f.close);
        if closeErr {
          return true;
        }
      }
      var openErr := store.OpenInterval(t.machine, t.state, t.timestamp, f.open);
      if openErr {
        return true;
      }
      observer.Apply(t);
      return false;
    }
  }

  datatype System = System(rows: seq<Interval>, machines: map<string, MachineData>)

  const INITIAL := System([], map[])

  /** A restart loses the engine's memory and keeps the table; a tick reads only. */
  datatype Step =
    | Transit(t: Transition, f: Faults)
    | Tick(now: int)
    | Rehydrate(ids: seq<string>, failing: set<string>)
    | Restart

  function Next(s: System, step: Step): System {
    match step
    case Transit(t, f) =>
      var o := Decide(s.rows, t, f);
      System(RowsAfter(s.rows, t, o), if o.Applied? then Observed(s.machines, t) else s.machines)
    case Tick(_) => s
    case Rehydrate(ids, failing) => s.(machines := Rehydrated(s.machines, s.rows, ids, failing))
    case Restart => s.(machines := map[])
  }

  function Run(steps: seq<Step>): System {
    if steps == [] then INITIAL else Next(Run(steps[..|steps| - 1]), steps[|steps| - 1])
  }

  /** The one harmful fault: the open row was closed and its successor could not be inserted. */
  predicate HalfApplied(s: System, step: Step) {
    step.Transit? && Decide(s.rows, step.t, step.f) == OpenFailed(true)
  }

  predicate NeverHalfApplied(steps: seq<Step>) {
    steps != [] ==>
      && NeverHalfApplied(steps[..|steps| - 1])
      && !HalfApplied(Run(steps[..|steps| - 1]), steps[|steps| - 1])
  }

  // ----- the coupling between engine and table -----

  predicate Tracks(data: MachineData, rows: seq<Interval>) {
    && data.intervals != []
    && |data.intervals| <= |rows|
    && data.intervals == rows[|rows| - |data.intervals|..]
    && data.windowStart == data.intervals[0].start
  }

  /** Every machine's rows form a history, and the engine holds a nonempty suffix of it for each
      machine it tracks. */
  ghost predicate Coupled(s: System) {
    && (forall m :: History(RowsOf(s.rows, m)))
    && (forall m :: m in s.machines ==> Tracks(s.machines[m], RowsOf(s.rows, m)))
  }

  /** A transition's effect on one machine's rows is that of the same outcome on those rows alone. */
  lemma RowsAfterCommutes(rows: seq<Interval>, t: Transition, o: Outcome, m: string)
    ensures RowsOf(RowsAfter(rows, t, o), m)
         == if m == t.machine then RowsAfter(RowsOf(rows, m), t, o) else RowsOf(rows, m)
  {
    var closed := (o.OpenFailed? || o.Applied?) && o.closed;
    var left := if closed then Closed(rows, t.machine, t.timestamp) else rows;
    if closed { RowsOfClosed(rows, t.machine, t.timestamp, m); }
    if o.Applied? {
      RowsOfAppend(left, Interval(t.machine, t.state, t.timestamp, None), m);
      assert RowsOf(left, m) + [] == RowsOf(left, m);
    }
  }

  /** One transition on one machine's history: it is extended, left alone, or (half applied) closed. */
  lemma HistoryTransit(rows: seq<Interval>, t: Transition, f: Faults)
    requires History(rows) && forall iv | iv in rows :: iv.machine == t.machine
    ensures var o, after := DecideOn(rows, t, f), RowsAfter(rows, t, DecideOn(rows, t, f));
      if o.Applied? then
        after == CloseLast(rows, t.timestamp) + [Interval(t.machine, t.state, t.timestamp, None)] && History(after)
      else if o == OpenFailed(true) then rows != [] && after == CloseLast(rows, t.timestamp)
      else after == rows
  {
    HistoryOpen(rows);
    if rows != [] { HistoryClosed(rows, t.machine, t.timestamp); }
  }

  /** An applied transition takes an engine that tracks one machine's history, or has not seen the machine,
      to one that tracks its new history. */
  lemma TransitTracks(rows: seq<Interval>, data: MachineData, t: Transition)
    requires data == MachineData([], t.timestamp) || Tracks(data, rows)
    ensures var iv := Interval(t.machine, t.state, t.timestamp, None);
      Tracks(data.(intervals := CloseLast(data.intervals, t.timestamp) + [iv]), CloseLast(rows, t.timestamp) + [iv])
  {
    if data.intervals != [] { SuffixGrows(data.intervals, rows, t); }
  }

  lemma TransitKeepsMachine(s: System, t: Transition, f: Faults)
    requires Coupled(s) && !HalfApplied(s, Transit(t, f))
    ensures var s', m := Next(s, Transit(t, f)), t.machine;
      History(RowsOf(s'.rows, m)) && (m in s'.machines ==> Tracks(s'.machines[m], RowsOf(s'.rows, m)))
  {
    var m := t.machine;
    var rows := RowsOf(s.rows, m);
    RowsAfterCommutes(s.rows, t, Decide(s.rows, t, f), m);
    RowsOfMachine(s.rows, m);
    HistoryTransit(rows, t, f);
    assert m in s.machines ==> Tracks(s.machines[m], rows);
    if Decide(s.rows, t, f).Applied? {
      TransitTracks(rows, if m in s.machines then s.machines[m] else MachineData([], t.timestamp), t);
    }
  }

  lemma TransitKeepsCoupling(s: System, t: Transition, f: Faults)
    requires Coupled(s) && !HalfApplied(s, Transit(t, f))
    ensures Coupled(Next(s, Transit(t, f)))
  {
    var s' := Next(s, Transit(t, f));
    TransitKeepsMachine(s, t, f);
    forall m | m != t.machine
      ensures History(RowsOf(s'.rows, m)) && (m in s'.machines ==> Tracks(s'.machines[m], RowsOf(s'.rows, m)))
    {
      TransitKeepsOthers(s, t, f, m);
    }
  }

  lemma TransitKeepsOthers(s: System, t: Transition, f: Faults, m: string)
    requires m != t.machine
    ensures var s' := Next(s, Transit(t, f));
      && RowsOf(s'.rows, m) == RowsOf(s.rows, m)
      && (m in s'.machines <==> m in s.machines)
      && (m in s.machines ==> s'.machines[m] == s.machines[m])
  {
    RowsAfterCommutes(s.rows, t, Decide(s.rows, t, f), m);
  }

  /** Closing the last interval and appending the new one keeps a suffix a suffix. */
  lemma SuffixGrows(intervals: seq<Interval>, rows: seq<Interval>, t: Transition)
    requires 0 < |intervals| <= |rows| && intervals == rows[|rows| - |intervals|..]
    ensures var iv, k := Interval(t.machine, t.state, t.timestamp, None), |rows| - |intervals|;
      && CloseLast(intervals, t.timestamp) + [iv] == (CloseLast(rows, t.timestamp) + [iv])[k..]
      && CloseLast(intervals, t.timestamp)[0].start == intervals[0].start
  {
    assert intervals[|intervals| - 1] == rows[|rows| - 1];
  }

  lemma RehydrateOneKeepsCoupling(s: System, id: string, fails: bool)
    requires Coupled(s)
    ensures Coupled(s.(machines := RehydrateOne(s.machines, s.rows, id, fails)))
  {
    var rows := RowsOf(s.rows, id);
    HistoryOpen(rows);
    if rows != [] { LastRowTracks(rows); }
  }

  lemma LastRowTracks(rows: seq<Interval>)
    requires rows != []
    ensures var last := rows[|rows| - 1]; Tracks(MachineData([last], last.start), rows)
  {
  }

  lemma {:induction false} RehydrateKeepsCoupling(s: System, ids: seq<string>, failing: set<string>)
    requires Coupled(s)
    ensures Coupled(s.(machines := Rehydrated(s.machines, s.rows, ids, failing)))
  {
    if ids != [] {
      var n := |ids| - 1;
      RehydrateKeepsCoupling(s, ids[..n], failing);
      var s' := s.(machines := Rehydrated(s.machines, s.rows, ids[..n], failing));
      RehydrateOneKeepsCoupling(s', ids[n], ids[n] in failing);
    }
  }

  /** A step keeps engine and table coupled exactly when it is not half applied. */
  lemma StepKeepsCouplingIff(s: System, step: Step)
    requires Coupled(s)
    ensures Coupled(Next(s, step)) <==> !HalfApplied(s, step)
  {
    match step
    case Transit(t, f) =>
      if HalfApplied(s, step) {
        HalfAppliedParts(s, t, f);
      } else {
        TransitKeepsCoupling(s, t, f);
      }
    case Tick(_) =>
    case Rehydrate(ids, failing) => RehydrateKeepsCoupling(s, ids, failing);
    case Restart =>
  }

  /** A half-applied transition breaks the history of its machine's rows, and if the engine tracks that
      machine, the two part. */
  lemma HalfAppliedParts(s: System, t: Transition, f: Faults)
    requires Coupled(s) && HalfApplied(s, Transit(t, f))
    ensures var s', m := Next(s, Transit(t, f)), t.machine;
      !History(RowsOf(s'.rows, m)) && (m in s'.machines ==> !Tracks(s'.machines[m], RowsOf(s'.rows, m)))
  {
    var m := t.machine;
    RowsAfterCommutes(s.rows, t, OpenFailed(true), m);
    RowsOfMachine(s.rows, m);
    HistoryTransit(RowsOf(s.rows, m), t, f);
    var rows := RowsOf(Next(s, Transit(t, f)).rows, m);
    assert rows != [] && !rows[|rows| - 1].IsOpen();
    if m in s.machines {
      var data := s.machines[m];
      assert data.intervals[|data.intervals| - 1].IsOpen();
    }
  }

  /** Coupling over whole runs. */
  lemma {:induction false} RunIsCoupled(steps: seq<Step>)
    requires NeverHalfApplied(steps)
    ensures Coupled(Run(steps))
  {
    if steps != [] {
      RunIsCoupled(steps[..|steps| - 1]);
      StepKeepsCouplingIff(Run(steps[..|steps| - 1]), steps[|steps| - 1]);
    }
  }

  // ----- what survives arbitrary faults -----

  predicate Sound(rows: seq<Interval>) {
    && (forall i, j :: 0 <= i < j < |rows| ==> !(rows[i].IsOpen() && rows[j].IsOpen()))
    && (forall i :: 0 <= i < |rows| && rows[i].end.Some? ==> rows[i].start < rows[i].end.value)
  }

  lemma SoundClosed(rows: seq<Interval>, m: string, t: int)
    requires Sound(rows) && forall iv | iv in rows :: iv.machine == m
    requires LatestOpen(rows).Some? ==> LatestOpen(rows).value.start < t
    ensures Sound(Closed(rows, m, t)) && forall iv | iv in Closed(rows, m, t) :: !iv.IsOpen()
  {
    LatestOpenIsLatest(rows);
    assert forall i :: 0 <= i < |rows| ==> rows[i] in rows;
  }

  lemma SoundTransit(rows: seq<Interval>, t: Transition, f: Faults)
    requires Sound(rows) && forall iv | iv in rows :: iv.machine == t.machine
    ensures Sound(RowsAfter(rows, t, DecideOn(rows, t, f)))
  {
    var o := DecideOn(rows, t, f);
    LatestOpenIsLatest(rows);
    if o.Applied? || o.OpenFailed? {
      SoundClosed(rows, t.machine, t.timestamp);
      var left := if o.closed then Closed(rows, t.machine, t.timestamp) else rows;
      assert forall i :: 0 <= i < |left| ==> left[i] in left;
    }
  }

  /** In any run whatever, with faults at any call: a machine has at most one open row, and every
      closed row has positive length. */
  lemma {:induction false} RunIsSound(steps: seq<Step>, m: string)
    ensures Sound(RowsOf(Run(steps).rows, m))
  {
    if steps != [] {
      var s, step := Run(steps[..|steps| - 1]), steps[|steps| - 1];
      RunIsSound(steps[..|steps| - 1], m);
      if step.Transit? {
        RowsAfterCommutes(s.rows, step.t, Decide(s.rows, step.t, step.f), m);
        if m == step.t.machine {
          RowsOfMachine(s.rows, m);
          SoundTransit(RowsOf(s.rows, m), step.t, step.f);
        }
      }
    }
  }

  // ----- when rows stay apart, and window time conserved, under arbitrary faults -----

  /** An applied transition that is stamped before the end of a recorded row; in scope Downtime, both put
      the machine into downtime. */
  predicate LateOn(mine: seq<Interval>, t: Transition, f: Faults, scope: Scope) {
    && DecideOn(mine, t, f).Applied?
    && InScope(Interval(t.machine, t.state, t.timestamp, None), scope)
    && exists iv :: iv in mine && InScope(iv, scope) && iv.end.Some? && t.timestamp < iv.end.value
  }

  predicate Late(s: System, step: Step, machine: string, scope: Scope) {
    step.Transit? && step.t.machine == machine && LateOn(RowsOf(s.rows, machine), step.t, step.f, scope)
  }

  /** Closing open rows that began before t shortens them: no instant gains a row, and none after t has one
      that was open. */
  lemma ClosedCovers(rows: seq<Interval>, m: string, t: int, i: nat, u: int)
    requires i < |rows| && rows[i].machine == m
    ensures Closed(rows, m, t)[i].Covers(u) ==> rows[i].Covers(u)
    ensures Closed(rows, m, t)[i].Covers(u) && t <= u ==> rows[i].end.Some? && t < rows[i].end.value
    ensures forall scope :: InScope(Closed(rows, m, t)[i], scope) <==> InScope(rows[i], scope)
  {
  }

  lemma ClosedIsApart(rows: seq<Interval>, m: string, t: int, scope: Scope)
    requires Apart(rows, scope) && forall iv | iv in rows :: iv.machine == m
    ensures Apart(Closed(rows, m, t), scope)
  {
    var left := Closed(rows, m, t);
    forall u ensures !Doubled(left, scope, u) {
      if i, j :| 0 <= i < j < |left| && InScope(left[i], scope) && InScope(left[j], scope)
                 && left[i].Covers(u) && left[j].Covers(u) {
        assert rows[i] in rows && rows[j] in rows;
        ClosedCovers(rows, m, t, i, u);
        ClosedCovers(rows, m, t, j, u);
        assert Doubled(rows, scope, u);
      }
    }
  }

  /** Some row in scope covers an instant from t on. */
  ghost predicate Reaches(rows: seq<Interval>, t: int, scope: Scope) {
    exists x, u :: x in rows && InScope(x, scope) && t <= u && x.Covers(u)
  }

  /** A row opened at t keeps rows apart exactly when no row in scope reaches beyond t. */
  lemma OpenedIsApart(rows: seq<Interval>, iv: Interval, scope: Scope)
    requires Apart(rows, scope) && iv.IsOpen()
    ensures Apart(rows + [iv], scope) <==> !(InScope(iv, scope) && Reaches(rows, iv.start, scope))
  {
    var all, n := rows + [iv], |rows|;
    assert all[n] == iv && forall i :: 0 <= i < n ==> all[i] == rows[i];
    if InScope(iv, scope) {
      if x, u :| x in rows && InScope(x, scope) && iv.start <= u && x.Covers(u) {
        var i :| 0 <= i < n && rows[i] == x;
        assert all[i].Covers(u) && all[n].Covers(u);
        assert Doubled(all, scope, u);
      }
    }
    if t :| Doubled(all, scope, t) {
      var i, j :| 0 <= i < j < |all| && InScope(all[i], scope) && InScope(all[j], scope)
                  && all[i].Covers(t) && all[j].Covers(t);
      assert j < n ==> Doubled(rows, scope, t);
      assert rows[i] in rows;
    }
  }

  /** From a machine's sound rows that are apart, a transition under any faults leaves them apart exactly
      when it is not late. */
  lemma TransitApartIff(rows: seq<Interval>, t: Transition, f: Faults, scope: Scope)
    requires Sound(rows) && Apart(rows, scope) && forall iv | iv in rows :: iv.machine == t.machine
    ensures Apart(RowsAfter(rows, t, DecideOn(rows, t, f)), scope) <==> !LateOn(rows, t, f, scope)
  {
    var o := DecideOn(rows, t, f);
    LatestOpenIsLatest(rows);
    ClosedIsApart(rows, t.machine, t.timestamp, scope);
    if o.Applied? {
      var left := if o.closed then Closed(rows, t.machine, t.timestamp) else rows;
      OpenedIsApart(left, Interval(t.machine, t.state, t.timestamp, None), scope);
      ReachesBeyond(rows, left, t.machine, t.timestamp, scope);
    }
  }

  /** After the closing, a row reaches beyond t exactly when it was recorded with a later end. */
  lemma ReachesBeyond(rows: seq<Interval>, left: seq<Interval>, m: string, t: int, scope: Scope)
    requires Sound(rows) && forall iv | iv in rows :: iv.machine == m
    requires left == Closed(rows, m, t) || (left == rows && forall iv | iv in rows :: !iv.IsOpen())
    ensures Reaches(left, t, scope)
       <==> exists iv :: iv in rows && InScope(iv, scope) && iv.end.Some? && t < iv.end.value
  {
    if x, u :| x in left && InScope(x, scope) && t <= u && x.Covers(u) {
      var i :| 0 <= i < |left| && left[i] == x;
      assert rows[i] in rows;
    }
    if iv :| iv in rows && InScope(iv, scope) && iv.end.Some? && t < iv.end.value {
      var i :| 0 <= i < |rows| && rows[i] == iv;
      assert left[i] == iv && iv.Covers(iv.end.value - 1);
    }
  }

  /** A step keeps a machine's rows apart exactly when it is not late. */
  lemma StepKeepsApartIff(s: System, step: Step, machine: string, scope: Scope)
    requires Sound(RowsOf(s.rows, machine)) && Apart(RowsOf(s.rows, machine), scope)
    ensures Apart(RowsOf(Next(s, step).rows, machine), scope) <==> !Late(s, step, machine, scope)
  {
    if step.Transit? {
      RowsAfterCommutes(s.rows, step.t, Decide(s.rows, step.t, step.f), machine);
      if machine == step.t.machine {
        RowsOfMachine(s.rows, machine);
        TransitApartIff(RowsOf(s.rows, machine), step.t, step.f, scope);
      }
    }
  }

  /** A step keeps window time conserved, on every window, exactly when it does not apply a downtime transition
      stamped before the end of a recorded downtime row. */
  lemma StepKeepsConservationIff(s: System, step: Step, machine: string)
    requires Sound(RowsOf(s.rows, machine)) && AlwaysConserved(RowsOf(s.rows, machine))
    ensures AlwaysConserved(RowsOf(Next(s, step).rows, machine)) <==> !Late(s, step, machine, DowntimeRows)
  {
    ConservationIff(RowsOf(s.rows, machine));
    ConservationIff(RowsOf(Next(s, step).rows, machine));
    StepKeepsApartIff(s, step, machine, DowntimeRows);
  }

  predicate NeverLate(steps: seq<Step>, machine: string, scope: Scope) {
    steps != [] ==>
      && NeverLate(steps[..|steps| - 1], machine, scope)
      && !Late(Run(steps[..|steps| - 1]), steps[|steps| - 1], machine, scope)
  }

  /** Under arbitrary faults at any call: without a late transition a machine's rows never share an instant. */
  lemma {:induction false} RunIsApart(steps: seq<Step>, machine: string, scope: Scope)
    requires NeverLate(steps, machine, scope)
    ensures Apart(RowsOf(Run(steps).rows, machine), scope)
  {
    if steps != [] {
      RunIsApart(steps[..|steps| - 1], machine, scope);
      RunIsSound(steps[..|steps| - 1], machine);
      StepKeepsApartIff(Run(steps[..|steps| - 1]), steps[|steps| - 1], machine, scope);
    }
  }

  /** A transition is late only where an earlier one was half applied. */
  lemma {:induction false} LateNeedsHalfApplied(steps: seq<Step>, machine: string, scope: Scope)
    requires NeverHalfApplied(steps)
    ensures NeverLate(steps, machine, scope)
  {
    if steps != [] {
      var before, step := steps[..|steps| - 1], steps[|steps| - 1];
      LateNeedsHalfApplied(before, machine, scope);
      RunIsCoupled(before);
      RunIsCoupled(steps);
      RunIsSound(before, machine);
      HistoryIsApart(RowsOf(Run(before).rows, machine), scope);
      HistoryIsApart(RowsOf(Run(steps).rows, machine), scope);
      StepKeepsApartIff(Run(before), step, machine, scope);
    }
  }

  // ----- the current state of a machine over a run, without the table -----

  /** What is known of a machine: nothing, or the state it is in and since when. */
  datatype Standing = Unknown | In(state: MachineState, since: int)

  function Moved(now: Standing, t: Transition, f: Faults): Standing {
    if f.read then now
    else match now
      case Unknown => if f.open then Unknown else In(t.state, t.timestamp)
      case In(state, since) =>
        if t.state == state || t.timestamp <= since || f.close then now
        else if f.open then Unknown
        else In(t.state, t.timestamp)
  }

  function StandingAfter(steps: seq<Step>, machine: string): Standing {
    if steps == [] then Unknown else
      var before, step := StandingAfter(steps[..|steps| - 1], machine), steps[|steps| - 1];
      if step.Transit? && step.t.machine == machine then Moved(before, step.t, step.f) else before
  }

  function OpenRow(now: Standing, machine: string): Option<Interval> {
    match now
    case Unknown => None
    case In(state, since) => Some(Interval(machine, state, since, None))
  }

  lemma SoundSnoc(rows: seq<Interval>, iv: Interval)
    requires Sound(rows + [iv])
    ensures Sound(rows) && (iv.IsOpen() ==> forall x :: x in rows ==> !x.IsOpen())
  {
    var all := rows + [iv];
    assert all[|rows|] == iv && forall i :: 0 <= i < |rows| ==> all[i] == rows[i];
  }

  lemma {:induction false} SoundIsOneOpen(rows: seq<Interval>, machine: string)
    requires Sound(RowsOf(rows, machine))
    ensures OneOpen(rows, machine)
  {
    if rows != [] {
      var before, iv := rows[..|rows| - 1], rows[|rows| - 1];
      var mine := RowsOf(before, machine);
      if iv.machine == machine { SoundSnoc(mine, iv); }
      assert mine + [] == mine;
      SoundIsOneOpen(before, machine);
      RowsOfMembers(before, machine);
      assert forall i :: 0 <= i < |before| ==> before[i] in before && before[i] == rows[i];
    }
  }

  lemma TransitMoves(rows: seq<Interval>, t: Transition, f: Faults, now: Standing)
    requires Sound(rows) && (forall iv | iv in rows :: iv.machine == t.machine)
    requires LatestOpen(rows) == OpenRow(now, t.machine)
    ensures LatestOpen(RowsAfter(rows, t, DecideOn(rows, t, f))) == OpenRow(Moved(now, t, f), t.machine)
  {
    var o := DecideOn(rows, t, f);
    if o.Applied? || o.OpenFailed? {
      SoundClosed(rows, t.machine, t.timestamp);
      var left := if o.closed then Closed(rows, t.machine, t.timestamp) else rows;
      LatestOpenIsLatest(left);
      LatestOpenAppend(left, Interval(t.machine, t.state, t.timestamp, None));
    }
  }

  /** In every run, whatever fails: the open row of a machine is its standing, that is, the last transition
      that brought a later and different state, unless an insertion has failed since. Engine restarts and
      rehydrations have no part in it. */
  lemma {:induction false} RunStanding(steps: seq<Step>, machine: string)
    ensures LatestOpen(RowsOf(Run(steps).rows, machine)) == OpenRow(StandingAfter(steps, machine), machine)
  {
    if steps != [] {
      var s, step := Run(steps[..|steps| - 1]), steps[|steps| - 1];
      RunStanding(steps[..|steps| - 1], machine);
      RunIsSound(steps[..|steps| - 1], machine);
      if step.Transit? {
        RowsAfterCommutes(s.rows, step.t, Decide(s.rows, step.t, step.f), machine);
        if machine == step.t.machine {
          RowsOfMachine(s.rows, machine);
          TransitMoves(RowsOf(s.rows, machine), step.t, step.f, StandingAfter(steps[..|steps| - 1], machine));
        }
      }
    }
  }

  /** In every run, each transition is effective. */
  lemma RunIsEffective(steps: seq<Step>, t: Transition, f: Faults)
    ensures Effective(Run(steps).rows, Next(Run(steps), Transit(t, f)).rows, t, f)
  {
    var s := Run(steps);
    RunIsSound(steps, t.machine);
    SoundIsOneOpen(s.rows, t.machine);
    TransitionIsEffective(s.rows, t, f);
  }

  // ----- which machines the engine tracks -----

  /** The engine hears of exactly the transitions that enter the table, and then tracks the machine in its new
      state; no transition makes it forget or touches any other machine. */
  lemma TransitTrackedIff(s: System, t: Transition, f: Faults, machine: string)
    ensures var s' := Next(s, Transit(t, f));
      var grows := |s'.rows| > |s.rows| && t.machine == machine;
      && (machine in s'.machines <==> machine in s.machines || grows)
      && (grows ==> s'.machines[machine].intervals != []
                    && Latest(s'.machines[machine]) == Interval(machine, t.state, t.timestamp, None))
      && (machine in s.machines && !grows ==> s'.machines[machine] == s.machines[machine])
  {
    var o := Decide(s.rows, t, f);
    assert |RowsAfter(s.rows, t, o)| > |s.rows| <==> o.Applied?;
  }

  /** A rehydration adds exactly the listed machines that have an open row and can be read, each from its open
      row, and touches no machine tracked already. */
  lemma {:induction false} RehydratedIff(machines: map<string, MachineData>, rows: seq<Interval>, ids: seq<string>,
                                         failing: set<string>, machine: string)
    ensures var after := Rehydrated(machines, rows, ids, failing);
      var open := LatestOpen(RowsOf(rows, machine));
      && (machine in after <==> machine in machines || (machine in ids && machine !in failing && open.Some?))
      && (machine in machines ==> after[machine] == machines[machine])
      && (machine in after && machine !in machines ==> after[machine] == MachineData([open.value], open.value.start))
  {
    if ids != [] {
      var before, id := ids[..|ids| - 1], ids[|ids| - 1];
      RehydratedIff(machines, rows, before, failing, machine);
      assert ids == before + [id];
    }
  }

  const OK := Faults(false, false, false)

  // Three transitions of which the second half-fails.
  const STOP := Transit(Transition("m", Stopped, 10), OK)
  const HALF := Transit(Transition("m", Running, 20), OK.(open := true))
  const LATE := Transit(Transition("m", Stopped, 5), OK)
  const HALF_FAILED_RUN: seq<Step> := [STOP] + [HALF] + [LATE]

  lemma RunSnoc(steps: seq<Step>, step: Step)
    ensures Run(steps + [step]) == Next(Run(steps), step)
  {
    assert (steps + [step])[..|steps|] == steps;
  }

  lemma OneRow(iv: Interval)
    ensures RowsOf([iv], iv.machine) == [iv] && Closed([iv], iv.machine, 20) == [CloseRow(iv, iv.machine, 20)]
    ensures LatestOpen([iv]) == if iv.IsOpen() then Some(iv) else None
  {
    assert [iv][..0] == [];
  }

  lemma HalfFailedStart()
    ensures Run([STOP] + [HALF]).rows == [Interval("m", Stopped, 10, Some(20))]
  {
    OneRow(Interval("m", Stopped, 10, None));
    RunSnoc([], STOP);
    assert [] + [STOP] == [STOP];
    assert Run([STOP]).rows == [Interval("m", Stopped, 10, None)];
    RunSnoc([STOP], HALF);
  }

  lemma HalfFailedRows()
    ensures Run(HALF_FAILED_RUN).rows == [Interval("m", Stopped, 10, Some(20)), Interval("m", Stopped, 5, None)]
  {
    HalfFailedStart();
    OneRow(Interval("m", Stopped, 10, Some(20)));
    RunSnoc([STOP] + [HALF], LATE);
  }

  lemma HalfFailedFigures(b: Interval, c: Interval, w: Window)
    requires b == Interval("m", Stopped, 10, Some(20)) && c == Interval("m", Stopped, 5, None) && w == Window(5, 25)
    ensures RowsOf([b, c], "m") == [b, c] && Sum(w, [b, c], UnplannedDown) == 30
  {
    assert [b] + [c] == [b, c] && [] + [b] == [b];
    OneRow(b);
    RowsOfAppend([b], c, "m");
    SumPush(w, [], b, UnplannedDown);
    SumPush(w, [b], c, UnplannedDown);
  }

  /** A half-applied transition does real harm: the rows left overlap, and run time and downtimes of a
      window no longer add up to it. */
  lemma HalfAppliedBreaksConservation()
    ensures var r := AvailabilityOf(Totals(Window(5, 25), RowsOf(Run(HALF_FAILED_RUN).rows, "m"), 20));
      r.runTime + r.plannedDown + r.unplannedDown != 20
  {
    HalfFailedRows();
    HalfFailedFigures(Interval("m", Stopped, 10, Some(20)), Interval("m", Stopped, 5, None), Window(5, 25));
  }
}
