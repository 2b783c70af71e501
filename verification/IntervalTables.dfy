/** The state_intervals table as the ingest repository uses it. Each repository call is one atomic
    step; the environment decides with a `fault` argument whether it fails. */
module IntervalTables {
  import opened Options
  import opened Availability

  function RowsOf(rows: seq<Interval>, machine: string): seq<Interval> {
    if rows == [] then [] else
      RowsOf(rows[..|rows| - 1], machine)
      + if rows[|rows| - 1].machine == machine then [rows[|rows| - 1]] else []
  }

  function CloseRow(iv: Interval, machine: string, t: int): Interval {
    if iv.machine == machine && iv.IsOpen() then iv.(end := Some(t)) else iv
  }

  function Closed(rows: seq<Interval>, machine: string, t: int): seq<Interval> {
    seq(|rows|, i requires 0 <= i < |rows| => CloseRow(rows[i], machine, t))
  }

  /** The open row with the latest start. */
  function LatestOpen(rows: seq<Interval>): Option<Interval> {
    if rows == [] then None else
      var best, iv := LatestOpen(rows[..|rows| - 1]), rows[|rows| - 1];
      if iv.IsOpen() && (best.None? || best.value.start < iv.start) then Some(iv) else best
  }

  class IntervalTable {
    var rows: seq<Interval>

    constructor ()
      ensures rows == []
    {
      rows := [];
    }

    method OpenInterval(machine: string, state: MachineState, startedAt: int, fault: bool) returns (err: bool)
      modifies this
      ensures err == fault
      ensures rows == if err then old(rows) else old(rows) + [Interval(machine, state, startedAt, None)]
    {
      if fault {
        return true;
      }
      rows := rows + [Interval(machine, state, startedAt, None)];
      return false;
    }

    method CloseOpen(machine: string, endedAt: int, fault: bool) returns (err: bool)
      modifies this
      ensures err == fault
      ensures rows == if err then old(rows) else Closed(old(rows), machine, endedAt)
    {
      if fault {
        return true;
      }
      for i := 0 to |rows|
        invariant |rows| == |old(rows)|
        invariant forall j :: 0 <= j < i ==> rows[j] == CloseRow(old(rows)[j], machine, endedAt)
        invariant forall j :: i <= j < |rows| ==> rows[j] == old(rows)[j]
      {
        if rows[i].machine == machine && rows[i].IsOpen() {
          rows := rows[i := rows[i].(end := Some(endedAt))];
        }
      }
      return false;
    }

    method LastOpen(machine: string, fault: bool) returns (found: Option<Interval>, err: bool)
      ensures err == fault
      ensures !err ==> found == LatestOpen(RowsOf(rows, machine))
    {
      found := None;
      if fault {
        return None, true;
      }
      for i := 0 to |rows|
        invariant found == LatestOpen(RowsOf(rows[..i], machine))
      {
        var iv := rows[i];
        assert rows[..i + 1] == rows[..i] + [iv];
        ghost var before := RowsOf(rows[..i], machine);
        RowsOfAppend(rows[..i], iv, machine);
        LatestOpenAppend(before, iv);
        assert before + [] == before;
        if iv.machine == machine {
          if iv.IsOpen() && (found.None? || found.value.start < iv.start) {
            found := Some(iv);
          }
        }
      }
      assert rows[..|rows|] == rows;
      return found, false;
    }
  }

  /** LatestOpen is what the query promises: an open row of no earlier start than any open row. */
  lemma {:induction false} LatestOpenIsLatest(rows: seq<Interval>)
    ensures LatestOpen(rows).None? <==> forall iv | iv in rows :: !iv.IsOpen()
    ensures LatestOpen(rows).Some? ==>
      var best := LatestOpen(rows).value;
      best in rows && best.IsOpen() && forall iv | iv in rows && iv.IsOpen() :: iv.start <= best.start
  {
    if rows != [] {
      LatestOpenIsLatest(rows[..|rows| - 1]);
      assert rows == rows[..|rows| - 1] + [rows[|rows| - 1]];
    }
  }

  lemma LatestOpenAppend(rows: seq<Interval>, iv: Interval)
    ensures LatestOpen(rows + [iv])
         == if iv.IsOpen() && (LatestOpen(rows).None? || LatestOpen(rows).value.start < iv.start) then Some(iv)
            else LatestOpen(rows)
  {
    assert (rows + [iv])[..|rows|] == rows;
  }

  lemma RowsOfAppend(rows: seq<Interval>, iv: Interval, machine: string)
    ensures RowsOf(rows + [iv], machine) == RowsOf(rows, machine) + if iv.machine == machine then [iv] else []
  {
    assert (rows + [iv])[..|rows|] == rows;
  }

  lemma RowsOfMachine(rows: seq<Interval>, machine: string)
    ensures forall iv | iv in RowsOf(rows, machine) :: iv.machine == machine && iv in rows
  {
  }

  lemma {:induction false} RowsOfMembers(rows: seq<Interval>, machine: string)
    ensures forall iv :: iv in RowsOf(rows, machine) <==> iv in rows && iv.machine == machine
  {
    if rows != [] {
      RowsOfMembers(rows[..|rows| - 1], machine);
      assert rows == rows[..|rows| - 1] + [rows[|rows| - 1]];
    }
  }

  /** Closing one machine's open rows touches no other machine's rows. */
  lemma {:induction false} RowsOfClosed(rows: seq<Interval>, machine: string, t: int, other: string)
    ensures RowsOf(Closed(rows, machine, t), other)
         == if other == machine then Closed(RowsOf(rows, other), machine, t) else RowsOf(rows, other)
  {
    if rows != [] {
      var n := |rows| - 1;
      RowsOfClosed(rows[..n], machine, t, other);
      assert Closed(rows, machine, t)[..n] == Closed(rows[..n], machine, t);
      assert Closed(rows, machine, t)[n] == CloseRow(rows[n], machine, t);
      var before := RowsOf(rows[..n], other);
      assert Closed(before + [rows[n]], machine, t) == Closed(before, machine, t) + [CloseRow(rows[n], machine, t)];
    } else {
      assert Closed(rows, machine, t) == [];
    }
  }

  /** In a history the open row is the last one, so closing and finding it concern that row alone. */
  lemma HistoryOpen(rows: seq<Interval>)
    requires History(rows)
    ensures LatestOpen(rows) == if rows == [] then None else Some(rows[|rows| - 1])
  {
    if rows != [] {
      LatestOpenIsLatest(rows);
      assert rows[|rows| - 1] in rows;
    }
  }

  lemma HistoryClosed(rows: seq<Interval>, machine: string, t: int)
    requires History(rows) && rows != [] && forall iv | iv in rows :: iv.machine == machine
    ensures Closed(rows, machine, t) == rows[..|rows| - 1] + [rows[|rows| - 1].(end := Some(t))]
  {
    var n := |rows| - 1;
    forall i | 0 <= i < |rows|
      ensures Closed(rows, machine, t)[i] == (rows[..n] + [rows[n].(end := Some(t))])[i]
    {
      assert rows[i] in rows;
    }
  }
}
