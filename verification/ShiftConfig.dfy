/** The shift reader both availability features use: exact machine match first, then the wildcard. */
module ShiftConfig {
  import opened Instants
  import opened Shifts
  import opened ShiftMeasure

  // The active shifts stored under each machine id.
  type Config = map<string, seq<Shift>>

  const WILDCARD: string := "*"

  function Stored(config: Config, machine: string): seq<Shift> {
    if machine in config then config[machine] else []
  }

  function ShiftsFor(config: Config, machine: string): seq<Shift> {
    if Stored(config, machine) != [] then Stored(config, machine) else Stored(config, WILDCARD)
  }

  function TotalPlanned(shifts: seq<Shift>, w: Window): int {
    if shifts == [] then 0 else
      TotalPlanned(shifts[..|shifts| - 1], w) + PlannedTime(shifts[|shifts| - 1], w)
  }

  function Found(config: Config, machine: string): bool { ShiftsFor(config, machine) != [] }

  function PlannedFor(config: Config, machine: string, w: Window): int {
    TotalPlanned(ShiftsFor(config, machine), w)
  }

  method ForMachineWindow(config: Config, machine: string, w: Window) returns (planned: int, found: bool)
    ensures planned == PlannedFor(config, machine, w) && found == Found(config, machine)
    ensures !found ==> planned == 0
  {
    var shifts := Stored(config, machine);
    if |shifts| == 0 && machine != WILDCARD {
      shifts := Stored(config, WILDCARD);
    }
    if |shifts| == 0 {
      return 0, false;
    }
    planned, found := 0, true;
    for i := 0 to |shifts|
      invariant planned == TotalPlanned(shifts[..i], w)
    {
      var p := PlannedProductionTime(shifts[i], w);
      assert shifts[..i + 1][..i] == shifts[..i];
      planned := planned + p;
    }
    assert shifts[..|shifts|] == shifts;
  }

  predicate HasOwn(config: Config, machine: string) { machine in config && |config[machine]| > 0 }

  /** A machine with shifts of its own is planned by them alone; any other by those stored under "*", and the
      result says whether there were any. What is stored under other names does not matter. */
  lemma OwnShiftsFirst(config: Config, machine: string, w: Window)
    ensures Found(config, machine) <==> HasOwn(config, machine) || HasOwn(config, "*")
    ensures HasOwn(config, machine) ==>
      forall other: Config | HasOwn(other, machine) && other[machine] == config[machine] ::
        PlannedFor(other, machine, w) == PlannedFor(config, machine, w)
    ensures !HasOwn(config, machine) ==> PlannedFor(config, machine, w) == PlannedFor(config, "*", w)
    ensures !Found(config, machine) ==> PlannedFor(config, machine, w) == 0
  {
  }

  /** The shifts used are added up: one alone plans its own time, and lists add. */
  lemma {:induction false} ShiftsAdd(a: seq<Shift>, b: seq<Shift>, s: Shift, w: Window)
    ensures TotalPlanned([s], w) == PlannedTime(s, w)
    ensures TotalPlanned(a + b, w) == TotalPlanned(a, w) + TotalPlanned(b, w)
    decreases |b|
  {
    assert [s][..0] == [];
    if b == [] {
      assert a + b == a;
    } else {
      assert (a + b)[..|a + b| - 1] == a + b[..|b| - 1];
      ShiftsAdd(a, b[..|b| - 1], s, w);
    }
  }

  /** So a machine with one shift of its own is planned by it, whatever the wildcard holds. */
  lemma OneShiftPlans(config: Config, machine: string, s: Shift, w: Window)
    requires machine in config && config[machine] == [s]
    ensures PlannedFor(config, machine, w) == PlannedTime(s, w)
  {
    ShiftsAdd([], [], s, w);
  }

  predicate WellFormed(shifts: seq<Shift>) { forall s | s in shifts :: Scannable(s) && DisjointBreaks(s) }

  lemma {:induction false} TotalPlannedAdditive(shifts: seq<Shift>, a: int, b: int, c: int)
    requires WellFormed(shifts) && a <= b <= c
    ensures TotalPlanned(shifts, Window(a, c))
         == TotalPlanned(shifts, Window(a, b)) + TotalPlanned(shifts, Window(b, c))
  {
    if shifts != [] {
      PlannedTimeIsAdditive(shifts[|shifts| - 1], a, b, c);
      TotalPlannedAdditive(shifts[..|shifts| - 1], a, b, c);
    }
  }

  /** A machine's planned time adds up over adjacent windows, over all of its shifts. */
  lemma PlannedForAdditive(config: Config, machine: string, a: int, b: int, c: int)
    requires WellFormed(ShiftsFor(config, machine)) && a <= b <= c
    ensures PlannedFor(config, machine, Window(a, c))
         == PlannedFor(config, machine, Window(a, b)) + PlannedFor(config, machine, Window(b, c))
  {
    TotalPlannedAdditive(ShiftsFor(config, machine), a, b, c);
  }
}
