# Verified model of an MQTT edge broker with OEE accounting

The repository is an MQTT 3.1.1 broker for the edge that also accounts for machine availability. This project
models its three cores and proves what they are for.

1. **Availability accounting** (`Instants`, `Shifts`, `ShiftMeasure`, `ShiftWeek`, `ShiftDates`, `ShiftConfig`,
   `Availability`, `IntervalTables`, `LiveEngine`, `IngestState`, `Query`, `LiveQuery`). State intervals live in a table
   and, a second time, in the memory of the live engine. Planned production time is found by scanning days and clipping
   shifts and breaks. Proved: planned time is a measure, additive and week-periodic; the engine's memory is a suffix
   of the table's history in every run; live snapshots and queries agree, and exactly when; window time is conserved.
2. **Wire codec and sessions** (`Wire`, `Framing`, `Packets`, `TopicRegistries`, `ClientManagers`, `Ownership`,
   `ReadLoop`, `ByteLaws`, `ConnectionLifecycle`). Proved: round trips in both directions for lengths, strings, frames
   and the three packets the broker decodes; one matching reply per request, read back from the bytes written;
   exclusive publishing over all interleavings of connections.
3. **Ingestion pipeline** (`Pipeline`, `PipelineLaws`). Router, topic queues, consumers and fan-out as a step system
   under any interleaving, store failure, worker failure and cancellation. Proved: per-topic order and conservation,
   persistence before dispatch, deadlock freedom and draining. `EndToEnd` joins it to the sessions: per client and
   topic, rows follow the order of the PUBLISH packets received.

Imperative code of the source is imperative here: classes for the table, the engine, the use case, the reader, the
registry, the client manager and the session, and loops for loops. Each method is proved equal to a function of its
inputs and old state, and the laws are lemmas about those functions; the state machines of `IngestState`, `Ownership`
and `ReadLoop` are built from the same functions the methods are proved against. Beside the laws that relate such
functions to each other, each main operation has one that says what it does without them: by dates in `ShiftDates`, by
bytes in `ByteLaws`, by the rows alone in `IngestState.Effective` and `Query.Truthful`, by the first bytes written in
`ConnectionLifecycle.Greeted`, and by buffers in `PipelineLaws.BackpressureIff`.

Conventions: instants and durations are integers in nanoseconds; a zone is a fixed offset, so every day has 1440
minutes; bytes are integers below 256; names are byte sequences. An `Iff` in a lemma's name means that the exact
condition is proved, both ways.

## What the proofs found

- **Live against query.** The live tick drops the `found` result of the shift reader, so without a shift config it
  reports no data; the query falls back to the window's length. Figures, count and data flag agree if and only if a
  config is found (`LiveQuery.LiveFiguresIff`). Both reports carry three flags, but the tick raises only one of them:
  the query also says when it clipped an open row, which is the usual case. All fields agree if and only if a config
  is found and the latest transition is not stamped before now (`LiveQuery.LiveEqualsQueryIff`).
- **Half-applied transitions.** `Apply` closes the open row and opens the next in two store calls. If the second one
  fails, the machine's rows are no longer a gapless history and, if the engine tracks the machine, table and engine
  part; no other step breaks their coupling (`IngestState.StepKeepsCouplingIff`, `IngestState.HalfAppliedParts`).
- **Late transitions.** With no row open, a transition stamped before a recorded end is accepted, and rows overlap.
  Window time is conserved if and only if no instant is covered by two downtime rows (`Availability.ConservationIff`),
  and a transition keeps it so if and only if it is not applied late, a guard that can be checked before the call
  (`IngestState.StepKeepsConservationIff`, `IngestState.StepKeepsApartIff`). Only half-applied transitions make late
  ones possible (`IngestState.LateNeedsHalfApplied`; one run is `IngestState.HalfAppliedBreaksConservation`).
- **Overlapping breaks, long shifts.** Breaks that share time are subtracted twice, and the clamp hides it; a shift
  that runs into the next active day's shift is counted twice where they overlap. The exact conditions, for every
  shift that the scan can reach, are `ShiftMeasure.PlannedTimeAdditiveIff`, `ShiftMeasure.PlannedTimeBoundIff` and
  `ShiftMeasure.PlannedTimeMeasureIff`. `internal/modules/oee/domain/shift.go:37` speaks of starting a day early for
  overnight shifts; the scan reaches every shift exactly up to two days (`ShiftMeasure.ScanCompleteIff`).
- **Shared client identifiers.** Release and removal go by identifier only, so an older connection's end frees the
  topics of a newer one (`Ownership.SharedIdentifierBreaksOwnership`). For the ownership of messages sent, the one
  harmful step is such a release between another connection's claim and send (`Ownership.StepKeepsClaimsIff`); that
  owners are registered needs distinct identifiers (`Ownership.StepKeepsExclusiveIff`).
- **Full broker.** The accept loop closes a connection before reading it when the broker is full, so a client cannot
  replace its old connection there, which `ClientManager.Add` would allow
  (`ConnectionLifecycle.GateAgainstRegistration`).
- **Long strings and lengths.** The string writer truncates the length prefix from 65536 bytes on, and the length
  encoder has no upper limit while the decoder has one; both round trips are proved with their exact conditions.
- **Leniency.** A second, longer form of a Remaining Length is accepted exactly for values below 128^3
  (`Wire.OneFormIff`), and bytes after the last CONNECT field are ignored (`Packets.ConnectRoundTrip`).

## Model

| member | source | states |
|---|---|---|
| `Shifts.WeekdaySet` | internal/modules/oee/domain/shift.go:83-89 | membership in the set built is membership in the configured list |
| `Shifts.PlannedTimeOnDay` | internal/modules/oee/domain/shift.go:50-71 | the break loop with its final clamp equals the day's clipped span minus break time, never below zero |
| `Shifts.PlannedProductionTime` | internal/modules/oee/domain/shift.go:28-48 | the day-by-day scan, driven by instants and their calendar weekday, equals the sum over active days that the laws below, and those of ShiftDates, speak of |
| `Instants.DayOfUnique` | internal/modules/oee/domain/shift.go:91-93 | the calendar day of an instant is the only day whose midnight-to-midnight span holds it |
| `ShiftMeasure.NetAgainstCount` | internal/modules/oee/domain/shift.go:54-69 | for any breaks, overlapping ones included, the value before the clamp never exceeds the number of productive instants, and equals it exactly when no instant of the shift inside the window lies in two breaks |
| `ShiftMeasure.TimeOnDayCounts` | internal/modules/oee/domain/shift.go:50-71 | with disjoint breaks the clamp at zero never fires and the day's value is the number of instants in the shift and in no break |
| `ShiftMeasure.TimeOnDayExact` | internal/modules/oee/domain/shift.go:60-70 | the day's value is right on every window exactly when no instant of the shift lies in two breaks, or the breaks leave nothing of the shift |
| `ShiftMeasure.ScanCompleteIff` | internal/modules/oee/domain/shift.go:37-39 | scanning from a day before to a day after the window reaches every contributing shift, for all windows, exactly when the shift starts no earlier than one day before and ends no later than two days after its midnight |
| `ShiftMeasure.WiderScan` | internal/modules/oee/domain/shift.go:37-47 | scanning more days would not change the total |
| `ShiftMeasure.MultiplicityIsIndicator` | internal/modules/oee/domain/shift.go:41-46 | while shifts of different days do not overlap, an instant is productive on at most one scanned day |
| `ShiftMeasure.PlannedTimeMeasureIff` | internal/modules/oee/domain/shift.go:28-71 | the loop's total is the number of instants at which some active day's shift is running outside that day's breaks, on every window, exactly when no instant is productive on two active days, and on every active day no instant of the shift lies in two breaks or the breaks leave nothing of it; the reference definition has no scan, no clipping and no clamp |
| `ShiftMeasure.PlannedTimeIsMeasure` | internal/modules/oee/domain/shift.go:28-71 | in particular for a shift of at most a day with disjoint breaks |
| `ShiftMeasure.PlannedTimeAdditiveIff` | internal/modules/oee/domain/shift.go:28-71 | planned time over [a, c) is the sum over [a, b) and [b, c) for all a <= b <= c, although the parts scan different days and clamp separately, exactly when on every active day no instant of the shift lies in two breaks or the breaks leave nothing of it |
| `ShiftMeasure.PlannedTimeIsAdditive` | internal/modules/oee/domain/shift.go:28-71 | in particular it adds up for disjoint breaks, whatever the shift's length |
| `ShiftMeasure.PlannedTimeBound` | internal/modules/oee/domain/shift.go:41-70 | a shift of at most a day never plans more than the window's length, nor less than zero, for any weekdays and any breaks |
| `ShiftMeasure.PlannedTimeBoundIff` | internal/modules/oee/domain/shift.go:28-71 | planned time is at most the window's length on every window exactly when no instant is productive on two active days: any weekdays, length and breaks |
| `ShiftMeasure.OnceWithoutBreaks` | internal/modules/oee/domain/shift.go:41-46 | without breaks that condition says that no two active days lie closer together than the shift is long |
| `ShiftWeek.PlannedTimeIsWeekPeriodic` | internal/modules/oee/domain/shift.go:28-71 | with disjoint breaks, moving the window by whole weeks leaves planned time unchanged |
| `ShiftWeek.WeekTotal` | internal/modules/oee/domain/shift.go:28-71 | for a shift within two days of its midnight and disjoint breaks, over any seven consecutive days, at whatever instant they start, planned time is the number of distinct active weekdays times the shift's net length |
| `ShiftDates.DatedWeekdays` | internal/modules/oee/domain/shift.go:42-44 | instant 0 in UTC falls on a Thursday and second 1704067200 on a Monday; midnights and weekdays of all days, in every zone, counted from that Monday |
| `ShiftDates.WorkingIsDated` | internal/modules/oee/domain/shift.go:42-65 | an instant is productive on an active day exactly if it lies in the shift and no break of some day whose number from the dated Monday is listed, in nanoseconds |
| `ShiftDates.PlannedTimeIsDated` | internal/modules/oee/domain/shift.go:28-71 | planned time is the number of instants worked by that calendar, on every window, exactly when no instant is productive on two active days and every active day is clean |
| `ShiftDates.CivilDayPlan` | internal/modules/oee/domain/shift.go:28-71 | for a shift within its own day and disjoint breaks, the civil day k days after the dated Monday is planned with the shift's minutes outside breaks if the list is empty or holds (k + 1) modulo 7, and with nothing otherwise, in every zone |
| `ShiftDates.OneWeekdayPlan` | internal/modules/oee/domain/shift.go:42-46 | a shift listed for one weekday is planned on exactly the days whole weeks from a dated day of that weekday |
| `ShiftConfig.ForMachineWindow` | internal/modules/oee/config/adapters/outbound/database/repository.go:90-113 | the machine's own shifts, else the wildcard's, added up; nothing found plans nothing |
| `ShiftConfig.OwnShiftsFirst` | internal/modules/oee/config/adapters/outbound/database/repository.go:94-103 | shifts of the machine's own decide alone, whatever else is configured; without them those under "*" do; a config is found exactly if one of the two holds a shift |
| `ShiftConfig.ShiftsAdd` | internal/modules/oee/config/adapters/outbound/database/repository.go:105-113 | one shift plans its own time and lists of shifts add up |
| `ShiftConfig.PlannedForAdditive` | internal/modules/oee/config/adapters/outbound/database/repository.go:105-113 | with disjoint breaks in the shifts used for a machine, its planned time over all of them adds up over adjacent windows |
| `Availability.Aggregate` | internal/modules/oee/availability/domain/calculator.go:25-61 | the loop with its early continue computes the three sums that the laws below speak of |
| `Availability.AvailabilityIsProportion` | internal/modules/oee/availability/domain/calculator.go:63-85 | availability lies between 0 and 1 and times planned time gives run time; it is 1 exactly without downtime and 0 exactly when downtime fills the planned time |
| `Availability.ResultMeans` | internal/modules/oee/availability/domain/calculator.go:63-85 | there is data exactly if planned time is not zero; run time is what downtime leaves of it, if anything, and availability its share; without data all fields are zero |
| `Availability.RowFigures` | internal/modules/oee/domain/machine_state.go:14-20 | setup and maintenance count as planned downtime, stopped as unplanned, the other three as none, each by the instants spent inside the window; a row counts as an interval exactly if there are any |
| `Availability.SumPermutes` | internal/modules/oee/availability/domain/calculator.go:29-53 | the figures do not depend on the order of the intervals |
| `Availability.DowntimeSplits` | internal/modules/oee/availability/domain/calculator.go:29-53 | each downtime over [a, c) is the sum over [a, b) and [b, c), for any rows |
| `Availability.DowntimeIsMeasure` | internal/modules/oee/availability/domain/calculator.go:25-61 | while no two downtime rows share an instant, each downtime is the number of instants of the window at which the machine is in such a state |
| `Availability.InstantsPartition` | internal/modules/oee/domain/machine_state.go:14-20 | every instant of a window is in planned downtime, in unplanned downtime or in neither, and in one only |
| `Availability.WindowTimeIsConserved` | internal/modules/oee/availability/domain/calculator.go:25-85 | under the same condition, with the whole window planned, run time and both downtimes add up to the window, run time is the time in no downtime, and the clamp never fires |
| `Availability.ConservationIff` | internal/modules/oee/availability/domain/calculator.go:25-85 | over any rows, run time and downtimes add up to the window, on every window, exactly when no instant is covered by two downtime rows |
| `Availability.HistoryIsApart` | internal/modules/oee/availability/features/ingest-state/application/usecase.go:18-34 | the rows of a gapless history never share an instant |
| `IntervalTables.IntervalTable.OpenInterval` | internal/modules/oee/availability/features/ingest-state/adapters/outbound/database/repository.go:27-49 | appends one open row, or fails and changes nothing |
| `IntervalTables.IntervalTable.CloseOpen` | internal/modules/oee/availability/features/ingest-state/adapters/outbound/database/repository.go:53-74 | closes every open row of the machine, touches no other row, or fails and changes nothing |
| `IntervalTables.IntervalTable.LastOpen` | internal/modules/oee/availability/features/ingest-state/adapters/outbound/database/repository.go:78-115 | finds the open row of the machine with the latest start |
| `IntervalTables.LatestOpenIsLatest` | internal/modules/oee/availability/features/ingest-state/adapters/outbound/database/repository.go:78-115 | what is found is open and no open row starts later; nothing is found exactly when no row is open |
| `IntervalTables.RowsOfClosed` | internal/modules/oee/availability/features/ingest-state/adapters/outbound/database/repository.go:53-74 | closing one machine leaves every other machine's rows alone |
| `LiveEngine.Engine.Apply` | internal/modules/oee/availability/features/live/application/engine.go:12-37 | the accumulator after a transition: the machine's last open interval closed at the timestamp and the new one appended, all others unchanged |
| `LiveEngine.Engine.Rehydrate` | internal/modules/oee/availability/features/live/application/engine.go:57-77 | machines already tracked keep their memory; each other machine whose open row can be read starts from that row |
| `LiveEngine.Engine.Tick` | internal/modules/oee/availability/features/live/application/engine.go:80-138 | exactly one snapshot per tracked machine whose shifts can be read, computed from a clipped copy, with only the no-data flag ever raised; the accumulator is not modified |
| `IngestState.UseCase.Apply` | internal/modules/oee/availability/features/ingest-state/application/usecase.go:11-38 | for every outcome of the three store calls: the error, the table and the engine's memory afterwards; and, by looking at the rows alone, that the table grows exactly if the read and the insertion work and every open row of the machine can be closed and gives way to a later, different state |
| `IngestState.TransitionIsEffective` | internal/modules/oee/availability/features/ingest-state/application/usecase.go:18-37 | with at most one open row: exactly when the table grows, by which row, which row ends and where, and exactly when the call fails |
| `IngestState.RunIsEffective` | internal/modules/oee/availability/features/ingest-state/application/usecase.go:11-38 | so does every transition in every run, whatever fails |
| `IngestState.RunStanding` | internal/modules/oee/availability/features/ingest-state/application/usecase.go:11-38 | in every run, whatever fails, the open row of a machine is the last transition that brought a later and different state, unless an insertion has failed since: a one-state machine that knows no table |
| `IngestState.TransitTrackedIff` | internal/modules/oee/availability/features/ingest-state/application/usecase.go:36-37 | the engine tracks a machine after a transition exactly if it did before or the table grew by it, and then holds the new state last; no other machine is touched |
| `IngestState.RehydratedIff` | internal/modules/oee/availability/features/live/application/engine.go:61-76 | a rehydration adds exactly the listed machines with a readable open row, each from that row, and touches no tracked machine |
| `IngestState.RowsAfterCommutes` | internal/modules/oee/availability/features/ingest-state/application/usecase.go:11-38 | a transition acts on its machine's rows as if they were the whole table, and on no other machine's rows |
| `IngestState.HistoryTransit` | internal/modules/oee/availability/features/ingest-state/application/usecase.go:16-36 | on a history, an applied transition closes the last row where the new one begins and the result is again a history; an ignored or refused one changes nothing |
| `IngestState.TransitTracks` | internal/modules/oee/availability/features/live/application/engine.go:12-37 | the same transition applied to the engine's suffix and to the table leaves a suffix; a machine not seen before is tracked from its new row |
| `IngestState.StepKeepsCouplingIff` | internal/modules/oee/availability/features/live/application/engine.go:12-104 | from a coupled state, a step keeps engine and table coupled exactly when it is not a close followed by a failed open |
| `IngestState.HalfAppliedParts` | internal/modules/oee/availability/features/ingest-state/application/usecase.go:25-34 | such a step breaks the history of its machine's rows and, if the engine tracks that machine, parts engine and table |
| `IngestState.RunIsCoupled` | internal/modules/oee/availability/features/live/application/engine.go:12-104 | in every run of transitions, ticks, rehydrations and restarts without a half-applied transition, each machine's rows are a history (strictly increasing starts, no gaps, adjacent states differ, only the last open) and the engine holds a nonempty suffix of them with its start as windowStart |
| `IngestState.RunIsSound` | internal/modules/oee/availability/features/ingest-state/application/usecase.go:11-38 | under arbitrary failures of any store call a machine has at most one open row and every closed row has positive length |
| `IngestState.TransitApartIff` | internal/modules/oee/availability/features/ingest-state/application/usecase.go:11-38 | from a machine's sound rows that share no instant, a transition under any faults leaves them so exactly when it is not an applied one stamped before a recorded end; the same among downtime rows alone |
| `IngestState.StepKeepsApartIff` | internal/modules/oee/availability/features/ingest-state/application/usecase.go:11-38 | the same for every step of the system and every machine |
| `IngestState.StepKeepsConservationIff` | internal/modules/oee/availability/features/ingest-state/application/usecase.go:11-38 | from sound rows over which every window is conserved, a step keeps every window conserved exactly when it does not apply a downtime transition stamped before the end of a recorded downtime row |
| `IngestState.RunIsApart` | internal/modules/oee/availability/features/ingest-state/application/usecase.go:11-38 | under arbitrary faults at any call, in every run without such a late transition, a machine's rows never share an instant |
| `IngestState.LateNeedsHalfApplied` | internal/modules/oee/availability/features/ingest-state/application/usecase.go:18-34 | a transition can be late only after a half-applied one |
| `IngestState.HalfAppliedBreaksConservation` | internal/modules/oee/availability/features/ingest-state/application/usecase.go:23-36 | a concrete run with a late transition after a half-applied one, in which run time and downtimes do not add up to the window |
| `Query.ByMachineRange` | internal/modules/oee/availability/features/query/adapters/outbound/database/repository.go:29-82 | exactly the machine's rows that start before the window ends and are open or end after it begins, each as often as it is stored, in order of start |
| `Query.ClipOpenIntervals` | internal/modules/oee/availability/features/query/application/usecase.go:31-40 | open rows are closed at the window's end, others kept, and the flag says whether there was one |
| `Query.Execute` | internal/modules/oee/availability/features/query/application/usecase.go:12-68 | the answer from all of the machine's rows, unfiltered and unclipped; an error in either read gives no answer; and what a reader may rely on, as in Query.AnswerIsTruthful |
| `Query.AnswerIsTruthful` | internal/modules/oee/availability/features/query/application/usecase.go:25-67 | there is data exactly if planned time is not zero and some row of the machine has an instant in the window; without data availability is zero and noData set; with data availability times planned time is run time; run time is what downtime leaves of planned time; and the other two flags, for every window, with or without a config |
| `Query.CountedIsSeen` | internal/modules/oee/availability/domain/calculator.go:40-52 | the interval count is positive exactly if some row of the machine has an instant in the window |
| `Query.FilterKeepsFigures` | internal/modules/oee/availability/features/query/adapters/outbound/database/repository.go:33-39 | the rows the filter drops contribute to no figure |
| `Query.ClippingKeepsFigures` | internal/modules/oee/availability/features/query/application/usecase.go:31-42 | clipping open rows to the window's end changes no figure |
| `Query.ReadFigures` | internal/modules/oee/availability/features/query/application/usecase.go:13-43 | aggregating the rows read, in any order and clipped, gives the figures of all the machine's rows; an open row is read exactly when one starts before the window ends |
| `Query.AnswerConservesIff` | internal/modules/oee/availability/features/query/application/usecase.go:26-43 | without a shift config, run time and downtimes of the answer add up to the window, on every window, exactly when no two of the machine's downtime rows share an instant |
| `LiveQuery.TrackedFigures` | internal/modules/oee/availability/features/live/application/engine.go:94-115 | the engine's suffix with its last interval closed at now and the whole table give the same figures over [windowStart, now), also when transitions are stamped after now |
| `LiveQuery.LiveIsTruthful` | internal/modules/oee/availability/features/live/application/engine.go:94-132 | every field of a snapshot, said from the table: data exactly if time was planned, the share, run time, downtimes and count of the whole table over [windowStart, now), the flags and the time of computation |
| `LiveQuery.LiveFiguresIff` | internal/modules/oee/availability/features/live/application/engine.go:94-132 | live snapshot and query answer over the same window always agree on the interval count, and on figures, count and data flag together exactly when a shift config is found |
| `LiveQuery.LiveEqualsQueryIff` | internal/modules/oee/availability/features/live/application/engine.go:117-132 | they agree on every field they share, all three flags included, exactly when a shift config is found and the latest transition is not stamped before now |
| `LiveQuery.LiveEqualsQueryInRuns` | internal/modules/oee/availability/features/query/application/usecase.go:12-68 | both equivalences in every run without a half-applied transition, together with equal downtimes fed into both |
| `LiveQuery.RunConservesWindow` | internal/modules/oee/availability/features/query/application/usecase.go:26-43 | under arbitrary faults, in every run without a late downtime transition, without a shift config, the answer's run time and downtimes add up to the window and run time is the time in no downtime |
| `Wire.EncodeRemainingLength` | internal/modules/broker/protocol/codec.go:36-50 | for every length, the base-128 digits with continuation bits |
| `Wire.DecodeRemainingLength` | internal/modules/broker/protocol/codec.go:11-32 | for every byte stream, the value and the bytes left, or which of the two errors |
| `Wire.LengthRoundTrip` | internal/modules/broker/protocol/codec.go:11-50 | an encoded length followed by anything is read back, leaving the rest, exactly when it is below 128^4; above, it is refused as malformed |
| `Wire.EncodingIsShortest` | internal/modules/broker/protocol/codec.go:11-50 | no accepted form of a value is shorter than the encoder's, and accepted values are below 128^4 |
| `Wire.OneFormIff` | internal/modules/broker/protocol/codec.go:11-32 | the decoder accepts a form of a value besides the encoder's exactly for values below 128^3 |
| `Wire.LengthByDigits` | internal/modules/broker/protocol/codec.go:11-32 | the value of every form of one to four bytes: seven bits a byte, low ones first, high bit on all but the last |
| `Wire.LengthCutShort` | internal/modules/broker/protocol/codec.go:17-19 | up to four continuation bytes with nothing after them are an end of input |
| `Wire.StringByBytes` | internal/modules/broker/protocol/codec.go:53-94 | a string is its length in two bytes, the high one first, and its content, written and read |
| `Wire.ContinuationPastFourBytes` | internal/modules/broker/protocol/codec.go:22-26 | four continuation bytes are refused whatever follows |
| `Wire.ReadString` | internal/modules/broker/protocol/codec.go:53-94 | strings and binary data: content and bytes left, or end of input |
| `Wire.WriteUTF8String` | internal/modules/broker/protocol/codec.go:70-76 | two length bytes holding the length modulo 65536, then all of the content |
| `Wire.StringRoundTrip` | internal/modules/broker/protocol/codec.go:53-76 | a string is read back, leaving the rest, exactly when it is shorter than 65536 bytes |
| `Wire.StringReprint` | internal/modules/broker/protocol/codec.go:53-76 | what is read prints back to the bytes consumed |
| `Framing.ReadPacket` | internal/modules/broker/protocol/reader.go:8-45 | for every byte stream, the packet and the bytes left, or the error, reserved types refused before the length is read |
| `Framing.ReadConsumes` | internal/modules/broker/protocol/reader.go:8-45 | a successful read consumes at least two bytes, no fewer than the packet's canonical frame, and leaves a suffix |
| `Framing.FrameRoundTrip` | internal/modules/broker/protocol/reader.go:8-45 | a framed packet followed by anything is read back exactly when its type is not reserved and its body is below 128^4 |
| `Framing.FramingRoundTrip` | internal/modules/broker/protocol/reader.go:8-45 | repeated reading of concatenated frames returns exactly that list of packets, if and only if each of them can be sent |
| `ByteLaws.PacketByBytes` | internal/modules/broker/protocol/reader.go:15-44 | type in the high four bits, flags in the low four, length, body |
| `ByteLaws.ReservedByBytes` | internal/modules/broker/protocol/reader.go:19-21 | a first byte below 16 or from 240 on is refused whatever follows, and no other |
| `Framing.EncodeConnack` | internal/modules/broker/protocol/encoder.go:4-10 | a well-formed CONNACK frame with the session bit and return code |
| `Framing.EncodePuback` | internal/modules/broker/protocol/encoder.go:13-19 | a well-formed PUBACK frame with the packet identifier |
| `Framing.EncodeSuback` | internal/modules/broker/protocol/encoder.go:23-30 | a well-formed SUBACK frame for any number of return codes |
| `Framing.EncodePingresp` | internal/modules/broker/protocol/encoder.go:33-35 | a well-formed, empty PINGRESP frame |
| `Packets.DecodeSubscribe` | internal/modules/broker/protocol/decoder.go:151-194 | for every body, the subscriptions in order, or the first error |
| `Packets.SubscribeReprint` | internal/modules/broker/protocol/decoder.go:151-194 | every accepted body prints back to the identical bytes, holds at least one subscription, and each QoS is at most 2 |
| `Packets.SubscribeRoundTrip` | internal/modules/broker/protocol/decoder.go:151-194 | a printed SUBSCRIBE decodes to itself exactly when its list is nonempty, filters are below 65536 bytes and QoS is at most 2 |
| `ByteLaws.SubscribeByBytes` | internal/modules/broker/protocol/decoder.go:151-165 | identifier and subscriptions by position; fewer than five bytes are an empty payload |
| `ByteLaws.SubscriptionByBytes` | internal/modules/broker/protocol/decoder.go:168-186 | one subscription by position, with both errors |
| `Packets.DecodePublish` | internal/modules/broker/protocol/decoder.go:103-147 | for every flag nibble and body, the fields or the error, checked in the source's order |
| `Packets.PublishReprint` | internal/modules/broker/protocol/decoder.go:103-147 | what is accepted prints back to the same flags and the identical body |
| `Packets.PublishRoundTrip` | internal/modules/broker/protocol/decoder.go:103-147 | over all DUP, QoS and retain flags a printed PUBLISH decodes to itself exactly when its topic is nonempty and fits, QoS is at most 2 and QoS 0 has no identifier |
| `ByteLaws.PublishByBytes` | internal/modules/broker/protocol/decoder.go:103-147 | every outcome of decoding, by bit and position: DUP, QoS, retain, topic, identifier, payload, and which of the three errors |
| `Packets.DecodeConnect` | internal/modules/broker/protocol/decoder.go:12-98 | for every body, all fields as the flags announce them, or the error; bytes after the last field are ignored |
| `Packets.ConnectReprint` | internal/modules/broker/protocol/decoder.go:12-98 | what is accepted reprints, field by field per its flags, to a prefix of the input |
| `Packets.ConnectRoundTrip` | internal/modules/broker/protocol/decoder.go:12-98 | a printed CONNECT decodes to itself, whatever follows, exactly when the reserved bit is clear, present fields fit and absent ones are empty |
| `ByteLaws.ConnectFlagBits` | internal/modules/broker/protocol/decoder.go:64-95 | bit 7 announces a user name, bit 6 a password, bit 2 a will, and no other bit anything |
| `ByteLaws.ConnectByBytes` | internal/modules/broker/protocol/decoder.go:12-98 | header, flags, keep-alive and the announced fields in their order, byte by byte, decode to those fields, whatever follows |
| `ByteLaws.ConnectErrorIff` | internal/modules/broker/protocol/decoder.go:16-46 | exactly when a body is refused for its protocol and when for its reserved bit; any other refusal is for missing bytes |
| `Packets.BuildConnectPacket` | internal/common/testutil/mqtt_packets.go:16-34 | the bytes built are the frame of the printed CONNECT with user name, password and clean session |
| `Packets.BuildPublishPacket` | internal/common/testutil/mqtt_packets.go:37-51 | the bytes built are the frame of the printed PUBLISH when QoS is at most 3; a larger QoS corrupts only the first byte |
| `Packets.BuildSubscribePacket` | internal/common/testutil/mqtt_packets.go:54-67 | the bytes built are the frame of the printed SUBSCRIBE |
| `Packets.PublishSurvives` | internal/modules/broker/protocol/decoder.go:103-147 | print, frame, read and decode give back a PUBLISH exactly when it is good and its body fits a remaining length |
| `Packets.SubscribeSurvives` | internal/common/testutil/mqtt_packets.go:54-67 | build, read and decode give back a SUBSCRIBE exactly when it is good and its body fits a remaining length |
| `TopicRegistries.TopicRegistry.IsAllowed` | internal/modules/broker/topic/registry.go:42-45 | membership in the allowed set |
| `TopicRegistries.TopicRegistry.Claim` | internal/modules/broker/topic/registry.go:54-69 | accepted exactly if the topic is allowed and free or the client's own; then the client owns it and no other entry changes; both refusals change nothing |
| `TopicRegistries.TopicRegistry.Release` | internal/modules/broker/topic/registry.go:73-82 | exactly the client's entries are deleted |
| `TopicRegistries.ClaimUntilReleased` | internal/modules/broker/topic/registry.go:54-82 | a claim may be repeated by its owner, is refused to everyone else until the owner releases, and is then accepted from anyone |
| `ClientManagers.ClientManager.CanAccept` | internal/modules/broker/connection/client_manager/client_manager.go:8-12 | true exactly when Add would refuse no identifier whatever |
| `ClientManagers.ClientManager.Add` | internal/modules/broker/connection/client_manager/client_manager.go:16-34 | a registered identifier is never refused, another exactly at the limit; a replaced client is closed; the limit is kept |
| `ClientManagers.ClientManager.Remove` | internal/modules/broker/connection/client_manager/client_manager.go:37-41 | exactly that identifier's entry is deleted |
| `Ownership.ClientsBounded` | internal/modules/broker/connection/client_manager/client_manager.go:16-41 | registered clients never exceed maxClients in any run of any connections, shared identifiers and CloseAll included |
| `Ownership.StepsHappen` | internal/modules/broker/connection/server/handle_connection.go:45-60 | exactly when a registration and a claim succeed, and that a claimed message is sent, a release gives up exactly the client's topics, and a removal takes place |
| `Ownership.StepKeepsExclusiveIff` | internal/modules/broker/topic/registry.go:54-82 | from an exclusive state, a step keeps exclusive ownership exactly when it neither registers an identifier that is live nor clears the client manager under live connections |
| `Ownership.RunIsExclusive` | internal/modules/broker/connection/server/handle_connection.go:46-60 | in every run without shared identifiers, registered identifiers are those of the live connections, every topic owner is registered and has not released, and a claimed topic stays its claimer's until sent |
| `Ownership.OwnersAreRegistered` | internal/modules/broker/connection/server/handle_connection.go:46-60 | in such runs every topic owner is registered and its topic allowed |
| `Ownership.StepKeepsClaimsIff` | internal/modules/broker/connection/server/handle_publish.go:19-40 | while every claimed topic is its claimer's, a step keeps it so exactly when it is not a release by a connection whose identifier another connection is publishing under; no other use of a shared identifier and no CloseAll does harm |
| `Ownership.PublishingIsExclusive` | internal/modules/broker/connection/server/handle_publish.go:19-40 | in every run without such a release, shared identifiers and CloseAll included, every message enters msgChan under its topic's current owner, and two clients' messages on a topic always have the first client's release between them |
| `Ownership.DistinctIsUncut` | internal/modules/broker/connection/server/handle_connection.go:46-60 | runs without shared identifiers meet that condition |
| `Ownership.SharedIdentifierBreaksOwnership` | internal/modules/broker/connection/server/handle_connection.go:52-53 | a concrete run of two connections with one identifier in which a message is sent on a topic owned by someone else |
| `ReadLoop.Session.HandlePublish` | internal/modules/broker/connection/server/handle_publish.go:12-45 | claim, message and PUBACK together: an undecodable packet does nothing, a refused claim is acknowledged but hands on no message |
| `ReadLoop.Session.HandleSubscribe` | internal/modules/broker/connection/server/handle_subscribe.go:8-25 | the SUBACK written has the granted QoS or 0x80 for each filter, in order |
| `ReadLoop.Session.Dispatch` | internal/modules/broker/connection/server/read_loop.go:26-41 | the effect on output, ownership and messages of any packet but DISCONNECT |
| `ReadLoop.Session.Run` | internal/modules/broker/connection/server/read_loop.go:12-43 | terminates on every finite stream; output, ownership and messages are those of all packets up to DISCONNECT or the first read error, in order |
| `ReadLoop.ReplyAnswers` | internal/modules/broker/connection/server/read_loop.go:26-41 | one reply exactly for a decodable QoS 1 PUBLISH, a decodable SUBSCRIBE and a PINGREQ, carrying the request's identifier bytes and one code per filter |
| `ReadLoop.RepliesAnswer` | internal/modules/broker/connection/server/read_loop.go:12-43 | the n-th reply answers the n-th packet that wants one |
| `ReadLoop.OutputAnswersInput` | internal/modules/broker/connection/server/read_loop.go:12-43 | re-reading the written bytes gives exactly one matching reply per answerable packet handled, in order, whether claims are accepted or refused |
| `ByteLaws.OnePacket` | internal/modules/broker/connection/server/read_loop.go:12-43 | any packet but type 14 is handled and its reply written before those of the rest of the stream |
| `ByteLaws.OneEffect` | internal/modules/broker/connection/server/read_loop.go:12-43 | its effect on topics and messages comes before that of the rest |
| `ByteLaws.DisconnectBytes` | internal/modules/broker/connection/server/read_loop.go:36-37 | nothing after type 14 is handled |
| `ByteLaws.PingBytes` | internal/modules/broker/connection/server/read_loop.go:33-34 | type 12 is answered with D0 00 |
| `ByteLaws.PublishBytes` | internal/modules/broker/connection/server/handle_publish.go:12-45 | type 3 is answered exactly if it decodes and is of QoS 1, with 40 02 and its identifier's bytes, whether the claim is accepted or not |
| `ByteLaws.SubscribeBytes` | internal/modules/broker/connection/server/handle_subscribe.go:8-25 | type 8 is answered exactly if it decodes, with type 9, its identifier's bytes and, filter by filter, the QoS asked for or 80 (hexadecimal) |
| `ByteLaws.IgnoredBytes` | internal/modules/broker/connection/server/read_loop.go:39-40 | all other types leave output, topics and messages alone |
| `ByteLaws.PublishEffect` | internal/modules/broker/connection/server/handle_publish.go:12-40 | only a decodable PUBLISH on an allowed topic that is free or the client's own changes anything: it takes the topic and hands on client, topic and payload |
| `ConnectionLifecycle.ReadConnect` | internal/modules/broker/connection/server/handle_connection.go:19-39 | the first packet must be a decodable CONNECT |
| `ConnectionLifecycle.RegisterClient` | internal/modules/broker/connection/server/handle_connection.go:19-51 | which of the four fates a connection meets, the bytes written for a refusal, and that only an accepted one is registered |
| `ConnectionLifecycle.Serve` | internal/modules/broker/connection/server/handle_connection.go:53-60 | CONNACK, session, then release of the client's topics |
| `ConnectionLifecycle.HandleConnection` | internal/modules/broker/connection/server/handle_connection.go:13-63 | for every input: all bytes written, messages handed on, topics owned and clients registered afterwards; and who gets in, by the bytes received and the first four written, as in ConnectionLifecycle.AdmissionGreets |
| `ConnectionLifecycle.AdmittedIff` | internal/modules/broker/connection/server/handle_connection.go:19-51 | let in exactly if the first packet is a decodable CONNECT with known credentials and there is room or the identifier is registered; exactly when each refusal occurs |
| `ConnectionLifecycle.AdmissionGreets` | internal/modules/broker/connection/server/handle_connection.go:19-57 | 20 02 00 and then 00, 04 or 03 for known credentials with room, unknown credentials, no room, each if and only if; nothing for any other first packet; and nobody refused changes topics or messages |
| `ConnectionLifecycle.NothingOwnedAfter` | internal/modules/broker/connection/server/handle_connection.go:46-60 | whatever a session claimed, when it has ended a topic is owned exactly if it was before by someone else, who still owns it |
| `ConnectionLifecycle.AcceptConnection` | internal/modules/broker/connection/server/server.go:38-44 | a connection that arrives while the broker is full is closed unread; any other is handled |
| `ConnectionLifecycle.GateAgainstRegistration` | internal/modules/broker/connection/server/server.go:38-44 | the accept gate admits what registration alone would, except a client that reconnects under its identifier while the broker is full; nobody is told that the broker is full |
| `ConnectionLifecycle.ConnectionOutput` | internal/modules/broker/connection/server/handle_connection.go:13-63 | re-reading what a connection wrote gives its CONNACK and then one reply per answerable packet, or a refusal alone |
| `PipelineLaws.StepKeepsInv` | internal/modules/broker/ingestion/queue/queue.go:23-51 | every step, store failure, worker error or cancellation keeps per-topic order and conservation, persistence before dispatch and equal delivery |
| `PipelineLaws.RunKeepsInv` | internal/modules/broker/ingestion/pipeline/pipeline.go:11-37 | so does every interleaving |
| `PipelineLaws.TopicsAreFifo` | internal/modules/broker/ingestion/pipeline/pipeline.go:18-36 | in every run, what was sent on a topic is, in order: attempted, held by the consumer, queued, held by the router, still in msgChan; saved rows are the sends in order minus failed saves |
| `PipelineLaws.PersistBeforeDispatch` | internal/modules/processing/fanout/fanout.go:13-54 | in every run, cancellation included, a topic's dispatched messages are a prefix of its saved rows lagging by at most one, each worker's are a prefix of those dispatched, any two workers are within one message, and a worker receives a message only when every worker has finished all earlier ones |
| `PipelineLaws.BuffersHold` | internal/modules/broker/ingestion/queue/new_queue.go:13-18 | in every run, no channel ever holds more than its buffer |
| `PipelineLaws.BackpressureIff` | internal/modules/broker/ingestion/queue/queue.go:10-48 | in every reachable state, a message stays with the router, the sender or the consumer exactly if the buffer it is bound for is full, and is at that buffer's end otherwise |
| `PipelineLaws.StopsIff` | internal/modules/broker/ingestion/queue/queue.go:25-48 | a goroutine stops exactly if the run is cancelled and it waits for input or for room in processChan; a saving consumer, a holding router and a busy fan-out go on |
| `EndToEnd.SessionSends` | internal/modules/broker/connection/server/handle_publish.go:12-45 | on each topic a session hands on everything it published there, in order, or nothing |
| `EndToEnd.AttemptsFollowSends` | internal/modules/broker/ingestion/pipeline/pipeline.go:18-36 | in every run, the save attempts of one client on one topic are a prefix of what it sent there, in its order, and its rows are those attempts minus failed saves |
| `EndToEnd.PublishedToSaved` | internal/modules/broker/ingestion/queue/queue.go:23-51 | from PUBLISH bytes to rows: in every run fed with a session's messages, a client's save attempts on a topic it may claim are the PUBLISH packets of its byte stream on that topic, in order and up to some point, and its rows are those minus failed saves |
| `PipelineLaws.NoDeadlock` | internal/modules/broker/ingestion/queue/queue.go:10-50 | an uncancelled pipeline with buffers of at least one has no enabled internal step exactly when no message is under way, however full it is |
| `PipelineLaws.InternalStepDescends` | internal/modules/broker/ingestion/queue/queue.go:23-50 | every internal step lowers one stage-weighted measure |
| `PipelineLaws.LanesWeightPick` | internal/modules/broker/ingestion/pipeline/pipeline.go:13-16 | the queues' total weight does not depend on the order in which queues are visited |
| `PipelineLaws.SchedulesAreBounded` | internal/modules/broker/ingestion/pipeline/pipeline.go:18-36 | no schedule of internal steps is longer than the measure, and none loses a message or stops a goroutine |
| `PipelineLaws.UncancelledIsAlive` | internal/modules/broker/ingestion/queue/queue.go:25-27 | without cancellation no goroutine ever stops |
| `PipelineLaws.FinishedIsDrained` | internal/modules/processing/fanout/fanout.go:30-54 | when nothing is under way, everything sent on a configured topic was attempted in order and everything saved reached every worker in order |
| `PipelineLaws.PipelineDrains` | internal/modules/broker/ingestion/pipeline/pipeline.go:11-37 | after any uncancelled history, every schedule of internal steps is bounded and, once it cannot be continued, has drained the pipeline |
| `PipelineLaws.DrainingSchedule` | internal/modules/broker/ingestion/pipeline/pipeline.go:11-37 | from every such state there is a schedule that drains it |

## Left out

- SQLite, SQL text, transactions and the migrator: each repository call is one atomic step on a row table that
  succeeds or fails; which row `LastOpen` finds among open rows with equal starts is fixed to the first one inserted
  (in no run does a machine have two open rows, by `IngestState.RunIsSound`).
- Timestamps as text: rows compare instants as integers, as RFC 3339 strings do when written uniformly in UTC.
- IANA zones and daylight saving: a zone is a fixed offset from UTC.
- `float64` rounding: availability is a real number.
- The `Reason` of an interval, message time zones and time stamps: no modelled decision depends on them.
- JSON, HTTP, WebSocket, log sinks, authentication data, configuration files and bootstrap: plumbing around the
  cores. Authentication is a function parameter, clocks and failures are method arguments.
- The sink of the live engine: `Engine.Tick` returns the snapshots instead of pushing them, so a failing sink is not
  visible; the mutex is not modelled, as `Apply`, `Rehydrate` and the copy taken by a tick are atomic under it.
- `cmd/broker/bootstrap/server.go:65` hands no machine identifiers to `Engine.Start`, so rehydration does nothing
  there; the model proves its laws for any list of identifiers.
- `TopicRegistry.Owner` and `ClientManager.Get`, `Count`: lookups that no modelled operation uses.
- AcceptConnection: the gate of the accept loop and the handling of one connection follow each other at once; other
  connections may register in between, which `Ownership` covers. Listening, closing and accept errors are left out.
- PublishedToSaved: the claims of one session alone; `AttemptsFollowSends` holds for whatever claims were accepted.
- TCP deadlines and keep-alive timers: a connection is a finite byte stream and an output byte list, writes succeed,
  and a session is not cancelled in the middle of a send (`Ownership` has that step as `Abandon`).
- PublishRoundTrip: stated, like `PublishSurvives`, for QoS values 0 to 3, the ones the flag nibble can hold.
- Goroutines and channels as loops: the pipeline is a step system on values, one step per channel operation, save or
  worker start and end. In-place update of a channel buffer is not captured; order, blocking and capacity are.
- Channels that are closed, and buffers of size 0: the source never closes these channels; the progress laws need
  buffers of at least one, the safety laws hold for every size.
- The router after cancellation: `Enqueue` does not watch the context, so progress is claimed for uncancelled runs.
- Two live connections with one identifier: excluded only where registration of every owner is claimed. Closing the
  replaced connection is an output of `ClientManager.Add`; `CloseAll` is a step of `Ownership` only.
- Other connections' claims during one session: `ReadLoop.Session.Run` states one session alone, `Ownership` covers
  all interleavings.
- `NewTopicRegistry`: the trimming and counting of configured topics; the registry starts from a set of names.
- `FanOut.Close`, error texts and log lines.
