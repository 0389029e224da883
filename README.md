# Modbus camera simulators, modelled in Dafny

The repository holds small Python servers that stand in for a camera. A Dobot
robot triggers them over Modbus holding registers. Each camera simulator runs
the same loop over the server's data bank:

1. Poll the trigger register.
2. On a read of exactly 1, capture (an opaque step) and raise the done flag.
3. Wait until the trigger reads 0, or until a poll counter passes its bound.
4. Lower the done flag again.

The scripts differ in their addresses, their timeout and their start-up
writes:

| script | module | trigger | done flag(s), in write order | wait bound | start-up zeroes |
|---|---|---|---|---|---|
| `100.check_code_modbus.py` | `CheckCodeModbus` | 41025 | 41026, 1025 | 400 | 41025, 41026, 1025 |
| `04.python-modbus-server-rev002.py` | `ModbusServerRev002` | 41025 | 41026, 1025 | 200 | 41025, 41026 |
| `02.python-modbus-server.py` | `ModbusServer` | 41025 | 1025 | 200 | 41025, 1025 |
| `01.python-modbus.py` | `PythonModbus` | 1024 | 1025 | none | nothing |

Script 100 also counts its shots.

A fifth script, `03.python-modbus-check.py` (module `ModbusCheck`), is an
address-discovery server. On every pass it reads 0..10, 1024..1030 and
41025..41030. It reports each nonzero value that differs from the one it
last recorded in `last_values`. A newly seen 1 at 1024 or 41025 makes it set
1025 and then 41026 to 1.

## How the model is built

- **`Registers`.**
  - The data bank is a `map<int, int>`. A read returns an `Option`, which is
    `None` for an address the bank does not hold.
  - A ghost trace of `Read`, `Write` and `Detect` events records every access
    a script makes, in order. `Replay` rebuilds the bank from the writes in
    the trace.
  - The module also holds the PLC to PDU holding-register numbering,
    PDU = PLC - 40001. This is section 4.4 ("MODBUS Addressing model") of the
    MODBUS Application Protocol Specification V1.1b3.
- **The robot.** The robot writes the trigger concurrently. The model
  replaces it with a `Feed`: `feed(t)` is what the t-th trigger read of the
  script returns. The simulators' own bank (`regs`) holds what their writes
  made of it. Every `CameraSimulator` class keeps `regs == Replay(bank, trace)`.
- **`Handshake`.** This module holds what the four simulators share:
  - `ResetWait` specifies the counted wait. `AwaitReset` is its loop, with
    the counter as its termination measure.
  - `ReadsUntilZero` specifies the unbounded wait of 01. `AwaitTriggerZero`
    is its loop, which terminates for a feed that eventually reads 0.
  - `CycleEvents` gives the accesses of one tick.
  - `Shots` and `PollsAfter` cover several ticks.
  - The lemmas here state what every tick does with the done flags.
- **Each simulator** is a class `CameraSimulator` with the bank as a field.
  Its methods change it in place, one method per step of the Python loop:
  - `SetHoldingRegister`, `ReadTrigger`, `WriteDone`, `WaitForReset`,
    `SignalAndAwaitReset`, `Tick`;
  - `Run(n)` for n passes of the poll loop in 100.

  `SetHoldingRegister` and `ReadTrigger` state the single access they make.
  `WriteDone` states its writes to the done addresses. `WaitForReset`, `Tick`
  and `Run` state their new state through the `Handshake` functions, and so
  does `SignalAndAwaitReset`, except in 01, where it states its two writes
  literally around the wait's reads.
- **The scanner** is a class `AddressScanner`. It has the bank and
  `last_values` as fields, and nested loops over the ranges:
  - `VisitAddress` is the inner-loop body;
  - `ScanRange` is the inner loop;
  - `ScanRanges` is the outer loop;
  - `ScanPass` is one pass of the `while True` loop.

  Each one is proved equal to the functions `Visit` and `Scan` over the value
  `ScanState`. The properties are lemmas about those functions.
  `ClientWrite` stands for a write that the Modbus client makes to the bank
  between two passes. It changes `regs` at one address and nothing else, so
  on `ScanState` it is `s.(regs := s.regs[c := v])`, the update the lemmas
  apply between passes. `ReraiseBetweenPasses` runs passes and client
  writes on the class and ties them to `ReraisedTriggerNotAnswered`.

What the code does, as the proofs show it:

- Script 01 waits for the trigger reset with no bound (01:40-45). If the
  robot never resets 1024, the simulator waits forever with 1025 held at 1;
  its `WaitForReset`, `SignalAndAwaitReset` and `Tick` therefore describe
  only feeds that eventually read 0. Scripts 02, 04 and 100 bound this wait
  by a poll counter (`ResetWaitMeaning`, `StuckWaitTimesOut`).
- Detection in the simulators is by level, not by edge. A trigger left at 1
  through a timed-out wait is captured again on the next tick
  (`StuckTriggerRefires`).
- The scanner answers a 1 at a trigger candidate only once while it stays
  unchanged (`RescanWritesNothing`). It also never answers that trigger
  again after the client resets it to 0 and raises it to 1 once more:
  `last_values` ignores the 0 and still holds the earlier 1
  (`ReraisedTriggerNotAnswered`).
- The scanner never lowers the done flags (`ScanOnlyRaisesDone`).
- Answering a new 1 at 1024, the scanner reports its own write of 1025 as
  a change in the same pass, unless 1 is already recorded for 1025
  (`OwnDoneFlagReported`). Answering a new 1 at 41025, it has already read
  1025 in that pass: it reports 41026 in the same pass, and 1025 only on
  the next one, if 1 is not yet recorded for it (`AliasDoneFlagReported`).
- A comment in 04 says that writing 41026 is reflected at 1025 internally.
  The code does not rely on this: it writes 1025 explicitly. The model
  treats the two as independent addresses, as the data bank does.

## Model

| member | source | states |
|---|---|---|
| Registers.PlcPduRoundTrip | 00.modbus_test/01.python-modbus.py:8-10 | PLC and PDU holding-register numbers convert into each other without loss, and one converts to the other exactly when the other converts back |
| PythonModbus.AddressesArePlcMinusBase | 00.modbus_test/01.python-modbus.py:8-12 | 1024 and 1025 are PLC 41025 and 41026 less 40001, both ways |
| Handshake.WaitFrom | 00.modbus_test/100.check_code_modbus.py:66-79 | the wait loop from `wait_count` = count makes more than count and at most bound + 1 counted reads, and exactly bound + 1 when it times out |
| Handshake.ResetWait | 00.modbus_test/100.check_code_modbus.py:66-79 | the wait from `wait_count = 0` makes between 1 and bound + 1 reads |
| Handshake.WaitReads | 00.modbus_test/100.check_code_modbus.py:67-68 | a wait of n reads records exactly n trigger reads |
| Handshake.CycleEvents | 00.modbus_test/01.python-modbus.py:24-48 | a tick begins with the poll of the trigger; it is that read alone when the poll did not read 1, and holds at least the wait's reads besides when it did |
| Handshake.TickEvents | 00.modbus_test/100.check_code_modbus.py:43-86 | a tick of a bounded script begins with its poll, and is that read alone exactly when the poll did not read 1 |
| Handshake.TickPolls | 00.modbus_test/100.check_code_modbus.py:43-79 | a tick of a bounded script reads the trigger between 1 and bound + 2 times |
| Handshake.PollsAfter | 00.modbus_test/100.check_code_modbus.py:34-86 | n ticks from poll t read the trigger at least n times |
| Handshake.Shots | 00.modbus_test/100.check_code_modbus.py:34-86 | n ticks capture at most n times |
| Handshake.ResetWaitMeaning | 00.modbus_test/100.check_code_modbus.py:66-79 | the counted wait makes between 1 and bound + 1 reads; every read before the last is not 0; it ends on Reset exactly when its last read is 0; it ends on Timeout exactly when no read within bound + 1 polls is 0, and then after exactly bound + 1 reads |
| Handshake.AwaitReset | 00.modbus_test/100.check_code_modbus.py:66-79 | the `while True` wait loop with `wait_count` returns the outcome and read count of the counted wait |
| Handshake.ReadsUntilZero | 00.modbus_test/01.python-modbus.py:40-45 | for a feed that eventually reads 0, the unbounded wait makes n >= 1 reads: the n-th reads 0 and none before it does |
| Handshake.AwaitTriggerZero | 00.modbus_test/01.python-modbus.py:40-45 | the unbounded wait loop terminates when the feed eventually reads 0, and returns the number of reads up to and including the first 0 |
| Handshake.CycleWrites | 00.modbus_test/100.check_code_modbus.py:43-83 | a tick writes nothing unless its poll read 1; then it writes every done address to 1 in order, and afterwards every one to 0 in order |
| Handshake.CycleReplay | 00.modbus_test/100.check_code_modbus.py:60-83 | a tick that did not read 1 leaves the bank unchanged; otherwise every done address holds 1 from the last raising write through the whole wait, and at the end every done address holds 0 and every other address is unchanged, however the wait ended |
| Handshake.CycleOrder | 00.modbus_test/01.python-modbus.py:24-48 | a fired tick is the poll, then the raising writes, then the wait's trigger reads at the polls that follow, then the lowering writes, in that order |
| Handshake.TickPollsBound | 00.modbus_test/04.python-modbus-server-rev002.py:65-77 | a tick makes 1 trigger read exactly when its poll did not read 1, and at most bound + 2 reads otherwise: at most 201 wait reads for the bound of 200 |
| Handshake.ClearAfterResetOrTimeout | 00.modbus_test/02.python-modbus-server.py:61-76 | in a fired tick the lowering writes come right after the wait's reads; the wait made 1 to bound + 1 reads, none but the last read 0, and the last read 0 or the bound was reached |
| Handshake.StuckWaitTimesOut | 00.modbus_test/100.check_code_modbus.py:67-77 | with the trigger held at 1 the wait times out after bound + 1 reads |
| Handshake.StuckTriggerRefires | 00.modbus_test/100.check_code_modbus.py:43-77 | with the trigger held at 1, each of n ticks captures, so n shots; each takes bound + 2 reads, so detection is by level, not by edge |
| Handshake.QuietFeedNoShots | 00.modbus_test/100.check_code_modbus.py:43-46 | without a poll that reads 1, n ticks make no shot and read the trigger once each |
| CheckCodeModbus.CameraSimulator.constructor | 00.modbus_test/100.check_code_modbus.py:14-16 | start-up writes 0 to 41025, 41026 and 1025, in that order, and all three then read 0 |
| CheckCodeModbus.CameraSimulator.SetHoldingRegister | 00.modbus_test/100.check_code_modbus.py:60 | a write changes one address and is appended to the trace |
| CheckCodeModbus.CameraSimulator.ReadTrigger | 00.modbus_test/100.check_code_modbus.py:43 | a trigger read returns the next feed value and records the read |
| CheckCodeModbus.CameraSimulator.WriteDone | 00.modbus_test/100.check_code_modbus.py:60-61 | the done flag is written to 41026 and then 1025, so both hold the same value |
| CheckCodeModbus.CameraSimulator.WaitForReset | 00.modbus_test/100.check_code_modbus.py:66-79 | the wait makes the counted wait's reads with a bound of 400 and changes no register |
| CheckCodeModbus.CameraSimulator.SignalAndAwaitReset | 00.modbus_test/100.check_code_modbus.py:60-83 | raise both flags, wait, lower both: both read 0 afterwards |
| CheckCodeModbus.CameraSimulator.Tick | 00.modbus_test/100.check_code_modbus.py:43-86 | a tick fires exactly when its poll read exactly 1; `shot_count` then grows by exactly one and otherwise stays; the bank is unchanged when it did not fire and has 41026 and 1025 at 0 when it did |
| CheckCodeModbus.CameraSimulator.Run | 00.modbus_test/100.check_code_modbus.py:34-88 | after n passes `shot_count` has grown by the number of passes whose poll read 1, the two done addresses are 0 if any pass fired, every write the passes made went to 41026 or 1025, never to the trigger, and the writes are exactly one copy of 41026 and 1025 to 1, then both to 0, per shot |
| CheckCodeModbus.ShotWritesStep | 00.modbus_test/100.check_code_modbus.py:43-86 | one more pass appends the four done writes of a shot exactly when its poll read 1, and no write otherwise |
| CheckCodeModbus.DoneOnlyStep | 00.modbus_test/100.check_code_modbus.py:43-86 | one more pass keeps every write since a given point at 41026 or 1025 |
| CheckCodeModbus.TickWritesOnlyDone | 00.modbus_test/100.check_code_modbus.py:43-86 | every write of a tick goes to 41026 or 1025 |
| CheckCodeModbus.TickWrites | 00.modbus_test/100.check_code_modbus.py:43-88 | a tick writes nothing unless its poll read 1, and then exactly 41026 and 1025 to 1 and afterwards both to 0: the trigger is never written |
| ModbusServerRev002.CameraSimulator.constructor | 00.modbus_test/04.python-modbus-server-rev002.py:15-16 | start-up zeroes 41025 and 41026 only; 1025 keeps what the bank held |
| ModbusServerRev002.CameraSimulator.SetHoldingRegister | 00.modbus_test/04.python-modbus-server-rev002.py:56 | a write changes one address and is appended to the trace |
| ModbusServerRev002.CameraSimulator.ReadTrigger | 00.modbus_test/04.python-modbus-server-rev002.py:40 | a trigger read returns the next feed value and records the read |
| ModbusServerRev002.CameraSimulator.WriteDone | 00.modbus_test/04.python-modbus-server-rev002.py:56-59 | the done flag is written to 41026 and then 1025 |
| ModbusServerRev002.CameraSimulator.WaitForReset | 00.modbus_test/04.python-modbus-server-rev002.py:65-77 | the counted wait with a bound of 200, changing no register |
| ModbusServerRev002.CameraSimulator.SignalAndAwaitReset | 00.modbus_test/04.python-modbus-server-rev002.py:56-81 | raise both flags, wait, lower both: both read 0 afterwards |
| ModbusServerRev002.CameraSimulator.Tick | 00.modbus_test/04.python-modbus-server-rev002.py:40-85 | a tick fires exactly when its poll read 1; the bank is unchanged otherwise and has 41026 and 1025 at 0 when it did |
| ModbusServerRev002.TickWrites | 00.modbus_test/04.python-modbus-server-rev002.py:40-87 | a tick writes nothing unless its poll read 1, and then exactly 41026 and 1025 to 1 and afterwards to 0: 41025 is never written |
| ModbusServer.CameraSimulator.constructor | 00.modbus_test/02.python-modbus-server.py:14-15 | start-up zeroes 41025 and 1025 |
| ModbusServer.CameraSimulator.SetHoldingRegister | 00.modbus_test/02.python-modbus-server.py:56 | a write changes one address and is appended to the trace |
| ModbusServer.CameraSimulator.ReadTrigger | 00.modbus_test/02.python-modbus-server.py:40 | a trigger read returns the next feed value and records the read |
| ModbusServer.CameraSimulator.WriteDone | 00.modbus_test/02.python-modbus-server.py:56 | the done flag is written to 1025 only |
| ModbusServer.CameraSimulator.WaitForReset | 00.modbus_test/02.python-modbus-server.py:61-73 | the counted wait with a bound of 200, changing no register |
| ModbusServer.CameraSimulator.SignalAndAwaitReset | 00.modbus_test/02.python-modbus-server.py:56-76 | raise 1025, wait, lower 1025: it reads 0 afterwards |
| ModbusServer.CameraSimulator.Tick | 00.modbus_test/02.python-modbus-server.py:40-79 | a tick fires exactly when its poll read 1; the bank is unchanged otherwise and has 1025 at 0 when it did |
| ModbusServer.TickWrites | 00.modbus_test/02.python-modbus-server.py:40-81 | a tick writes nothing unless its poll read 1, and then 1025 to 1 and afterwards to 0: 41025 and 41026 are never written |
| PythonModbus.CameraSimulator.constructor | 00.modbus_test/01.python-modbus.py:15 | start-up writes nothing: the bank is as the server created it |
| PythonModbus.TickWaitReads | 00.modbus_test/01.python-modbus.py:26-45 | a tick waits at least one read exactly when its poll read 1, and then its last wait read is a 0 |
| PythonModbus.TickAccesses | 00.modbus_test/01.python-modbus.py:24-48 | a tick begins with the poll of 1024, and is that read alone exactly when the poll did not read 1 |
| PythonModbus.CameraSimulator.SetHoldingRegister | 00.modbus_test/01.python-modbus.py:35 | a write changes one address and is appended to the trace |
| PythonModbus.CameraSimulator.ReadTrigger | 00.modbus_test/01.python-modbus.py:24 | a trigger read returns the next feed value and records the read |
| PythonModbus.CameraSimulator.WaitForReset | 00.modbus_test/01.python-modbus.py:40-45 | the wait reads the trigger until the first 0, for a feed that has one, and changes no register |
| PythonModbus.CameraSimulator.SignalAndAwaitReset | 00.modbus_test/01.python-modbus.py:35-48 | raise 1025, wait for a 0, lower 1025 |
| PythonModbus.CameraSimulator.Tick | 00.modbus_test/01.python-modbus.py:24-51 | a tick fires exactly when its poll read 1; it ends only if the trigger later reads 0, and then 1025 is 0 |
| PythonModbus.TickWrites | 00.modbus_test/01.python-modbus.py:24-53 | a tick writes nothing unless its poll of 1024 read 1, and then 1025 to 1 and afterwards to 0: 1024 is never written |
| PythonModbus.ClearFollowsObservedReset | 00.modbus_test/01.python-modbus.py:35-48 | in a fired tick, 1025 is raised right after the poll read 1, before any wait read; it is lowered right after a read of 1024 that returned 0; no wait read before that one returned 0 |
| ModbusCheck.Span | 00.modbus_test/03.python-modbus-check.py:40 | `range(start, end + 1)`: end - start + 1 addresses, the i-th being start + i, so exactly the addresses from start to end |
| ModbusCheck.Flatten | 00.modbus_test/03.python-modbus-check.py:39-40 | the nested loops visit exactly the addresses lying in one of the ranges |
| ModbusCheck.ScanOrder | 00.modbus_test/03.python-modbus-check.py:19-23 | a pass visits exactly the addresses 0..10, 1024..1030 and 41025..41030 |
| ModbusCheck.Visit | 00.modbus_test/03.python-modbus-check.py:41-64 | one inner-loop step only appends to the trace; it changes the bank only when it answers a trigger; it leaves `last_values` at every other address alone |
| ModbusCheck.Scan | 00.modbus_test/03.python-modbus-check.py:39-64 | a scan only appends to the trace, at least one access per address |
| ModbusCheck.ScanOrderContents | 00.modbus_test/03.python-modbus-check.py:19-23 | a pass covers 0..10, then 1024..1030, then 41025..41030: 24 addresses, with 1025 right after 1024 and 41026 right after 41025 |
| ModbusCheck.VisitAppends | 00.modbus_test/03.python-modbus-check.py:41-64 | one inner-loop step reads exactly the visited address, and writes 1025 then 41026 to 1 exactly when it sees a new 1 at a trigger candidate |
| ModbusCheck.ScanReadsInOrder | 00.modbus_test/03.python-modbus-check.py:39-41 | a scan reads the addresses it is given, each once, in order |
| ModbusCheck.ZeroReadIgnored | 00.modbus_test/03.python-modbus-check.py:43 | a read that is empty or 0 changes neither `last_values` nor the bank |
| ModbusCheck.RepeatedValueIgnored | 00.modbus_test/03.python-modbus-check.py:47 | a read of the value last recorded reports nothing and changes nothing |
| ModbusCheck.ZeroBlipNotReported | 00.modbus_test/03.python-modbus-check.py:43-54 | a value that goes from v to 0 and back to v between reads is not reported the second time |
| ModbusCheck.ChangeRecorded | 00.modbus_test/03.python-modbus-check.py:47-64 | a new nonzero value is recorded and reported; the bank changes only for a 1 at 1024 or 41025, and then 1025 and 41026 become 1 |
| ModbusCheck.ScanKeepsLastNonzero | 00.modbus_test/03.python-modbus-check.py:40-54 | `last_values` holds only nonzero values, and its keys are the keys it had plus scanned addresses |
| ModbusCheck.ScanOnlyRaisesDone | 00.modbus_test/03.python-modbus-check.py:57-64 | a scan never writes 0 and writes nothing but 1025 and 41026, so set done flags stay 1 |
| ModbusCheck.ScanSettles | 00.modbus_test/03.python-modbus-check.py:43-54 | once a pass has read a trigger candidate, its current nonzero value is the recorded one for the rest of the scan |
| ModbusCheck.SettledScanWritesNothing | 00.modbus_test/03.python-modbus-check.py:57-64 | with both trigger candidates' values recorded, a scan makes no write and leaves the bank unchanged, and both stay recorded |
| ModbusCheck.RescanWritesNothing | 00.modbus_test/03.python-modbus-check.py:31-64 | after a full pass, any later scan with no client write in between makes no write and leaves the bank unchanged: a trigger held at 1 is answered once |
| ModbusCheck.ScanKeepsRecord | 00.modbus_test/03.python-modbus-check.py:43-64 | a trigger candidate that reads 0 or nothing keeps its recorded value and its bank entry through a scan |
| ModbusCheck.LowerRaiseWritesNothing | 00.modbus_test/03.python-modbus-check.py:43-64 | with both trigger candidates recorded and c at 1, a scan with c set to 0 and then a scan with c set back to 1 write nothing and leave the bank as it was |
| ModbusCheck.ReraisedTriggerNotAnswered | 00.modbus_test/03.python-modbus-check.py:31-64 | after a full pass leaves 1 at a trigger candidate, the client's reset to 0 and raise to 1, each followed by a full pass, cause no write: the second trigger is never answered |
| ModbusCheck.OwnDoneFlagReported | 00.modbus_test/03.python-modbus-check.py:57-64 | answering a new 1 at 1024 sets 1025, which the next read of 1025 reports as a change to 1, unless 1 is already recorded for 1025 |
| ModbusCheck.AliasDoneFlagReported | 00.modbus_test/03.python-modbus-check.py:39-64 | answering a new 1 at 41025 sets 1025 and 41026; the next read, of 41026, reports a change to 1, while the record for 1025 is left as it was |
| ModbusCheck.AddressScanner.constructor | 00.modbus_test/03.python-modbus-check.py:28 | the scanner starts with nothing recorded |
| ModbusCheck.AddressScanner.VisitAddress | 00.modbus_test/03.python-modbus-check.py:41-64 | the inner-loop body, including the loop over 1025 and 41026, is one `Visit` |
| ModbusCheck.AddressScanner.ScanRange | 00.modbus_test/03.python-modbus-check.py:40-64 | the inner loop scans `range(start, end + 1)` in order |
| ModbusCheck.AddressScanner.ScanRanges | 00.modbus_test/03.python-modbus-check.py:39-64 | the outer `for` loop scans the ranges one after another |
| ModbusCheck.AddressScanner.ReraiseBetweenPasses | 00.modbus_test/03.python-modbus-check.py:31-64 | on the scanner itself: a pass leaving 1 at a trigger candidate, the client's reset to 0, a pass, the client's raise to 1 and a pass end with the writes and the bank of the first pass alone |
| ModbusCheck.AddressScanner.ScanPass | 00.modbus_test/03.python-modbus-check.py:31-66 | one pass of the `while True` loop scans the 24 test addresses in order |

## Left out

- `101.pymodbus_test.py` is not part of this model. It starts a library server and makes one write and one read through that library, with no logic of its own.
- Server creation, `start()`, `stop()` and the `KeyboardInterrupt` cleanup are left out. They are transport and process handling; the data bank is a map.
- `time.sleep` and every duration are left out. Timeouts are counted in polls, as the code counts them.
- Printing, the simulated capture progress and the status lines are left out. This includes the `loop_count % 200` status reads of 41025 and 1025 in 100 (lines 37-40), which only feed a print. That print indexes both results without the guard the poll has, so an empty read there would raise an error that the `except KeyboardInterrupt` does not catch, and the script would stop. The capture is a step that always succeeds; the scripts have no failure path.
- The robot's concurrent writes to the trigger are left out. The simulators see them through the `Feed` of trigger reads. The scanner sees them through `ClientWrite` between passes, never in the middle of a pass.
- The `while True` outer loops are modelled as one `Tick` or one `ScanPass`. Script 100 also has `Run(n)`. Non-termination is not modelled.
- CheckCodeModbus.CameraSimulator.Run: does not model the status reads every 200th pass, so for n >= 200 it describes the passes as if each of those reads returned a value; an empty one would stop the script.
- PythonModbus.CameraSimulator.Tick: requires that a poll of 1 is eventually followed by a read of 0. Without that, the Python wait loop never ends, and the model does not describe a tick that never ends.
- PythonModbus.CameraSimulator.WaitForReset: requires that the trigger eventually reads 0, for the same reason; a wait that never ends is not described.
- PythonModbus.CameraSimulator.SignalAndAwaitReset: requires that the trigger eventually reads 0, for the same reason; a raised flag that is never lowered is not described.
- The scanner's Modbus client is not modelled, so the model does not cover which addresses a real Dobot writes.

## Findings

No discrepancy between the code and its evident intent was found.
