# Verified model of the TSFFS fuzzing loop and its tracing core

TSFFS fuzzes software running in a simulator. A fuzzer thread sends testcases; simulator callbacks write each one into
the target's memory, run it from a snapshot, and send back how it ended. This project models that loop and the parts
around it that carry hard properties, and proves those properties for every input, every run or every interleaving.

| files | what they hold |
|---|---|
| `Base.dfy`, `Bits.dfy`, `Memory.dfy` | results, powers of two, XOR and OR on naturals, byte-addressed memory |
| `Injection.dfy` | writing a testcase and its size; reading the start arguments |
| `Protocol.dfy` | the two-thread machine: states, handlers, labels, runs |
| `ProtocolSafety.dfy` | the inductive invariant, kept by every step |
| `ProtocolTheorems.dfy`, `ProtocolIterations.dfy` | what the invariant gives over whole runs |
| `ProtocolFresh.dfy` | every way an iteration begins, and when its whole start state is independent of history |
| `ProtocolTimeouts.dfy`, `ProtocolSizes.dfy` | fired timeouts up to the next stop; where testcase and size stand at every iteration start |
| `ProtocolRuns.dfy` | concrete runs that reach each exceptional state |
| `Host.dfy` | the two threads as mutable objects: entry points keep the invariant and promise what callers rely on |
| `Coverage.dfy`, `HashIndex.dfy`, `CmpLog.dfy` | edge map, edge reports, XOR-fold hash, comparison rings |
| `IntTypes.dfy`, `CmpTables.dfy` | the eight integer types and the 64-arm operator tables |
| `CmpEval.dfy`, `CmpExact.dfy` | the x86-64 expression evaluator, and exactly which shapes of expression it evaluates exactly |
| `CmpOperands.dfy`, `Aarch64Eval.dfy` | operands of both architectures, the AArch64 evaluator, what gets logged |
| `Paging.dfy`, `KernelScan.dfy`, `ModuleList.dfy`, `SourceCache.dfy` | Windows introspection and source lookup |

`dafny verify dfyconfig.toml` checks everything.

## How the loop is modelled

A state holds the write-once cells, guest memory and pending timeouts, the channels, the counters, the repro flags, the
control points of both threads, and history variables. A run is any sequence of enabled labels: guest execution,
hardware events, stop notifications, testcase deliveries, script calls and fuzzer-thread steps. A handler is one atomic
step up to the point where it blocks on the testcase channel; delivery is the step that finishes it. A handler error
unwinds the simulator thread, because every callback ends in `expect`.

Assumed of the environment: one stop notification per stop; `quit` does not return; the fuzzer thread does not panic;
the configuration is constant during a run; targets are little-endian; snapshots have the single-restore form of the
newer simulator API. Counters and times are unbounded. Integer arithmetic wraps as in a release build. Addresses are
64-bit and wrap. Reads and writes of unmapped addresses fail. The clock, the address translation, register contents
and list entries read from the target are parameters. The translation holds whatever address the simulator returns for
a call that succeeds; the start readers also treat an invalid result as missing. What a start handler reads carries the start processor's
architecture and address width.

## What does not hold, and exactly when it does

- The status order is broken only by reason-less stops: there is one token plus one per such stop
  (`TokenConservation`; `ReachesTwoTokens` is such a run).
- An iteration begins from memory that depends only on the snapshot and the testcase, always. Its whole start state is
  fresh exactly when it was not begun by a repro request that found a stale previous edge location or a timeout still
  posted: the request restores memory but does not reset the location (`StepFreshIff`, `ReproFreshIff`,
  `IterationIsFresh`; `ReachesStaleRepro`).
- The outcome of the stop that reaches the iteration limit is dropped (`LimitDropsOutcome`). The fuzzer thread can then
  take a step, and so get to see the shutdown message, exactly when there have been more reason-less stops than there
  are testcases waiting; otherwise it waits for a status that does not come (`LimitStrandsFuzzerIff`,
  `LimitStrandsFuzzer`; `ReachesLimit`, `ReachesStrandedAfterBareStop`).
- docs/src/fuzzing/analyzing-results.md:9 says repro mode can be entered after stopping. The stop that ends a testcase
  halts for inspection exactly when the bookmark is set. Only a start handler in repro mode sets it, so a repro request
  made after an iteration has run does not halt at the end of its testcase unless a start is handled before that
  (`ReproStopsIffBookmarked`, `ReproAfterIterationsIsNotBookmarked`, `OnlyStartsBookmark`; `ReachesRepro`).
- Two timeout events are pending together exactly after a repro request in the middle of an iteration, if restoring a
  snapshot keeps posted events (`OverlapIff`; `ReachesRepro`). Whether it does is the simulator's business and has no
  counterpart in the source: `restoreDropsEvents` is a parameter of the model.
- A fired timeout is reported as a timeout exactly when no step before the next stop records another reason last,
  because every later reason replaces it: a start harness drops it and leaves the iteration running without a timeout,
  a stop harness turns it into a normal exit (`TimeoutReportedIff`, `RunsOnWithoutTimeoutIff`;
  `ReachesSwallowedTimeout`, `ReachesMaskedTimeout`).
- A three-argument start honours its third argument only on Arm and AArch64 (`ThreeArgumentStart`). The size variable
  is read with four bytes on i386 and written with the address width (`WideCellClobber`).
- An expression of a given shape always evaluates to its exact value wrapped into the type of its leftmost leaf exactly
  when no operator in it is computed in a narrower type than that (`ExactIff`).
- `Sub` subtracts exactly under the condition of `SubRefinesIff`. `Lsr` is a logical shift exactly on non-negative
  values or zero amounts (`LogicalRightIff`).
- x86-64 base-plus-index addresses add the scale to the index (`AddressRightIff`, `SmallScales`); comparisons with
  signed immediates are never logged (`SignedImmediateNeverLogged`); addresses of narrower registers are never read
  (`NarrowAddressNeverRead`).
- AArch64 shifted and offset registers and 16- and 64-bit immediates never evaluate (`EvaluatesIff`). A register is never
  logged against an immediate on 64-bit processors, nor against memory on 32-bit ones (`LoggedPair`).
- A 2MB page is translated correctly exactly when its frame is zero, a 4KB page exactly when bits 50 and 51 of its entry
  are clear (`AgreesWithSdmIff`).
- The kernel scan can report "not found" exactly when it starts above the first 2^48 bytes (`GuardFailsIff`).
- The hash is a valid index for every value exactly for three array lengths (`HashValidIff`).

## Model

| member | source | states |
|---|---|---|
| `ProtocolSafety.RunKeeps` | src/haps/mod.rs:26-689 | every state of every run satisfies the invariant: write-once cells, timeout conservation, rewound state while blocked, FIFO channels, lockstep, accounting |
| `ProtocolSafety.StepKeeps` | src/haps/mod.rs:26-689 | every enabled step of either thread, errors included, keeps that invariant |
| `ProtocolSafety.FinishedKeeps` | src/haps/mod.rs:94-188 | the end of an iteration keeps it on all its paths: no snapshot, repro stop, limit, report |
| `ProtocolSafety.BareStopKeeps` | src/haps/mod.rs:527-570 | a reason-less stop keeps it, with one extra status |
| `ProtocolSafety.OpenedKeeps` | src/haps/mod.rs:58-75 | the first start keeps it while setting the cells and the snapshot |
| `ProtocolSafety.DeliveredKeeps` | src/lib.rs:848-867 | finishing a blocked handler with the received testcase keeps it |
| `ProtocolSafety.ReproKeeps` | src/interfaces/fuzz.rs:28-71 | a repro request keeps it |
| `ProtocolSafety.FuzzerKeeps` | src/fuzzer/mod.rs:223-259 | the fuzzer thread's send, receive and shutdown steps keep it |
| `ProtocolSafety.ThreadKeeps` | src/fuzzer/mod.rs:102-127 | starting the fuzzer thread keeps the invariant and never meets a cell that is already set |
| `ProtocolSafety.AddKeeps` | src/lib.rs:671-709 | adding a processor keeps the invariant, and a successful start addition leaves a start processor |
| `ProtocolSafety.ReasonSet` | src/lib.rs:656-669 | recording any reason a callback or script may record keeps the invariant |
| `ProtocolTheorems.TokenConservation` | src/fuzzer/mod.rs:223-259 | in every interleaving queued testcases, queued statuses, the executing testcase and fuzzer control add up to one token plus the reason-less stops |
| `ProtocolTheorems.KthStatusAnswersKthTestcase` | src/haps/mod.rs:150-161 | without scripts and reason-less stops each channel holds at most one message and the k-th status received is the outcome of the k-th status-sending stop of the run, reported while the k-th testcase sent was in memory |
| `ProtocolTheorems.StatusAnswersStop` | src/haps/mod.rs:457-477 | a step sends a status exactly when it is a stop at which one is due; the status is the exit of that stop's reason, tagged with the testcase then in memory |
| `ProtocolTheorems.StatusesAreStopExits` | src/haps/mod.rs:427-477 | over every run the statuses sent are the outcomes of those stops in order |
| `ProtocolTheorems.CellsAreWriteOnce` | src/lib.rs:671-716 | over every run each set cell keeps its value and the processor table only grows |
| `ProtocolTheorems.SnapshotImpliesCells` | src/haps/mod.rs:26-75 | in every reachable state with a snapshot the start processor is in the table and channels and start time are set |
| `ProtocolTheorems.NoMissingCell` | src/haps/mod.rs:204-303 | no "missing" error branch of a stop or delivery can be taken: failures come from target memory, the clock, a fuzzer told to shut down, or a second start before the snapshot |
| `ProtocolFresh.SnapshotNeedsHarness` | src/haps/mod.rs:649-677 | in every run without scripted starts a snapshot, or a start under way, implies that a start instruction with the configured index was executed and harness starts are on |
| `ProtocolIterations.DeliveryStartsFresh` | src/lib.rs:807-865 | a delivery starts the iteration exactly when testcase and size land on mapped memory, and then memory is the snapshot overlaid with them, one timeout is pending and the previous location is 0 |
| `ProtocolFresh.StepFreshIff` | src/lib.rs:848-865 | whatever step begins an iteration (delivery, first start or rerun in repro mode, repro request), memory is the snapshot overlaid with testcase and size; the whole start state is the fresh one if and only if the step is not a repro request with a stale location or a posted timeout |
| `ProtocolFresh.ReproFreshIff` | src/interfaces/fuzz.rs:45-55 | a repro request begins fresh if and only if the previous location is 0 and no posted timeout survives the restore |
| `ProtocolFresh.OnlyTheseBegin` | src/lib.rs:848-865 | no other step changes the testcase in memory; it can at most end it |
| `ProtocolFresh.IterationIsFresh` | src/haps/mod.rs:157-161 | every iteration of every run begins from the snapshot overlaid with its testcase and size, and from the fresh state if and only if its beginning is clean |
| `ProtocolFresh.HistoryIndependence` | src/haps/mod.rs:58-73 | two iterations on one testcase, in any runs and configurations, start from equal memory when snapshot, start information and processor agree, and from equal simulator states when both starts are clean |
| `ProtocolFresh.SameRunIndependence` | src/haps/mod.rs:157-161 | within one run that agreement is automatic |
| `ProtocolIterations.OverlapIff` | src/interfaces/fuzz.rs:45-55 | a timeout is posted beside a pending one exactly by a mid-iteration repro request when restore keeps events |
| `ProtocolIterations.NoOverlaps` | src/lib.rs:869-905 | over every run without such requests no timeouts ever overlap |
| `ProtocolIterations.TimeoutSafety` | src/lib.rs:869-937 | then at most one timeout is pending, none before the first start or while waiting for a testcase, and every one posted is pending, fired or removed |
| `ProtocolFresh.ResumesWithOneTimeout` | src/haps/mod.rs:157-178 | whenever a stop or delivery resumes on a new testcase, with or without a buffer, in repro mode or not, exactly one timeout is pending; when it resumes on the old one memory and timeouts are untouched |
| `ProtocolIterations.BareStopClearsTimeout` | src/haps/mod.rs:527-570 | a reason-less stop leaves no timeout and does not resume |
| `ProtocolTimeouts.TimeoutReportedIff` | src/lib.rs:656-669 | over every run from a fired timeout to the next stop: a timeout status is sent if and only if a timeout was the last reason recorded, no status is sent if and only if a start was, and then the iteration goes on |
| `ProtocolTimeouts.RunsOnWithoutTimeoutIff` | src/haps/mod.rs:76-88 | with one timeout pending and no repro request in between, the simulation is left running with none if and only if a start was recorded last |
| `ProtocolTimeouts.Stretches` | src/lib.rs:656-669 | over any stretch without stop notifications the reason left behind is the last one recorded, and counters, statuses, snapshot and repro flags stay |
| `ProtocolIterations.StatusAccounting` | src/haps/mod.rs:120-155 | over every run crashes sent equal solutions, timeouts sent equal timeouts, and with limit L at most L-1 statuses are sent for reasoned stops |
| `ProtocolIterations.LimitDropsOutcome` | src/haps/mod.rs:427-471 | the stop that reaches the limit is counted but sends no status and moves no other counter |
| `ProtocolIterations.LimitStrandsFuzzerIff` | src/fuzzer/mod.rs:534-546 | in every unscripted run with a stop at the limit and a fuzzer that has not exited, a fuzzer step is enabled if and only if fewer testcases wait than there were reason-less stops |
| `ProtocolIterations.LimitStrandsFuzzer` | src/fuzzer/mod.rs:534-546 | so without a reason-less stop no fuzzer step is enabled and both channels are empty |
| `ProtocolIterations.ReproStopsIffBookmarked` | src/haps/mod.rs:94-188 | in repro mode a stop halts for inspection exactly when the bookmark is set; otherwise it ends at the limit, or the testcase is rerun from the snapshot and a status sent |
| `ProtocolIterations.ReproBeforeStartIsBookmarked` | src/haps/mod.rs:26-88 | a start handler in repro mode sets the bookmark |
| `ProtocolIterations.ReproAfterIterationsIsNotBookmarked` | src/interfaces/fuzz.rs:28-71 | a repro request after iterations starts the testcase without the bookmark |
| `ProtocolIterations.OnlyStartsBookmark` | src/lib.rs:836-846 | nothing else ever sets it |
| `ProtocolSizes.RunSizes` | src/arch/mod.rs:208-218 | in every reachable state a maximum that came through a size pointer fits the start processor's size variable |
| `ProtocolSizes.TargetReadsLength` | src/arch/mod.rs:488-517 | at the start of every iteration of every run the target reads min(length, maximum) through its size pointer |
| `ProtocolSizes.StartInfoStays` | src/haps/mod.rs:26-75 | in every run the start information is what the stop that took the snapshot read, for good |
| `ProtocolSizes.TestcaseAtFirstArgument` | src/arch/mod.rs:488-517 | at the start of every iteration of every run the truncated testcase reads back at the translation of the first argument of the harness start that opened the run, if the size variable lies outside the buffer |
| `ProtocolRuns.ReachesTwoTokens` | src/haps/mod.rs:527-570 | a run whose reason-less stop makes a second token |
| `ProtocolRuns.ReachesLimit` | src/haps/mod.rs:427-455 | a run that strands the fuzzer at a limit of one |
| `ProtocolRuns.ReachesStrandedAfterBareStop` | src/haps/mod.rs:427-455 | a run that strands the fuzzer although it contains a reason-less stop |
| `ProtocolRuns.ReachesSwallowedTimeout` | src/haps/mod.rs:76-88 | a run whose timeout is dropped by a start harness |
| `ProtocolRuns.ReachesMaskedTimeout` | src/haps/mod.rs:94-188 | a run whose timeout is reported as a normal exit |
| `ProtocolRuns.ReachesRepro` | src/interfaces/fuzz.rs:45-55 | a run with two timeouts pending and repro mode without the bookmark |
| `ProtocolRuns.ReachesStaleRepro` | src/interfaces/fuzz.rs:45-55 | a run whose repro request begins an iteration with the old edge location |
| `Host.Simulator.WriteBytesAt` | src/arch/mod.rs:488-517 | the byte loop does what the specification of a bytewise write says, first failing address included |
| `Host.Simulator.WriteStart` | src/arch/mod.rs:488-517 | the method leaves the memory of the injection specification, or its error |
| `Host.FuzzerThread.Send` | src/fuzzer/mod.rs:223-242 | keeps the invariant; without scripts and reason-less stops the testcase is then the only message in flight |
| `Host.FuzzerThread.Receive` | src/fuzzer/mod.rs:223-242 | keeps the invariant; returns the exits in the order they were reported, without scripts and reason-less stops the one for the testcase sent last |
| `Host.FuzzerThread.CheckShutdown` | src/fuzzer/mod.rs:534-546 | keeps the invariant; ends the loop only after a reason-less stop or the limit |
| `Host.Tsffs.constructor` | src/lib.rs:450-531 | a new object with an idle link represents the initial state and satisfies the invariant |
| `Host.Tsffs.CancelTimeoutEvent` | src/lib.rs:907-937 | from a valid object with a snapshot no timeout is left pending |
| `Host.Tsffs.DeliverTestcase` | src/fuzzer/mod.rs:565-578 | keeps the invariant; a blocked handler succeeds exactly when testcase and size land on mapped memory, and then a fresh iteration on the oldest testcase has started |
| `Host.Tsffs.OnSimulationStopped` | src/haps/mod.rs:572-588 | keeps the invariant; sends one status exactly when one is due, with the exit of the reason and the testcase in memory; fails only for reasons outside the fuzzer |
| `Host.Tsffs.OnMagicInstruction` | src/haps/mod.rs:625-689 | keeps the invariant; the processor is known afterwards; the reason is replaced exactly for a start with harness starts on and the configured index, a stop or an assertion with harness stops on and the index among the configured ones; the start processor is set exactly by the first such start |
| `Host.Tsffs.Repro` | src/interfaces/fuzz.rs:28-71 | keeps the invariant; the testcase is set, runs at once after an iteration, and the bookmark is untouched |
| `Host.Tsffs.StartWithoutBuffer` | src/interfaces/fuzz.rs:208-225 | keeps the invariant and never fails: the channels exist afterwards |
| `Injection.WriteStartIsInjected` | src/arch/mod.rs:488-517 | writing succeeds exactly when buffer and cell are mapped, and equals the two overlays |
| `Injection.InjectedFrame` | src/arch/mod.rs:488-517 | byte by byte: the cell, else the truncated testcase, else unchanged |
| `Injection.SizeRoundTrip` | src/arch/mod.rs:488-517 | at any width up to the address size the cell reads back min(length, maximum) modulo the width, so exactly when it fits |
| `Injection.BufferReadBack` | src/arch/mod.rs:488-517 | the truncated testcase reads back when the cell lies outside the buffer |
| `Injection.MagicReads` | src/arch/mod.rs:183-380 | a harness start puts the buffer at the translated first argument with the bytes there, the size at the translated second argument when it is a pointer, and the maximum is the integer there, the second argument or the third |
| `Injection.MagicReadsIff` | src/arch/mod.rs:183-380 | it succeeds if and only if those addresses translate and those bytes are mapped |
| `Injection.ManualReads` | src/arch/mod.rs:382-486 | the same for a scripted start from the address and size it is given |
| `Injection.SizePtrMaximumFits` | src/arch/mod.rs:183-258 | a maximum read through a size pointer fits its cell |
| `Injection.ManualSizePtrMaximumFits` | src/arch/mod.rs:382-486 | the same for scripted starts |
| `Injection.SizePtrRoundTrip` | src/arch/mod.rs:208-218 | size-pointer form end to end: the target reads min(length, maximum) for every testcase and memory |
| `Injection.ThreeArgumentStart` | src/arch/mod.rs:648-656 | the third argument is honoured exactly on Arm and AArch64 |
| `Injection.WideCellClobber` | src/arch/mod.rs:488-517 | a byte past the size variable becomes zero, so it changes exactly if it was not |
| `Coverage.Tracer.constructor` | src/tracer/mod.rs:263-274 | a zeroed map is the map of the empty trace |
| `Coverage.Tracer.LogPc` | src/tracer/mod.rs:263-274 | exactly the cell (pc xor previous location) mod N is bumped, modulo 256, and the previous location becomes (pc / 2) mod N |
| `Coverage.Tracer.OnInstructionAfter` | src/tracer/mod.rs:331-348 | every cell stays the number of steps of the trace on it modulo 256, and edge reports stay conserved |
| `Coverage.Tracer.StartIteration` | src/haps/mod.rs:157-161 | only the previous location is reset |
| `Coverage.Tracer.LogMessages` | src/log/mod.rs:105-150 | however many messages, pending edges are reported once and cleared exactly if some input was interesting |
| `Coverage.HitCountIsCardinality` | src/tracer/mod.rs:263-274 | the count is the number of steps k with (pc_k xor prev_k) mod N on the cell |
| `Coverage.EdgeBits` | src/tracer/mod.rs:267-271 | on 2^k cells, bit by bit: a cell's bit is set where target address and previous location differ; the next location is the address without its lowest bit |
| `Coverage.EdgesDistinct` | src/tracer/mod.rs:267-271 | on 2^k cells edges into one target from different locations never share a cell |
| `Coverage.TraceConserves` | src/tracer/mod.rs:337-346 | a traced edge keeps conservation: seen = pending or reported, each once, under the cell first bumped |
| `Coverage.ReportConserves` | src/log/mod.rs:118-150 | so does a report: disjoint from earlier ones and strictly sorted |
| `Coverage.SortedReportUnique` | src/log/mod.rs:118-150 | a report does not depend on map iteration order |
| `Coverage.SortedEdges` | src/log/mod.rs:124-134 | sorted by address, exactly the pending edges |
| `HashIndex.Hash` | src/tracer/mod.rs:162-180 | the byte loops return the XOR of the value's limbs |
| `HashIndex.RoundsLimbs` | src/tracer/mod.rs:162-180 | after each round the buffer, as a number, is the XOR of the limbs so far |
| `HashIndex.HashLinear` | src/tracer/mod.rs:162-180 | the hash of an XOR is the XOR of the hashes |
| `HashIndex.HashFlips` | src/tracer/mod.rs:162-180 | the hash of 0 is 0, and flipping bit p of the value flips exactly bit p modulo the hash width |
| `HashIndex.ByteWidthLeast` | src/tracer/mod.rs:147-159 | the byte width is the least of 1, 2, 4 and 8 that holds the value |
| `HashIndex.HashValidIff` | src/tracer/mod.rs:147-180 | the hash is below the length for every value exactly for lengths 256, 65536 and 2^32 |
| `CmpLog.CmpMap.constructor` | src/tracer/mod.rs:276-303 | an empty map of 65536 rows of 32 pairs agrees with the empty log |
| `CmpLog.CmpMap.LogCmp` | src/tracer/mod.rs:276-303 | every row keeps agreeing with the comparisons hashed to it; values without a shape fail and change nothing |
| `CmpLog.RowFlips` | src/tracer/mod.rs:285 | address 0 goes to row 0, and flipping bit p of the address flips exactly bit p modulo 16 of the row |
| `CmpLog.RowAppend` | src/tracer/mod.rs:285-302 | one more comparison keeps count modulo the counter width and the last 32 pairs at their sequence numbers modulo 32 |
| `CmpLog.HitsBelowWidth` | src/tracer/mod.rs:285-287 | the hit count is the number of comparisons exactly below the counter width |
| `CmpLog.AttributeRecords` | src/tracer/mod.rs:291-298 | a type's bit is set exactly when the comparison has it, or has none and it is Equal |
| `CmpLog.TypeNumbers` | src/tracer/mod.rs:96-104 | the attribute of each single type is its number |
| `CmpTables.MulRefines` | src/arch/x86_64.rs:298-493 | all 64 arms are the exact product wrapped into the left type |
| `CmpTables.AddRefines` | src/arch/x86_64.rs:494-689 | all 64 arms are the exact sum wrapped into the left type |
| `CmpTables.AddViaWide` | src/arch/aarch64.rs:229-424 | every arm computes at the wider width with each operand's own signedness |
| `CmpTables.SubRefinesIff` | src/arch/aarch64.rs:425-620 | an arm is the exact difference wrapped into the left type if and only if the stated condition on types and right operand holds |
| `CmpTables.AmountRule` | src/arch/aarch64.rs:621-1017 | the shift amount is the shifter reduced modulo the shiftee's width for all 64 pairs |
| `CmpTables.ShiftRefines` | src/arch/aarch64.rs:621-1017 | one rule: multiplication, floor division by signedness, rotation |
| `CmpTables.LogicalRightIff` | src/arch/aarch64.rs:621-1017 | the shift named logical is logical exactly on non-negative values or zero amounts |
| `CmpTables.RotateInverse` | src/arch/aarch64.rs:621-1017 | rotating by n and then by width - n is the identity |
| `CmpTables.RotateBit` | src/arch/aarch64.rs:621-1017 | bit i of a right rotation by n is bit i + n, wrapped, of the operand |
| `CmpTables.RotatesRight` | src/arch/aarch64.rs:621-1017 | for all 64 pairs bit i of the rotated value is bit (i + shifter) mod width of the operand |
| `CmpTables.ShiftsScale` | src/arch/aarch64.rs:621-1017 | for all 64 pairs a left shift multiplies modulo the width, and both right shifts round the quotient down |
| `CmpEval.TablesRefineRules` | src/arch/x86_64.rs:221-712 | on every expression, errors included, evaluation with the tables is evaluation with the one-line rules |
| `CmpEval.DerefReads` | src/arch/x86_64.rs:223-274 | a dereference evaluates if and only if its address is a translated 64-bit one, its width is 1, 2, 4 or 8 and the bytes are mapped; it is then the unsigned integer of that width whose bytes are those of memory |
| `CmpEval.AddrReads` | src/arch/x86_64.rs:698-706 | so is an absolute operand, with eight bytes |
| `CmpEval.RegisterReads` | src/arch/x86_64.rs:275-297 | a register evaluates if and only if it exists and has such a width; it is then its low bytes |
| `CmpEval.ResultType` | src/arch/x86_64.rs:298-689 | the result has the type of the leftmost leaf |
| `CmpEval.CongruentToExact` | src/arch/x86_64.rs:298-689 | every expression is its exact integer value modulo the width of its narrowest leaf |
| `CmpEval.NarrowRightLosesCarry` | src/arch/x86_64.rs:494-689 | an expression where a narrow right operand loses its carry |
| `CmpExact.WideCongruent` | src/arch/x86_64.rs:298-689 | an expression none of whose operators is narrower than a type is its exact value modulo that type's width |
| `CmpExact.Breaks` | src/arch/x86_64.rs:298-689 | every shape with a narrower operator has constants on which it is not |
| `CmpExact.ExactIff` | src/arch/x86_64.rs:298-689 | all expressions of a shape evaluate to the exact value wrapped into the leftmost leaf's type if and only if no operator of the shape is computed in a narrower type |
| `CmpOperands.AddressIsSum` | src/arch/x86_64.rs:748-810 | the address of every memory operand with 64-bit registers is the wrapped sum it was built as |
| `CmpOperands.AddressRightIff` | src/arch/x86_64.rs:782-809 | it is the processor's address, for base-plus-index operands if and only if index + scale is congruent to index * scale |
| `CmpOperands.SmallScales` | src/arch/x86_64.rs:782-809 | solved for every scale of the instruction set: never for one, a single index for two, four and eight |
| `CmpOperands.NarrowAddressNeverRead` | src/arch/x86_64.rs:221-276 | an address that starts from a register narrower than 64 bits is never dereferenced |
| `CmpOperands.MemoryOperandReads` | src/arch/x86_64.rs:748-810 | a memory operand whose address is right is the integer at the processor's effective address, if that is mapped, and fails otherwise |
| `CmpOperands.PlainOperandReads` | src/arch/x86_64.rs:735-816 | immediates are themselves, registers their low bytes, absolute operands the word there; others have no expression |
| `CmpOperands.PairingLossless` | src/arch/x86_64.rs:178-205 | values pair exactly when their types are equal, at their width, and both can be read back |
| `CmpOperands.TraceCmp` | src/arch/x86_64.rs:161-217 | the loop logs the first two operands that evaluate, if they pair |
| `CmpOperands.LoggedIff` | src/arch/x86_64.rs:161-217 | two operands are logged exactly when both evaluate to one type |
| `CmpOperands.LoggedInOrder` | src/arch/x86_64.rs:161-217 | of any number of operands the first two that evaluate are logged, in their order: left and right read back as the first and the second |
| `CmpOperands.SignedImmediateNeverLogged` | src/arch/x86_64.rs:735-816 | a register or memory operand is never logged against a signed immediate |
| `Aarch64Eval.TablesRefineRules` | src/arch/aarch64.rs:192-1023 | on every expression without a failing subtraction the tables compute the rules |
| `Aarch64Eval.OperandRefines` | src/arch/aarch64.rs:1144-1254 | so on every operand expression |
| `Aarch64Eval.EvaluatesIff` | src/arch/aarch64.rs:192-1023 | exactly which operands evaluate |
| `Aarch64Eval.RegisterValue` | src/arch/aarch64.rs:219-227 | a register operand is the x or w register of its number modulo the address width |
| `Aarch64Eval.IndexedValue` | src/arch/aarch64.rs:194-218 | a pre- or post-indexed operand is the integer, as wide as an address, at register plus offset modulo the address width, typed 64-bit; it evaluates if and only if that is readable |
| `Aarch64Eval.ImmediateValue` | src/arch/aarch64.rs:1018-1021 | a 32-bit immediate is itself; constants evaluate exactly when they are unsigned 32-bit or signed 16- or 32-bit |
| `Aarch64Eval.LoggedPair` | src/arch/aarch64.rs:1144-1254 | for both address widths, two operands are logged exactly when both evaluate to one type |
| `Aarch64Eval.LoggedPairValues` | src/arch/aarch64.rs:134-186 | what is then logged reads back as the values of the two operands, in their order |
| `Aarch64Eval.TraceCmp` | src/arch/aarch64.rs:134-186 | the loops over operands and expressions log a two-operand comparison exactly when the operands are loggable |
| `Paging.WalkWithinPage` | src/os/windows/util.rs:73-147 | every address of a 4KB, 2MB or 1GB page gives the same walk |
| `Paging.AffineWithinPage` | src/os/windows/util.rs:73-147 | translation adds offsets within a page |
| `Paging.ReadsAgree` | src/os/windows/util.rs:63-71 | a read that stays in one page is the bytes translated one at a time, errors included |
| `Paging.FaultsAgree` | src/os/windows/util.rs:63-71 | when the first translation fails both fail alike |
| `Paging.TranslationInNumbers` | src/os/windows/util.rs:73-147 | for every address, cut into four 9-bit indices and an offset, and the 8-byte words at those indices of the four tables: not present at the first level with bit 0 clear, else the place in a 1GB, 2MB or 4KB page by bit 7 and the frame bits |
| `Paging.ArchitectureInNumbers` | src/os/windows/util.rs:73-147 | the same for the layout of section 4.5 of the Intel SDM volume 3A, the reference the code is compared with |
| `Paging.Large2MBIff` | src/os/windows/util.rs:125-132 | the 2MB frame read is the architectural one exactly when that is zero |
| `Paging.BaseFieldIff` | src/os/windows/paging.rs:547-548 | the 36-bit frame of the directory base is the architectural one exactly when the bits it drops are zero |
| `Paging.EntryFieldIff` | src/os/windows/paging.rs:1791-2047 | the 38-bit frame of a page directory or page table entry is the architectural one exactly when the bits it drops are zero |
| `Paging.AgreesWithSdmIff` | src/os/windows/util.rs:73-147 | when the directory base and the page-table pointer have no dropped bits, the walk is that of section 4.5 of the Intel SDM volume 3A if and only if it ends neither in a 2MB page of a non-zero frame nor in a 4KB page with bit 50 or 51 set |
| `KernelScan.FindKernel` | src/os/windows/kernel.rs:125-143 | terminates within the stated number of probes; a hit is the greatest aligned candidate that passes, "not found" means none passes, a failed probe is reported |
| `KernelScan.ScanRange` | src/os/windows/kernel.rs:125-143 | above the first region no subtraction wraps and the guard holds for exactly (start mod 2^48)/step + 1 probes |
| `KernelScan.GuardFailsIff` | src/os/windows/kernel.rs:125-143 | the guard can fail exactly when the scan starts above the first 2^48 bytes |
| `KernelScan.HitIsGreatest` | src/os/windows/kernel.rs:134-140 | the first hit is the greatest candidate |
| `ModuleList.LoadedModules` | src/os/windows/kernel.rs:287-355 | the modules of the chain in link order, or the failed read |
| `ModuleList.ChainMembers` | src/os/windows/kernel.rs:295-352 | one module per entry and never the head |
| `ModuleList.ChainDistinct` | src/os/windows/kernel.rs:295-352 | links that reach the head or a failed read meet no entry twice |
| `ModuleList.ChainUnique` | src/os/windows/kernel.rs:295-352 | the links determine the chain |
| `SourceCache.Cache.constructor` | src/source_cov/mod.rs:41-67 | the table holds exactly the non-empty suffixes of the cached paths, each with the last file that has it |
| `SourceCache.Cache.Insert` | src/source_cov/mod.rs:60-66 | adding a path overwrites exactly its suffixes |
| `SourceCache.Cache.Lookup` | src/source_cov/mod.rs:81-111 | the last file with the longest matching suffix; nothing exactly when the query is empty or its last component ends no cached path |
| `SourceCache.LastWithIff` | src/source_cov/mod.rs:41-67 | the last file with a suffix: it has it and none after it does |

## Left out

- LibAFL stages, schedulers, mutators, corpora and observers: the fuzzer thread only sends testcases and waits.
- Logging text, heartbeat, execution traces, symbolic coverage, corpus files and other I/O: no effect on the state modelled.
- Micro-checkpoint indices of the older snapshot API: only the single-restore form is modelled.
- Instruction decoding and opcode classification: thin matches over a decoder library.
- The Arm, RISC-V and i386 evaluators: they repeat the same tables and would add only duplicates.
- `tokenize_strings`, the page-table-switch refresh, `process_list`, symbol offsets, the C harness headers: easy, unused or order-dependent.
- Finding the first export, names, debug information and the names inside a module entry: reading an entry is one parameter.
- The x86-64 operand loop that feeds the evaluator: it only drops operands without an expression.
- Checksum lookups in the source cache: plain map lookups before the suffix search.
- KernelScan.FindKernel: steps that are not powers of two are not modelled, because masking is rounding down only for powers of two; both steps the code passes are. Calls that would scan for ever (a start below 2^48 and no probe that hits or fails) are excluded, because a method must end.
- CmpLog.CmpMap.LogCmp: the counter width belongs to a library, so it is a parameter divisible by the ring height, and wrap-around at it is assumed; the header's attribute field also has a fixed width there, and is assumed to hold the seven type bits.
- Paging.ReadsAgree: nothing is stated about reads that cross a page.
- CmpOperands.AddressRightIff: addresses mixing register widths, which the instruction set does not encode, are not related to the processor's.
- Paging.AgreesWithSdmIff: a directory base or page-table pointer with dropped bits reads another table, whose contents decide; nothing is stated about that.
