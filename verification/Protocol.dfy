/** The fuzzing loop as a two-process machine (src/haps/mod.rs, src/lib.rs,
    src/fuzzer/mod.rs, src/interfaces/fuzz.rs).

    The simulator thread runs the guest and the stop handlers; the fuzzer thread sends
    testcases and waits for statuses. A handler is one atomic step up to the point where it
    blocks on the testcase channel; delivering the testcase is the step that finishes it.

    Assumed of the environment: each stop raises one stop notification, `quit` does not
    return, and the fuzzer thread does not panic. A handler error unwinds the simulator
    thread (every callback ends in `expect`), after which nothing more runs. */
module Protocol {
  import opened Base
  import opened PhysicalMemory
  import opened Injection

  // ------------------------------------------------------------------ values

  datatype Cpu = Cpu(number: int, arch: Architecture, addressBytes: nat)

  datatype SolutionKind = Timeout | Exception | Breakpoint | Manual

  datatype StopReason =
    | Magic(number: MagicNumber)
    | ManualStartReason(processor: Cpu, info: ManualStartInfo)
    | ManualStartWithoutBuffer(processor: Cpu)
    | ManualStop
    | Solution(kind: SolutionKind)

  datatype ExitKind = ExitOk | ExitCrash | ExitTimeout

  datatype Testcase = Testcase(bytes: Buffer, cmplog: bool)

  /** A status message. The fuzzer reads only `exit`; `testcase` is a history tag: the
      testcase in the target's memory when the status was sent. */
  datatype Verdict = Verdict(testcase: Option<Testcase>, exit: ExitKind)

  datatype OnceCell = StartProcessorCell | FuzzerCell | StartInfoCell | StartTimeCell

  datatype Error =
    | Access(access: AccessError)
    | ClockWentBackwards
    | FuzzerGone
    | NoStartProcessor
    | NoFuzzerTx
    | NoFuzzerRx
    | NoStartInfo
    | NoStartTime
    | NoSnapshot
    | AlreadySet(cell: OnceCell)

  datatype Snapshot = Snapshot(mem: Memory, pending: nat)

  /** The write-once cells and the processor table. */
  datatype Cells = Cells(
    processors: map<int, Cpu>,
    startProcessor: Option<int>,
    tx: bool, rx: bool, shutdown: bool, messages: bool, thread: bool,
    startInfo: Option<StartInfo>,
    startTime: Option<nat>,
    snapshot: Option<Snapshot>)

  datatype FuzzerPc = InControl | AwaitingStatus | Exited

  datatype Channels = Channels(testcases: seq<Testcase>, statuses: seq<Verdict>, shutdowns: nat, fuzzer: FuzzerPc)

  /** Why the simulator thread is blocked on the testcase channel. */
  datatype Phase = Starting | Restarting | Script(processor: Cpu, running: bool)

  datatype Pc = Running | Await(phase: Phase) | Stopped | Quit | Panicked(error: Error)

  /** Guest memory and the number of pending timeout events. */
  datatype Sim = Sim(mem: Memory, pending: nat)

  datatype Counters = Counters(iterations: nat, timeouts: nat, solutions: nat)

  /** History variables: what was sent, taken, reported and received, and how often the
      rarer branches were taken. No transition depends on them. */
  datatype History = History(
    sent: seq<Testcase>, taken: seq<Testcase>,
    reported: seq<Verdict>, received: seq<Verdict>,
    bareStops: nat, limitStops: nat,
    posted: nat, fired: nat, removed: nat, overlaps: nat,
    scripted: bool)

  datatype State = State(
    cells: Cells, sim: Sim, chan: Channels, counters: Counters, hist: History,
    reason: Option<StopReason>,
    repro: Option<Buffer>, bookmark: bool, stoppedForRepro: bool,
    coverageEnabled: bool, prevLoc: nat, cmplogEnabled: bool,
    current: Option<Testcase>,
    pc: Pc)

  datatype Config = Config(
    iterationLimit: nat, quitOnLimit: bool, shutdownOnStop: bool,
    startOnHarness: bool, stopOnHarness: bool,
    startIndex: nat, stopIndices: set<nat>, assertIndices: set<nat>,
    allExceptions: bool, exceptions: set<int>,
    allBreakpoints: bool, breakpoints: set<int>,
    // Whether restoring a snapshot also rewinds the event queue.
    restoreDropsEvents: bool)

  function Init(mem: Memory): State {
    State(Cells(map[], None, false, false, false, false, false, None, None, None),
          Sim(mem, 0), Channels([], [], 0, InControl), Counters(0, 0, 0),
          History([], [], [], [], 0, 0, 0, 0, 0, 0, false),
          None, None, false, false, false, 0, false, None, Running)
  }

  // ------------------------------------------------------- building blocks

  function StartProcessor(s: State): Option<Cpu> {
    match s.cells.startProcessor
    case None => None
    case Some(n) => if n in s.cells.processors then Some(s.cells.processors[n]) else None
  }

  function AddProcessor(s: State, cpu: Cpu, isStart: bool): Result<State, Error> {
    var table := if cpu.number in s.cells.processors then s.cells.processors else s.cells.processors[cpu.number := cpu];
    if !isStart then Ok(s.(cells := s.cells.(processors := table)))
    else if s.cells.startProcessor.Some? then Err(AlreadySet(StartProcessorCell))
    else Ok(s.(cells := s.cells.(processors := table, startProcessor := Some(cpu.number))))
  }

  function StartFuzzerThread(s: State): Result<State, Error> {
    if s.cells.thread then Ok(s)
    else if s.cells.tx || s.cells.rx || s.cells.shutdown || s.cells.messages then Err(AlreadySet(FuzzerCell))
    else Ok(s.(cells := s.cells.(tx := true, rx := true, shutdown := true, messages := true, thread := true)))
  }

  function Post(s: State): Result<State, Error> {
    if StartProcessor(s).None? then Err(NoStartProcessor)
    else Ok(s.(sim := s.sim.(pending := s.sim.pending + 1),
               hist := s.hist.(posted := s.hist.posted + 1,
                               overlaps := s.hist.overlaps + if s.sim.pending > 0 then 1 else 0)))
  }

  function Cancel(s: State): State {
    if StartProcessor(s).None? then s
    else s.(sim := s.sim.(pending := 0), hist := s.hist.(removed := s.hist.removed + s.sim.pending))
  }

  function Restore(c: Config, s: State): Result<State, Error> {
    match s.cells.snapshot
    case None => Err(NoSnapshot)
    case Some(snap) =>
      if c.restoreDropsEvents
      then Ok(s.(sim := Sim(snap.mem, snap.pending), hist := s.hist.(removed := s.hist.removed + s.sim.pending)))
      else Ok(s.(sim := s.sim.(mem := snap.mem)))
  }

  function Send(s: State, exit: ExitKind): Result<State, Error> {
    if !s.cells.tx then Err(NoFuzzerTx)
    else if s.chan.fuzzer.Exited? then Err(FuzzerGone)
    else
      var v := Verdict(s.current, exit);
      Ok(s.(chan := s.chan.(statuses := s.chan.statuses + [v]), hist := s.hist.(reported := s.hist.reported + [v])))
  }

  function SendShutdown(s: State): Result<State, Error> {
    if !s.cells.shutdown then Ok(s)
    else if s.chan.fuzzer.Exited? then Err(FuzzerGone)
    else Ok(s.(chan := s.chan.(shutdowns := s.chan.shutdowns + 1)))
  }

  /** `SystemTime::now().duration_since(start_time)` */
  function Elapsed(s: State, now: nat): Result<nat, Error> {
    match s.cells.startTime
    case None => Err(NoStartTime)
    case Some(t) => if now < t then Err(ClockWentBackwards) else Ok(now - t)
  }

  function SaveBookmark(s: State): State {
    if s.repro.Some? then s.(bookmark := true) else s
  }

  function StopSimulation(s: State, reason: StopReason): State {
    s.(reason := Some(reason))
  }

  // ------------------------------------------------------ taking a testcase

  /** `get_and_write_testcase` once the testcase is known. */
  function Write(s: State, t: Testcase): Result<State, Error> {
    if s.cells.startInfo.None? then Err(NoStartInfo)
    else if StartProcessor(s).None? then Err(NoStartProcessor)
    else
      match WriteStart(s.sim.mem, t.bytes, s.cells.startInfo.value, StartProcessor(s).value.addressBytes)
      case Err(e) => Err(Access(e))
      case Ok(m) => Ok(s.(sim := s.sim.(mem := m), cmplogEnabled := t.cmplog, current := Some(t)))
  }

  /** Write the testcase, then `post_timeout_event` and the tail of the handler. */
  function Begin(s: State, t: Testcase, phase: Phase): Result<State, Error> {
    var s1 :- Write(s, t);
    var s2 :- Post(s1);
    var s3 := if phase.Starting? then SaveBookmark(s2) else s2;
    Ok(s3.(pc := Running))
  }

  /** `get_testcase`: the repro testcase if there is one, otherwise block on the channel. */
  function Request(s: State, phase: Phase): Result<State, Error> {
    if s.repro.Some? then Begin(s, Testcase(s.repro.value, false), phase)
    else if !s.cells.rx then Err(NoFuzzerRx)
    else Ok(s.(pc := Await(phase)))
  }

  function Take(s: State): State
    requires s.chan.testcases != []
  {
    s.(chan := s.chan.(testcases := s.chan.testcases[1..]), hist := s.hist.(taken := s.hist.taken + [s.chan.testcases[0]]))
  }

  /** The blocked receive returns and the interrupted handler runs to its end. */
  function Deliver(s: State): Result<State, Error>
    requires s.pc.Await? && s.chan.testcases != []
  {
    var t := s.chan.testcases[0];
    match s.pc.phase
    case Script(cpu, running) =>
      Ok(StopSimulation(Take(s), ManualStartWithoutBuffer(cpu)).(cmplogEnabled := t.cmplog,
           pc := if running then Running else Stopped))
    case _ => Begin(Take(s), t, s.pc.phase)
  }

  // ------------------------------------------------------------ the handlers

  /** Set the start cells and save the snapshot. */
  function SetStartCells(s: State, info: Option<StartInfo>, now: nat): Result<State, Error> {
    if info.Some? && s.cells.startInfo.Some? then Err(AlreadySet(StartInfoCell))
    else if s.cells.startTime.Some? then Err(AlreadySet(StartTimeCell))
    else
      Ok(s.(cells := s.cells.(startInfo := if info.Some? then info else s.cells.startInfo,
                              startTime := Some(now),
                              snapshot := Some(Snapshot(s.sim.mem, s.sim.pending))),
            coverageEnabled := true))
  }

  /** The part of every start handler that runs once. `info` is absent when the script
      supplies the testcase itself. */
  function OpenLoop(s: State, info: Option<StartInfo>, now: nat): Result<State, Error> {
    var s1 :- SetStartCells(s, info, now);
    if info.Some? then Request(s1, Starting)
    else
      var s2 :- Post(s1);
      Ok(SaveBookmark(s2).(pc := Running))
  }

  function LiftAccess<T>(r: Result<T, AccessError>): Result<T, Error> {
    match r
    case Ok(v) => Ok(v)
    case Err(e) => Err(Access(e))
  }

  function OnMagicStart(s: State, number: MagicNumber, view: CpuView, now: nat): Result<State, Error>
    requires number.IsStart()
  {
    if s.cells.snapshot.Some? then Ok(SaveBookmark(s).(pc := Running))
    else
      var s1 :- StartFuzzerThread(s);
      if StartProcessor(s1).None? then Err(NoStartProcessor)
      else
        var info :- LiftAccess(MagicStartInfo(number, view, s1.sim.mem));
        OpenLoop(s1, Some(info), now)
  }

  function OnManualStart(s: State, cpu: Cpu, info: ManualStartInfo, view: CpuView, now: nat): Result<State, Error> {
    if s.cells.snapshot.Some? then Ok(SaveBookmark(s).(pc := Running))
    else
      var s1 :- StartFuzzerThread(s);
      var s2 :- AddProcessor(s1, cpu, true);
      if StartProcessor(s2).None? then Err(NoStartProcessor)
      else
        var start :- LiftAccess(ManualStart(view, s2.sim.mem, info));
        OpenLoop(s2, Some(start), now)
  }

  function OnManualStartWithoutBuffer(s: State, cpu: Cpu, now: nat): Result<State, Error> {
    if s.cells.snapshot.Some? then Ok(SaveBookmark(s).(pc := Running))
    else
      var s1 :- StartFuzzerThread(s);
      var s2 :- AddProcessor(s1, cpu, true);
      OpenLoop(s2, None, now)
  }

  predicate LimitReached(c: Config, iterations: nat) {
    c.iterationLimit != 0 && iterations >= c.iterationLimit
  }

  function Count(k: Counters, exit: ExitKind): Counters {
    match exit
    case ExitOk => k
    case ExitTimeout => k.(timeouts := k.timeouts + 1)
    case ExitCrash => k.(solutions := k.solutions + 1)
  }

  /** The end of an iteration: normal stop, manual stop and solution differ only in the status. */
  function FinishIteration(c: Config, s: State, exit: ExitKind, now: nat): Result<State, Error> {
    if s.cells.snapshot.None? then Ok(s.(pc := Running)) else Conclude(c, Cancel(s), exit, now)
  }

  /** With the timeout cancelled: stop for repro, or count and either end at the limit or report. */
  function Conclude(c: Config, s: State, exit: ExitKind, now: nat): Result<State, Error> {
    if s.bookmark then Ok(s.(stoppedForRepro := true, pc := Stopped))
    else
      var s1 := s.(counters := s.counters.(iterations := s.counters.iterations + 1));
      if LimitReached(c, s1.counters.iterations) then AtLimit(c, s1, now) else Report(c, s1, exit)
  }

  function AtLimit(c: Config, s: State, now: nat): Result<State, Error> {
    var _ :- Elapsed(s, now);
    var s1 :- SendShutdown(s);
    Ok(s1.(hist := s1.hist.(limitStops := s1.hist.limitStops + 1), pc := if c.quitOnLimit then Quit else Stopped))
  }

  /** Send the status and rewind memory and the edge state. */
  function Rewind(c: Config, s: State, exit: ExitKind): Result<State, Error> {
    var s1 :- Send(s.(counters := Count(s.counters, exit)), exit);
    var s2 :- Restore(c, s1);
    Ok(s2.(prevLoc := 0, current := None))
  }

  /** Rewind, then ask for the next testcase unless the script supplies it. */
  function Report(c: Config, s: State, exit: ExitKind): Result<State, Error> {
    var s1 :- Rewind(c, s, exit);
    if s1.cells.startInfo.Some? then Request(s1, Restarting)
    else
      var s2 :- Post(s1);
      Ok(s2.(pc := Running))
  }

  function SolutionExit(kind: SolutionKind): ExitKind {
    if kind.Timeout? then ExitTimeout else ExitCrash
  }

  function OnStoppedWithReason(c: Config, s: State, reason: StopReason, view: CpuView, now: nat): Result<State, Error> {
    match reason
    case Magic(StopNormal) => FinishIteration(c, s, ExitOk, now)
    case Magic(StopAssert) => FinishIteration(c, s, SolutionExit(Manual), now)
    case Magic(number) => OnMagicStart(s, number, view, now)
    case ManualStartReason(cpu, info) => OnManualStart(s, cpu, info, view, now)
    case ManualStartWithoutBuffer(cpu) => OnManualStartWithoutBuffer(s, cpu, now)
    case ManualStop => FinishIteration(c, s, ExitOk, now)
    case Solution(kind) => FinishIteration(c, s, SolutionExit(kind), now)
  }

  function OnStoppedWithoutReason(c: Config, s: State, now: nat): Result<State, Error> {
    if s.cells.snapshot.None? then Ok(s.(pc := Stopped))
    else
      var s1 :- Send(Cancel(s), ExitOk);
      var _ :- Elapsed(s1, now);
      var s2 :- if c.shutdownOnStop then SendShutdown(s1) else Ok(s1);
      Ok(s2.(hist := s2.hist.(bareStops := s2.hist.bareStops + 1), pc := Stopped))
  }

  /** The stop notification. `view` is what the start reader sees, `now` the clock. */
  function OnSimulationStopped(c: Config, s: State, view: CpuView, now: nat): Result<State, Error> {
    if s.stoppedForRepro then Ok(s.(pc := Stopped))
    else if s.reason.Some? then OnStoppedWithReason(c, s.(reason := None), s.reason.value, view, now)
    else OnStoppedWithoutReason(c, s, now)
  }

  predicate MagicAccepted(c: Config, number: MagicNumber, index: nat) {
    match number
    case StopNormal => c.stopOnHarness && index in c.stopIndices
    case StopAssert => c.stopOnHarness && index in c.assertIndices
    case _ => c.startOnHarness && c.startIndex == index
  }

  function OnMagicInstruction(c: Config, s: State, cpu: Cpu, number: MagicNumber, index: nat): State {
    var s1 := AddProcessor(s, cpu, false).value;
    if !MagicAccepted(c, number, index) then s1
    else
      var s2 := if number.IsStart() && s1.cells.startProcessor.None?
                then s1.(cells := s1.cells.(startProcessor := Some(cpu.number))) else s1;
      StopSimulation(s2, Magic(number))
  }

  /** `repro`: set the testcase and, once an iteration has run, restart with it at once. */
  function Repro(c: Config, s: State, bytes: Buffer): Result<State, Error> {
    var s1 := s.(repro := Some(bytes), hist := s.hist.(scripted := true));
    if s.counters.iterations == 0 then Ok(s1)
    else
      var s2 :- Restore(c, s1);
      Begin(s2, Testcase(bytes, false), Restarting)
  }

  function StartWithoutBuffer(s: State, cpu: Cpu): Result<State, Error> {
    var s0 := s.(hist := s.hist.(scripted := true));
    var s1 :- if s0.cells.snapshot.None? then StartFuzzerThread(s0) else Ok(s0);
    Handed(s1, cpu)
  }

  /** The testcase handed to the script: the repro one, or the next from the channel. */
  function Handed(s: State, cpu: Cpu): Result<State, Error> {
    if s.repro.Some? then Ok(StopSimulation(s.(cmplogEnabled := false), ManualStartWithoutBuffer(cpu)))
    else if !s.cells.rx then Err(NoFuzzerRx)
    else Ok(s.(pc := Await(Script(cpu, s.pc.Running?))))
  }

  // -------------------------------------------------------------- the machine

  datatype Label =
    // the guest and the hardware events it causes
    | GuestRun(mem: Memory, prevLoc: nat)
    | TimeoutFires
    | MagicInstruction(cpu: Cpu, number: MagicNumber, index: nat)
    | ExceptionRaised(vector: int)
    | BreakpointHit(id: int)
    // the stop notification and the end of a blocked handler
    | StopNotified(view: CpuView, now: nat)
    | TestcaseDelivered
    | DeliveryFailed
    // scripts and the command line
    | ScriptStop
    | ScriptSolution
    | ScriptStart(processor: Cpu, info: ManualStartInfo)
    | ScriptStartWithoutBuffer(processor: Cpu)
    | ScriptRepro(bytes: Buffer)
    | ScriptAddProcessor(processor: Cpu)
    | UserContinue
    // the fuzzer thread
    | FuzzerSend(testcase: Testcase)
    | FuzzerReceive
    | FuzzerShutdown

  /** The processor a start handler reads: the start processor, or the one a scripted start is about to make it. */
  function Reader(s: State): Option<Cpu> {
    if StartProcessor(s).Some? then StartProcessor(s)
    else match s.reason
      case Some(ManualStartReason(cpu, _)) =>
        Some(if cpu.number in s.cells.processors then s.cells.processors[cpu.number] else cpu)
      case _ => None
  }

  /** What a start handler sees is that processor's. */
  predicate Sees(s: State, view: CpuView) {
    Reader(s).Some? ==> view.arch == Reader(s).value.arch && view.addressBytes == Reader(s).value.addressBytes
  }

  predicate Enabled(s: State, l: Label) {
    match l
    case GuestRun(_, prevLoc) => s.pc.Running? && (s.coverageEnabled || prevLoc == s.prevLoc)
    case TimeoutFires => s.pc.Running? && s.sim.pending > 0
    case MagicInstruction(_, _, _) => s.pc.Running?
    case ExceptionRaised(_) => s.pc.Running?
    case BreakpointHit(_) => s.pc.Running?
    case StopNotified(view, _) => s.pc.Running? && Sees(s, view)
    case TestcaseDelivered => s.pc.Await? && s.chan.testcases != []
    case DeliveryFailed => s.pc.Await? && s.chan.testcases == [] && s.chan.fuzzer.Exited?
    case UserContinue => s.pc.Stopped?
    case FuzzerSend(_) => s.cells.thread && s.chan.fuzzer.InControl?
    case FuzzerReceive => s.cells.thread && s.chan.fuzzer.AwaitingStatus? && s.chan.statuses != []
    case FuzzerShutdown => s.cells.thread && s.chan.fuzzer.InControl? && s.chan.shutdowns > 0
    case _ => s.pc.Running? || s.pc.Stopped?
  }

  /** What the source's code for the label returns. */
  function Outcome(c: Config, s: State, l: Label): Result<State, Error>
    requires Enabled(s, l)
  {
    match l
    case GuestRun(mem, prevLoc) => Ok(s.(sim := s.sim.(mem := mem), prevLoc := prevLoc))
    case TimeoutFires =>
      Ok(StopSimulation(s.(sim := s.sim.(pending := s.sim.pending - 1), hist := s.hist.(fired := s.hist.fired + 1)),
                        Solution(Timeout)))
    case MagicInstruction(cpu, number, index) => Ok(OnMagicInstruction(c, s, cpu, number, index))
    case ExceptionRaised(v) =>
      Ok(if c.allExceptions || v in c.exceptions then StopSimulation(s, Solution(Exception)) else s)
    case BreakpointHit(b) =>
      Ok(if c.allBreakpoints || b in c.breakpoints then StopSimulation(s, Solution(Breakpoint)) else s)
    case StopNotified(view, now) => OnSimulationStopped(c, s, view, now)
    case TestcaseDelivered => Deliver(s)
    case DeliveryFailed => Err(FuzzerGone)
    case ScriptStop => Ok(StopSimulation(s, ManualStop))
    case ScriptSolution => Ok(StopSimulation(s, Solution(Manual)))
    case ScriptStart(cpu, info) => Ok(StopSimulation(s, ManualStartReason(cpu, info)))
    case ScriptStartWithoutBuffer(cpu) => StartWithoutBuffer(s, cpu)
    case ScriptRepro(bytes) => Repro(c, s, bytes)
    case ScriptAddProcessor(cpu) => AddProcessor(s, cpu, false)
    case UserContinue => Ok(s.(pc := Running))
    case FuzzerSend(t) =>
      Ok(s.(chan := s.chan.(testcases := s.chan.testcases + [t], fuzzer := AwaitingStatus),
            hist := s.hist.(sent := s.hist.sent + [t])))
    case FuzzerReceive =>
      Ok(s.(chan := s.chan.(statuses := s.chan.statuses[1..], fuzzer := InControl),
            hist := s.hist.(received := s.hist.received + [s.chan.statuses[0]])))
    case FuzzerShutdown => Ok(s.(chan := s.chan.(shutdowns := s.chan.shutdowns - 1, fuzzer := Exited)))
  }

  /** One step: an error unwinds the simulator thread. */
  function Apply(c: Config, s: State, l: Label): State
    requires Enabled(s, l)
  {
    match Outcome(c, s, l)
    case Ok(s') => s'
    case Err(e) => s.(pc := Panicked(e))
  }

  /** The state after a run from boot, or None if some step was not enabled. */
  function After(c: Config, mem: Memory, run: seq<Label>): Option<State> {
    if run == [] then Some(Init(mem))
    else
      var before := After(c, mem, run[..|run| - 1]);
      if before.Some? && Enabled(before.value, run[|run| - 1])
      then Some(Apply(c, before.value, run[|run| - 1])) else None
  }
}
