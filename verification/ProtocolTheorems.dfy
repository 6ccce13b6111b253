/** The promises of the fuzzing loop, for every run of the two threads. */
module ProtocolTheorems {
  import opened Base
  import opened PhysicalMemory
  import opened Injection
  import opened Protocol
  import opened ProtocolSafety

  // ------------------------------------------------------------- the token

  function Tokens(s: State): nat {
    |s.chan.testcases| + |s.chan.statuses| + One(!s.chan.fuzzer.AwaitingStatus?) + One(s.current.Some?)
  }

  /** In every interleaving: one token, plus one for each reason-less stop. */
  lemma TokenConservation(c: Config, mem: Memory, run: seq<Label>)
    requires After(c, mem, run).Some?
    ensures var s := After(c, mem, run).value;
            && |s.chan.testcases| + |s.chan.statuses| + One(!s.chan.fuzzer.AwaitingStatus?) + |s.hist.taken|
               == 1 + |s.hist.reported|
            && (!s.hist.scripted ==> Tokens(s) == 1 + s.hist.bareStops)
  {
    RunKeeps(c, mem, run);
    hide Apply, CountExits;
  }

  function ReasonExit(reason: Option<StopReason>): ExitKind {
    match reason
    case Some(Magic(StopAssert)) => ExitCrash
    case Some(Solution(Timeout)) => ExitTimeout
    case Some(Solution(_)) => ExitCrash
    case _ => ExitOk
  }

  /** Cells only ever go from unset to set; the processor table only grows. */
  predicate Extends(a: Cells, b: Cells) {
    && (forall n :: n in a.processors ==> n in b.processors && b.processors[n] == a.processors[n])
    && (a.startProcessor.Some? ==> b.startProcessor == a.startProcessor)
    && (a.tx ==> b.tx) && (a.rx ==> b.rx) && (a.shutdown ==> b.shutdown)
    && (a.messages ==> b.messages) && (a.thread ==> b.thread)
    && (a.startInfo.Some? ==> b.startInfo == a.startInfo)
    && (a.startTime.Some? ==> b.startTime == a.startTime)
    && (a.snapshot.Some? ==> b.snapshot == a.snapshot)
  }

  /** What a start handler may change. */
  predicate Started(s: State, s': State) {
    if s.cells.snapshot.Some? then s' == SaveBookmark(s).(pc := Running)
    else
      && Extends(s.cells, s'.cells) && s'.cells.snapshot.Some?
      && s'.chan == s.chan && s'.counters == s.counters && s'.repro == s.repro
      && s'.hist == s.hist.(posted := s'.hist.posted, overlaps := s'.hist.overlaps)
      && (s.sim.pending == 0 ==> s'.hist.overlaps == s.hist.overlaps && (s'.pc.Running? ==> s'.sim.pending == 1))
      && (if s'.pc.Running? then s'.bookmark == (s.bookmark || s.repro.Some?)
          else s'.pc == Await(Starting) && s.repro.None? && s'.bookmark == s.bookmark)
  }

  predicate IsStartReason(r: StopReason) {
    (r.Magic? && r.number.IsStart()) || r.ManualStartReason? || r.ManualStartWithoutBuffer?
  }

  lemma OpenedStarts(s: State, info: Option<StartInfo>, now: nat, s': State)
    requires s.cells.snapshot.None? && s.cells.startInfo.None?
    requires Opened(s, info, now, s')
    ensures Started(s, s')
  {
  }

  lemma OpenStarts(s: State, info: Option<StartInfo>, now: nat)
    requires s.cells.snapshot.None? && s.cells.startInfo.None?
    ensures var r := OpenLoop(s, info, now); r.Ok? ==> Started(s, r.value)
  {
    OpenEffect(s, info, now);
    hide OpenLoop, Opened, Started;
    if OpenLoop(s, info, now).Ok? {
      OpenedStarts(s, info, now, OpenLoop(s, info, now).value);
    }
  }

  /** Cells filled in before the loop is opened do not matter. */
  lemma StartedVia(s: State, cells: Cells, s': State)
    requires s.cells.snapshot.None? && cells.snapshot.None? && Extends(s.cells, cells)
    requires Started(s.(cells := cells), s')
    ensures Started(s, s')
  {
  }

  lemma ThreadCells(s: State)
    requires CellsInv(s) && s.cells.snapshot.None?
    ensures var r := StartFuzzerThread(s);
            && r.Ok? && r.value == s.(cells := r.value.cells) && Extends(s.cells, r.value.cells)
            && r.value.cells.snapshot.None? && r.value.cells.startInfo.None?
  {
  }

  lemma ProcessorCells(s: State, cpu: Cpu)
    requires s.cells.snapshot.None?
    ensures var r := AddProcessor(s, cpu, true);
            r.Ok? ==>
              && r.value == s.(cells := r.value.cells) && Extends(s.cells, r.value.cells)
              && r.value.cells.snapshot.None? && r.value.cells.startInfo == s.cells.startInfo
  {
  }

  lemma MagicStarted(s: State, number: MagicNumber, view: CpuView, now: nat)
    requires CellsInv(s) && number.IsStart()
    ensures var r := OnMagicStart(s, number, view, now); r.Ok? ==> Started(s, r.value)
  {
    var r := OnMagicStart(s, number, view, now);
    if s.cells.snapshot.None? && r.Ok? {
      ThreadCells(s);
      hide OpenLoop, MagicStartInfo, StartFuzzerThread, Started, Extends;
      var s1 := StartFuzzerThread(s).value;
      OpenStarts(s1, Some(MagicStartInfo(number, view, s1.sim.mem).value), now);
      StartedVia(s, s1.cells, r.value);
    }
  }

  /** The first two steps of a scripted start. */
  lemma PreparedCells(s: State, cpu: Cpu)
    requires CellsInv(s) && s.cells.snapshot.None?
    ensures StartFuzzerThread(s).Ok?
    ensures var r := AddProcessor(StartFuzzerThread(s).value, cpu, true);
            r.Ok? ==>
              && r.value == s.(cells := r.value.cells) && Extends(s.cells, r.value.cells)
              && r.value.cells.snapshot.None? && r.value.cells.startInfo.None?
  {
    ThreadCells(s);
    ProcessorCells(StartFuzzerThread(s).value, cpu);
    hide StartFuzzerThread, AddProcessor;
  }

  lemma ManualStarted(s: State, cpu: Cpu, info: ManualStartInfo, view: CpuView, now: nat)
    requires CellsInv(s)
    ensures var r := OnManualStart(s, cpu, info, view, now); r.Ok? ==> Started(s, r.value)
  {
    var r := OnManualStart(s, cpu, info, view, now);
    if s.cells.snapshot.None? && r.Ok? {
      PreparedCells(s, cpu);
      hide OpenLoop, ManualStart, StartFuzzerThread, AddProcessor, Started, Extends;
      var s2 := AddProcessor(StartFuzzerThread(s).value, cpu, true).value;
      OpenStarts(s2, Some(ManualStart(view, s2.sim.mem, info).value), now);
      StartedVia(s, s2.cells, r.value);
    }
  }

  lemma BufferlessStarted(s: State, cpu: Cpu, now: nat)
    requires CellsInv(s)
    ensures var r := OnManualStartWithoutBuffer(s, cpu, now); r.Ok? ==> Started(s, r.value)
  {
    var r := OnManualStartWithoutBuffer(s, cpu, now);
    if s.cells.snapshot.None? && r.Ok? {
      PreparedCells(s, cpu);
      hide OpenLoop, StartFuzzerThread, AddProcessor, Started, Extends;
      var s2 := AddProcessor(StartFuzzerThread(s).value, cpu, true).value;
      OpenStarts(s2, None, now);
      StartedVia(s, s2.cells, r.value);
    }
  }

  lemma StartEffect(c: Config, s: State, reason: StopReason, view: CpuView, now: nat)
    requires CellsInv(s) && IsStartReason(reason)
    ensures var r := OnStoppedWithReason(c, s, reason, view, now); r.Ok? ==> Started(s, r.value)
  {
    hide OnMagicStart, OnManualStart, OnManualStartWithoutBuffer, Started, CellsInv;
    match reason
    case Magic(number) => MagicStarted(s, number, view, now);
    case ManualStartReason(cpu, info) => ManualStarted(s, cpu, info, view, now);
    case ManualStartWithoutBuffer(cpu) => BufferlessStarted(s, cpu, now);
  }

  /** The result of a stop notification as one relation on states. */
  predicate StopResult(c: Config, s: State, s': State) {
    if s.stoppedForRepro then s' == s.(pc := Stopped)
    else
      var s0 := s.(reason := None);
      match s.reason
      case None => Bared(c, s, s')
      case Some(r) => if IsStartReason(r) then Started(s0, s') else Finished(c, s0, ReasonExit(Some(r)), s')
  }

  lemma StopEffect(c: Config, s: State, view: CpuView, now: nat)
    requires CellsInv(s) && TimeoutInv(s)
    ensures var r := OnSimulationStopped(c, s, view, now); r.Ok? ==> StopResult(c, s, r.value)
  {
    var s0 := s.(reason := None);
    assert CellsInv(s0) && TimeoutInv(s0);
    hide FinishIteration, OnMagicStart, OnManualStart, OnManualStartWithoutBuffer, OnStoppedWithoutReason;
    hide Finished, Started, Bared, CellsInv, TimeoutInv;
    match s.reason
    case None => BareEffect(c, s, now);
    case Some(r) =>
      if IsStartReason(r) {
        StartEffect(c, s0, r, view, now);
      } else {
        FinishEffect(c, s0, ReasonExit(Some(r)), now);
      }
  }

  /** What a step other than a stop leaves alone. */
  predicate Quiet(s: State, s': State) {
    && Extends(s.cells, s'.cells)
    && s'.cells.snapshot == s.cells.snapshot && s'.cells.startInfo == s.cells.startInfo
    && s'.hist.reported == s.hist.reported && s'.counters == s.counters
  }

  lemma DeliverQuiet(s: State)
    requires s.pc.Await? && s.chan.testcases != []
    ensures Deliver(s).Ok? ==> Quiet(s, Deliver(s).value)
  {
    hide Begin;
    BeginEffect(Take(s), s.chan.testcases[0], s.pc.phase);
  }

  lemma ReproQuiet(c: Config, s: State, bytes: Buffer)
    ensures var r := Repro(c, s, bytes); r.Ok? ==> Quiet(s, r.value)
  {
    hide Begin;
    var s1 := s.(repro := Some(bytes), hist := s.hist.(scripted := true));
    if s.counters.iterations > 0 && Restore(c, s1).Ok? {
      BeginEffect(Restore(c, s1).value, Testcase(bytes, false), Restarting);
    }
  }

  lemma ScriptQuiet(s: State, cpu: Cpu)
    ensures var r := StartWithoutBuffer(s, cpu); r.Ok? ==> Quiet(s, r.value)
  {
  }

  lemma MagicQuiet(c: Config, s: State, cpu: Cpu, number: MagicNumber, index: nat)
    ensures Quiet(s, OnMagicInstruction(c, s, cpu, number, index))
  {
    hide MagicAccepted;
    var s1 := AddProcessor(s, cpu, false).value;
    assert Quiet(s, s1);
    hide AddProcessor, Quiet;
    MarkQuiet(s, s1, cpu, number);
    assert Quiet(s, StopSimulation(Marked(s1, cpu, number), Magic(number)));
  }

  /** The first processor of a start instruction becomes the start processor. */
  function Marked(s: State, cpu: Cpu, number: MagicNumber): State {
    if number.IsStart() && s.cells.startProcessor.None?
    then s.(cells := s.cells.(startProcessor := Some(cpu.number))) else s
  }

  lemma MarkQuiet(s: State, s1: State, cpu: Cpu, number: MagicNumber)
    requires Quiet(s, s1)
    ensures Quiet(s, StopSimulation(Marked(s1, cpu, number), Magic(number)))
  {
  }

  lemma StepQuiet(c: Config, s: State, l: Label)
    requires Enabled(s, l) && !l.StopNotified?
    ensures Quiet(s, Apply(c, s, l))
  {
    hide Deliver, Repro, StartWithoutBuffer, OnMagicInstruction;
    match l
    case TestcaseDelivered => DeliverQuiet(s);
    case ScriptRepro(bytes) => ReproQuiet(c, s, bytes);
    case ScriptStartWithoutBuffer(cpu) => ScriptQuiet(s, cpu);
    case MagicInstruction(cpu, number, index) => MagicQuiet(c, s, cpu, number, index);
    case _ =>
  }

  /** A stop whose notification sends a status. */
  predicate StatusDue(c: Config, s: State) {
    && !s.stoppedForRepro && s.cells.snapshot.Some?
    && (s.reason.None? || (!IsStartReason(s.reason.value) && Sends(c, s)))
  }

  /** A status leaves exactly at such a stop, carries that stop's outcome, and answers the testcase then in memory. */
  lemma StatusAnswersStop(c: Config, s: State, l: Label)
    requires Inv(c, s) && Enabled(s, l)
    ensures Apply(c, s, l).hist.reported == s.hist.reported +
              if l.StopNotified? && Outcome(c, s, l).Ok? && StatusDue(c, s)
              then [Verdict(s.current, ReasonExit(s.reason))] else []
  {
    if l.StopNotified? {
      hide OnSimulationStopped;
      StopEffect(c, s, l.view, l.now);
      hide StopResult, StatusDue;
      if Outcome(c, s, l).Ok? { StopReports(c, s, Outcome(c, s, l).value); }
    } else {
      hide Apply, StatusDue;
      StepQuiet(c, s, l);
    }
  }

  lemma StopReports(c: Config, s: State, s': State)
    requires StopResult(c, s, s')
    ensures s'.hist.reported == s.hist.reported +
              if StatusDue(c, s) then [Verdict(s.current, ReasonExit(s.reason))] else []
  {
    hide Finished;
    if !s.stoppedForRepro && s.reason.Some? && !IsStartReason(s.reason.value) {
      FinishedFrame(c, s.(reason := None), ReasonExit(s.reason), s');
    }
  }

  /** The outcomes of the stops of a run that sent a status, in order. */
  function StopExits(c: Config, mem: Memory, run: seq<Label>): seq<ExitKind>
    requires After(c, mem, run).Some?
  {
    if run == [] then []
    else
      var front, l := run[..|run| - 1], run[|run| - 1];
      var s := After(c, mem, front).value;
      StopExits(c, mem, front)
      + if l.StopNotified? && Outcome(c, s, l).Ok? && StatusDue(c, s) then [ReasonExit(s.reason)] else []
  }

  /** Over every run the statuses carry the outcomes of those stops. */
  lemma {:induction false} StatusesAreStopExits(c: Config, mem: Memory, run: seq<Label>)
    requires After(c, mem, run).Some?
    ensures var reported := After(c, mem, run).value.hist.reported;
            && |StopExits(c, mem, run)| == |reported|
            && forall k :: 0 <= k < |reported| ==> reported[k].exit == StopExits(c, mem, run)[k]
  {
    if run != [] {
      var front := run[..|run| - 1];
      StatusesAreStopExits(c, mem, front);
      RunKeeps(c, mem, front);
      hide Apply, Inv, StatusDue, Outcome;
      StatusAnswersStop(c, After(c, mem, front).value, run[|run| - 1]);
    }
  }

  /** So up to a reason-less stop each channel holds at most one message, and the k-th status the fuzzer receives is
      the outcome of the k-th stop, reported while the k-th testcase it sent was in memory. */
  lemma KthStatusAnswersKthTestcase(c: Config, mem: Memory, run: seq<Label>)
    requires After(c, mem, run).Some?
    requires !After(c, mem, run).value.hist.scripted && After(c, mem, run).value.hist.bareStops == 0
    ensures var s := After(c, mem, run).value;
            && |s.chan.testcases| <= 1 && |s.chan.statuses| <= 1
            && |s.hist.received| <= |s.hist.sent| && |s.hist.received| <= |StopExits(c, mem, run)|
            && forall k :: 0 <= k < |s.hist.received| ==>
                 s.hist.received[k] == Verdict(Some(s.hist.sent[k]), StopExits(c, mem, run)[k])
  {
    RunKeeps(c, mem, run);
    TokenConservation(c, mem, run);
    StatusesAreStopExits(c, mem, run);
    hide Apply, CountExits, StopExits;
    var s := After(c, mem, run).value;
    forall k | 0 <= k < |s.hist.received|
      ensures s.hist.received[k] == Verdict(Some(s.hist.sent[k]), StopExits(c, mem, run)[k])
    {
      assert s.hist.reported[k] == s.hist.received[k];
      assert s.hist.sent[k] == s.hist.taken[k];
    }
  }

  // ------------------------------------------------------- write-once cells

  lemma StopExtends(c: Config, s: State, s': State)
    requires StopResult(c, s, s')
    ensures Extends(s.cells, s'.cells)
  {
    hide Finished;
    if !s.stoppedForRepro && s.reason.Some? && !IsStartReason(s.reason.value) {
      FinishedFrame(c, s.(reason := None), ReasonExit(s.reason), s');
    }
  }

  lemma StepExtends(c: Config, s: State, l: Label)
    requires Inv(c, s) && Enabled(s, l)
    ensures Extends(s.cells, Apply(c, s, l).cells)
  {
    if l.StopNotified? {
      hide OnSimulationStopped;
      StopEffect(c, s, l.view, l.now);
      hide StopResult;
      if Outcome(c, s, l).Ok? { StopExtends(c, s, Outcome(c, s, l).value); }
    } else {
      hide Apply;
      StepQuiet(c, s, l);
    }
  }

  lemma AfterPrefix(c: Config, mem: Memory, run: seq<Label>, i: nat)
    requires i <= |run| && After(c, mem, run).Some?
    ensures After(c, mem, run[..i]).Some?
    decreases |run| - i
  {
    hide Apply;
    if i == |run| {
      assert run[..i] == run;
    } else {
      AfterPrefix(c, mem, run, i + 1);
      assert run[..i + 1][..i] == run[..i];
    }
  }

  /** Over every run, a cell once set never changes. */
  lemma {:induction false} CellsAreWriteOnce(c: Config, mem: Memory, run: seq<Label>, i: nat)
    requires i <= |run| && After(c, mem, run).Some?
    ensures After(c, mem, run[..i]).Some?
    ensures Extends(After(c, mem, run[..i]).value.cells, After(c, mem, run).value.cells)
  {
    AfterPrefix(c, mem, run, i);
    hide Apply;
    if i == |run| {
      assert run[..i] == run;
    } else {
      var front := run[..|run| - 1];
      assert front[..i] == run[..i];
      CellsAreWriteOnce(c, mem, front, i);
      RunKeeps(c, mem, front);
      StepExtends(c, After(c, mem, front).value, run[|run| - 1]);
    }
  }

  /** In every reachable state with a snapshot the cells the handlers consult are set. */
  lemma SnapshotImpliesCells(c: Config, mem: Memory, run: seq<Label>)
    requires After(c, mem, run).Some? && After(c, mem, run).value.cells.snapshot.Some?
    ensures var s := After(c, mem, run).value;
            StartProcessor(s).Some? && s.cells.tx && s.cells.rx && s.cells.shutdown && s.cells.startTime.Some?
  {
    RunKeeps(c, mem, run);
    hide Apply;
  }

  /** So a stop or a delivery can fail only for reasons outside the fuzzer: the target's memory,
      the clock, or a fuzzer thread that was told to shut down. Before the snapshot a script may
      also start twice. */
  lemma NoMissingCell(c: Config, s: State, l: Label)
    requires Inv(c, s) && Enabled(s, l) && (l.StopNotified? || l.TestcaseDelivered?)
    ensures match Outcome(c, s, l)
            case Ok(_) => true
            case Err(e) =>
              || e.Access? || e.ClockWentBackwards?
              || (e.FuzzerGone? && s.hist.bareStops + s.hist.limitStops > 0)
              || (s.cells.snapshot.None? && e == AlreadySet(StartProcessorCell))
  {
    hide CountExits, WriteStart, MagicStartInfo, ManualStart;
    match l
    case TestcaseDelivered =>
    case StopNotified(view, now) => StopNoMissing(c, s, view, now);
  }

  predicate Tolerable(s: State, e: Error) {
    || e.Access? || e.ClockWentBackwards?
    || (e.FuzzerGone? && s.chan.fuzzer.Exited?)
    || (s.cells.snapshot.None? && e == AlreadySet(StartProcessorCell))
  }

  lemma StopNoMissing(c: Config, s: State, view: CpuView, now: nat)
    requires Inv(c, s) && s.pc.Running?
    ensures var r := OnSimulationStopped(c, s, view, now); r.Err? ==> Tolerable(s, r.error)
  {
    hide CountExits, LockstepInv, ChannelInv, AccountInv, RewoundInv, TimeoutInv;
    hide OnMagicStart, OnManualStart, OnManualStartWithoutBuffer, FinishIteration;
    var s0 := s.(reason := None);
    match s.reason
    case Some(Magic(number)) =>
      if number.IsStart() { MagicStartNoMissing(s0, number, view, now); }
      else { FinishNoMissing(c, s0, ReasonExit(s.reason), now); }
    case Some(ManualStartReason(cpu, info)) => ManualStartNoMissing(s0, cpu, info, view, now);
    case Some(ManualStartWithoutBuffer(cpu)) => BufferlessNoMissing(s0, cpu, now);
    case Some(ManualStop) => FinishNoMissing(c, s0, ExitOk, now);
    case Some(Solution(kind)) => FinishNoMissing(c, s0, SolutionExit(kind), now);
    case None =>
  }

  lemma BeginNoMissing(s: State, t: Testcase, phase: Phase)
    requires StartProcessor(s).Some? && s.cells.startInfo.Some?
    ensures Begin(s, t, phase).Err? ==> Begin(s, t, phase).error.Access?
  {
    hide WriteStart;
  }

  lemma OpenNoMissing(s: State, info: Option<StartInfo>, now: nat)
    requires StartProcessor(s).Some? && s.cells.startInfo.None? && s.cells.startTime.None? && s.cells.rx
    ensures OpenLoop(s, info, now).Err? ==> OpenLoop(s, info, now).error.Access?
  {
    hide Begin;
    if info.Some? && s.repro.Some? {
      var d := s.(cells := s.cells.(startInfo := info, startTime := Some(now),
                                    snapshot := Some(Snapshot(s.sim.mem, s.sim.pending))),
                  coverageEnabled := true);
      BeginNoMissing(d, Testcase(s.repro.value, false), Starting);
    }
  }

  lemma MagicStartNoMissing(s: State, number: MagicNumber, view: CpuView, now: nat)
    requires CellsInv(s) && number.IsStart() && s.cells.startProcessor.Some?
    ensures var r := OnMagicStart(s, number, view, now); r.Err? ==> r.error.Access?
  {
    hide OpenLoop, MagicStartInfo;
    var s1 := StartFuzzerThread(s).value;
    var info := MagicStartInfo(number, view, s1.sim.mem);
    if s.cells.snapshot.None? && info.Ok? {
      OpenNoMissing(s1, Some(info.value), now);
    }
  }

  lemma ManualStartNoMissing(s: State, cpu: Cpu, info: ManualStartInfo, view: CpuView, now: nat)
    requires CellsInv(s)
    ensures var r := OnManualStart(s, cpu, info, view, now); r.Err? ==> Tolerable(s, r.error)
  {
    hide OpenLoop, ManualStart;
    var s1 := StartFuzzerThread(s).value;
    var r2 := AddProcessor(s1, cpu, true);
    if s.cells.snapshot.None? && r2.Ok? {
      var start := ManualStart(view, r2.value.sim.mem, info);
      if start.Ok? {
        OpenNoMissing(r2.value, Some(start.value), now);
      }
    }
  }

  lemma BufferlessNoMissing(s: State, cpu: Cpu, now: nat)
    requires CellsInv(s)
    ensures var r := OnManualStartWithoutBuffer(s, cpu, now); r.Err? ==> Tolerable(s, r.error)
  {
    hide OpenLoop;
    var r2 := AddProcessor(StartFuzzerThread(s).value, cpu, true);
    if s.cells.snapshot.None? && r2.Ok? {
      OpenNoMissing(r2.value, None, now);
    }
  }

  lemma FinishNoMissing(c: Config, s: State, exit: ExitKind, now: nat)
    requires CellsInv(s)
    ensures var r := FinishIteration(c, s, exit, now); r.Err? ==> Tolerable(s, r.error)
  {
    hide Report;
    if s.cells.snapshot.Some? {
      ReportNoMissing(c, Counted(s), exit);
    }
  }

  lemma ReportNoMissing(c: Config, s: State, exit: ExitKind)
    requires CellsInv(s) && s.cells.snapshot.Some?
    ensures var r := Report(c, s, exit); r.Err? ==> r.error.Access? || (r.error.FuzzerGone? && s.chan.fuzzer.Exited?)
  {
    hide Begin, Rewind;
    RewindKeepsCells(c, s, exit);
    if Rewind(c, s, exit).Ok? && s.repro.Some? && s.cells.startInfo.Some? {
      BeginNoMissing(Rewind(c, s, exit).value, Testcase(s.repro.value, false), Restarting);
    }
  }

  lemma RewindKeepsCells(c: Config, s: State, exit: ExitKind)
    requires CellsInv(s) && s.cells.snapshot.Some?
    ensures match Rewind(c, s, exit)
            case Ok(d) => d.cells == s.cells && d.repro == s.repro
            case Err(e) => e.FuzzerGone? && s.chan.fuzzer.Exited?
  {
  }
}
