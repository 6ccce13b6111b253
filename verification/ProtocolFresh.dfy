/** Every way an iteration begins, and exactly when it begins fresh: history independence over whole runs. */
module ProtocolFresh {
  import opened Base
  import opened PhysicalMemory
  import opened Injection
  import opened Protocol
  import opened ProtocolSafety
  import opened ProtocolTheorems
  import opened ProtocolIterations

  function ReproTestcase(s: State): Testcase
    requires s.repro.Some?
  {
    Testcase(s.repro.value, false)
  }

  /** The testcase a step puts into memory: a delivered one; in repro mode, that of the first start with a buffer or of a
      rerun after a status; or that of a repro request once an iteration has run. */
  function Begins(c: Config, s: State, l: Label): Option<Testcase>
    requires Enabled(s, l)
  {
    match l
    case TestcaseDelivered => if Blocked(s) then Some(s.chan.testcases[0]) else None
    case ScriptRepro(bytes) => if s.counters.iterations > 0 then Some(Testcase(bytes, false)) else None
    case StopNotified(_, _) =>
      if s.stoppedForRepro || s.repro.None? || s.reason.None? then None
      else if FirstStart(s) then
        (if s.reason.value.ManualStartWithoutBuffer? then None else Some(ReproTestcase(s)))
      else if !IsStartReason(s.reason.value) && Sends(c, s) && s.cells.startInfo.Some? then Some(ReproTestcase(s))
      else None
    case _ => None
  }

  predicate FirstStart(s: State) {
    s.cells.snapshot.None? && s.reason.Some? && IsStartReason(s.reason.value)
  }

  /** A repro request does not reset the previous edge location, and may find a timeout still posted. */
  predicate CleanStart(c: Config, s: State, l: Label) {
    l.ScriptRepro? ==> s.prevLoc == 0 && (c.restoreDropsEvents || s.sim.pending == 0)
  }

  // ---- first start in repro mode ----

  lemma OpenedFresh(s: State, info: StartInfo, now: nat, s': State)
    requires Opened(s, Some(info), now, s') && s.repro.Some? && s.sim.pending == 0 && s.prevLoc == 0
    ensures FreshIteration(s', ReproTestcase(s))
  {
    var d := s.(cells := s.cells.(startInfo := Some(info), startTime := Some(now),
                                  snapshot := Some(Snapshot(s.sim.mem, s.sim.pending))),
                coverageEnabled := true);
    hide Begun, FreshIteration;
    BegunIsFresh(d, ReproTestcase(s), Starting, s');
  }

  lemma OpenFresh(s: State, info: StartInfo, now: nat)
    requires OpenLoop(s, Some(info), now).Ok? && s.repro.Some? && s.sim.pending == 0 && s.prevLoc == 0
    ensures FreshIteration(OpenLoop(s, Some(info), now).value, ReproTestcase(s))
  {
    OpenEffect(s, Some(info), now);
    hide OpenLoop, Opened, FreshIteration;
    OpenedFresh(s, info, now, OpenLoop(s, Some(info), now).value);
  }

  lemma MagicFresh(s: State, number: MagicNumber, view: CpuView, now: nat)
    requires CellsInv(s) && s.cells.snapshot.None? && s.repro.Some? && s.sim.pending == 0 && s.prevLoc == 0
    requires number.IsStart() && OnMagicStart(s, number, view, now).Ok?
    ensures FreshIteration(OnMagicStart(s, number, view, now).value, ReproTestcase(s))
  {
    ThreadCells(s);
    hide OpenLoop, MagicStartInfo, StartFuzzerThread, FreshIteration, Extends;
    var s1 := StartFuzzerThread(s).value;
    OpenFresh(s1, MagicStartInfo(number, view, s1.sim.mem).value, now);
  }

  lemma ManualFresh(s: State, cpu: Cpu, info: ManualStartInfo, view: CpuView, now: nat)
    requires CellsInv(s) && s.cells.snapshot.None? && s.repro.Some? && s.sim.pending == 0 && s.prevLoc == 0
    requires OnManualStart(s, cpu, info, view, now).Ok?
    ensures FreshIteration(OnManualStart(s, cpu, info, view, now).value, ReproTestcase(s))
  {
    PreparedCells(s, cpu);
    hide OpenLoop, ManualStart, StartFuzzerThread, AddProcessor, FreshIteration, Extends;
    var s2 := AddProcessor(StartFuzzerThread(s).value, cpu, true).value;
    OpenFresh(s2, ManualStart(view, s2.sim.mem, info).value, now);
  }

  lemma FirstStartFresh(c: Config, s: State, view: CpuView, now: nat)
    requires CellsInv(s) && TimeoutInv(s) && RewoundInv(s) && FirstStart(s) && !s.stoppedForRepro && s.repro.Some?
    requires !s.reason.value.ManualStartWithoutBuffer? && OnSimulationStopped(c, s, view, now).Ok?
    ensures FreshIteration(OnSimulationStopped(c, s, view, now).value, ReproTestcase(s))
  {
    hide OnMagicStart, OnManualStart, FreshIteration;
    var s0 := s.(reason := None);
    match s.reason.value
    case Magic(number) => MagicFresh(s0, number, view, now);
    case ManualStartReason(cpu, info) => ManualFresh(s0, cpu, info, view, now);
  }

  // ---- rerun and request ----

  lemma RerunFresh(c: Config, s: State, view: CpuView, now: nat)
    requires CellsInv(s) && TimeoutInv(s) && s.repro.Some? && !s.stoppedForRepro && s.cells.startInfo.Some?
    requires s.reason.Some? && !IsStartReason(s.reason.value) && Sends(c, s)
    requires OnSimulationStopped(c, s, view, now).Ok?
    ensures FreshIteration(OnSimulationStopped(c, s, view, now).value, ReproTestcase(s))
  {
    StopEffect(c, s, view, now);
    hide OnSimulationStopped, Finished, FreshIteration;
    FinishedRepro(c, s.(reason := None), ReasonExit(s.reason), OnSimulationStopped(c, s, view, now).value);
  }

  /** A repro request puts its testcase into snapshot memory; the start is fresh exactly when it is clean. */
  lemma ReproFreshIff(c: Config, s: State, bytes: Buffer)
    requires CellsInv(s) && TimeoutInv(s) && s.counters.iterations > 0 && Repro(c, s, bytes).Ok?
    ensures var s', t := Repro(c, s, bytes).value, Testcase(bytes, false);
            && InjectedIteration(s', t)
            && (FreshIteration(s', t) <==> s.prevLoc == 0 && (c.restoreDropsEvents || s.sim.pending == 0))
  {
    var s1 := s.(repro := Some(bytes), hist := s.hist.(scripted := true));
    var s2, t := Restore(c, s1).value, Testcase(bytes, false);
    BeginEffect(s2, t, Restarting);
    hide Begin, Begun, InjectedIteration;
    BegunIsInjected(s2, t, Restarting, Repro(c, s, bytes).value);
  }

  // ---- every step ----

  lemma StopFresh(c: Config, s: State, l: Label)
    requires Inv(c, s) && Enabled(s, l) && l.StopNotified? && Outcome(c, s, l).Ok? && Begins(c, s, l).Some?
    ensures FreshIteration(Outcome(c, s, l).value, Begins(c, s, l).value)
  {
    InvParts(c, s);
    hide OnSimulationStopped, FreshIteration, Inv, CellsInv, TimeoutInv, RewoundInv;
    if FirstStart(s) {
      FirstStartFresh(c, s, l.view, l.now);
    } else {
      RerunFresh(c, s, l.view, l.now);
    }
  }

  /** Whatever begins an iteration, memory is the snapshot overlaid with the testcase and its size; the whole start state
      is the fresh one if and only if the start is clean. */
  lemma StepFreshIff(c: Config, s: State, l: Label)
    requires Inv(c, s) && Enabled(s, l) && Outcome(c, s, l).Ok? && Begins(c, s, l).Some?
    ensures var s', t := Apply(c, s, l), Begins(c, s, l).value;
            InjectedIteration(s', t) && (FreshIteration(s', t) <==> CleanStart(c, s, l))
  {
    InvParts(c, s);
    hide OnSimulationStopped, Deliver, Repro, InjectedIteration, Inv, CellsInv, TimeoutInv, RewoundInv;
    match l
    case TestcaseDelivered =>
      DeliveryStartsFresh(c, s);
      DeliveryRuns(s);
    case ScriptRepro(bytes) => ReproFreshIff(c, s, bytes);
    case StopNotified(_, _) => StopFresh(c, s, l);
  }

  lemma DeliveryRuns(s: State)
    requires s.pc.Await? && !s.pc.phase.Script? && s.chan.testcases != []
    ensures Deliver(s).Ok? ==> Deliver(s).value.pc.Running?
  {
    hide Write, Post;
  }

  // ---- no other step begins one ----

  lemma StartedCurrent(s: State, info: Option<StartInfo>, now: nat)
    requires info.None? || s.repro.None?
    ensures var r := OpenLoop(s, info, now); r.Ok? ==> r.value.current == s.current
  {
    OpenEffect(s, info, now);
    hide OpenLoop;
  }

  lemma FirstStartCurrent(c: Config, s: State, view: CpuView, now: nat)
    requires CellsInv(s) && FirstStart(s) && !s.stoppedForRepro
    requires s.repro.None? || s.reason.value.ManualStartWithoutBuffer?
    requires OnSimulationStopped(c, s, view, now).Ok?
    ensures OnSimulationStopped(c, s, view, now).value.current == s.current
  {
    var s0 := s.(reason := None);
    ThreadCells(s0);
    hide OpenLoop, MagicStartInfo, ManualStart, Extends, StartFuzzerThread, AddProcessor;
    var s1 := StartFuzzerThread(s0).value;
    match s.reason.value
    case Magic(number) => StartedCurrent(s1, Some(MagicStartInfo(number, view, s1.sim.mem).value), now);
    case ManualStartReason(cpu, info) =>
      PreparedCells(s0, cpu);
      var s2 := AddProcessor(s1, cpu, true).value;
      StartedCurrent(s2, Some(ManualStart(view, s2.sim.mem, info).value), now);
    case ManualStartWithoutBuffer(cpu) =>
      PreparedCells(s0, cpu);
      StartedCurrent(AddProcessor(s1, cpu, true).value, None, now);
  }

  lemma ReportedCurrent(d: State, s': State)
    requires Reported(d, s') && (d.repro.None? || d.cells.startInfo.None?)
    ensures s'.current == d.current
  {
  }

  lemma FinishedCurrent(c: Config, s: State, exit: ExitKind, s': State)
    requires Finished(c, s, exit, s') && (s.repro.None? || s.cells.startInfo.None? || !Sends(c, s))
    ensures s'.current == s.current || s'.current.None?
  {
    hide Reported;
    if Sends(c, s) {
      ReportedCurrent(Sent(Counted(s), exit), s');
    }
  }

  lemma StopCurrent(c: Config, s: State, l: Label)
    requires Inv(c, s) && Enabled(s, l) && l.StopNotified? && Outcome(c, s, l).Ok? && Begins(c, s, l).None?
    ensures Outcome(c, s, l).value.current == s.current || Outcome(c, s, l).value.current.None?
  {
    InvParts(c, s);
    StopEffect(c, s, l.view, l.now);
    hide OnSimulationStopped, Finished, Inv, CellsInv, TimeoutInv, RewoundInv, Extends;
    var s0, s' := s.(reason := None), Outcome(c, s, l).value;
    if !s.stoppedForRepro && FirstStart(s) {
      FirstStartCurrent(c, s, l.view, l.now);
    } else if !s.stoppedForRepro && s.reason.Some? && !IsStartReason(s.reason.value) {
      FinishedCurrent(c, s0, ReasonExit(s.reason), s');
    }
  }

  lemma ScriptCurrent(s: State, cpu: Cpu)
    ensures var r := StartWithoutBuffer(s, cpu); r.Ok? ==> r.value.current == s.current
  {
  }

  lemma MagicCurrent(c: Config, s: State, cpu: Cpu, number: MagicNumber, index: nat)
    ensures OnMagicInstruction(c, s, cpu, number, index).current == s.current
  {
    hide MagicAccepted;
  }

  lemma OtherCurrent(c: Config, s: State, l: Label)
    requires Enabled(s, l) && !l.StopNotified? && Outcome(c, s, l).Ok? && Begins(c, s, l).None?
    ensures Outcome(c, s, l).value.current == s.current
  {
    hide Begin, StartWithoutBuffer, OnMagicInstruction;
    match l
    case ScriptStartWithoutBuffer(cpu) => ScriptCurrent(s, cpu);
    case MagicInstruction(cpu, number, index) => MagicCurrent(c, s, cpu, number, index);
    case _ =>
  }

  /** A step that is not listed never changes the testcase in memory; it can at most end it. */
  lemma OnlyTheseBegin(c: Config, s: State, l: Label)
    requires Inv(c, s) && Enabled(s, l) && Begins(c, s, l).None?
    ensures Apply(c, s, l).current == s.current || Apply(c, s, l).current.None?
  {
    hide Outcome, Inv, Begins;
    if Outcome(c, s, l).Ok? {
      if l.StopNotified? {
        StopCurrent(c, s, l);
      } else {
        OtherCurrent(c, s, l);
      }
    }
  }

  // ---- over runs ----

  /** A run whose last step has begun an iteration on testcase `t`. */
  predicate StartsIteration(c: Config, mem: Memory, run: seq<Label>, t: Testcase) {
    && run != [] && After(c, mem, run).Some?
    && (var s, l := After(c, mem, run[..|run| - 1]).value, run[|run| - 1];
        Outcome(c, s, l).Ok? && Begins(c, s, l) == Some(t))
  }

  /** That step was not a repro request with a stale location or a posted timeout. */
  predicate StartsClean(c: Config, mem: Memory, run: seq<Label>)
    requires run != [] && After(c, mem, run).Some?
  {
    CleanStart(c, After(c, mem, run[..|run| - 1]).value, run[|run| - 1])
  }

  lemma IterationIsFresh(c: Config, mem: Memory, run: seq<Label>, t: Testcase)
    requires StartsIteration(c, mem, run, t)
    ensures InjectedIteration(After(c, mem, run).value, t)
    ensures FreshIteration(After(c, mem, run).value, t) <==> StartsClean(c, mem, run)
  {
    RunKeeps(c, mem, run[..|run| - 1]);
    hide Inv, Outcome, Apply, InjectedIteration, FreshIteration, CleanStart, Begins;
    StepFreshIff(c, After(c, mem, run[..|run| - 1]).value, run[|run| - 1]);
  }

  /** History independence. Two iterations of the same testcase, in one run or in two, under any configurations and after
      any earlier iterations, start from the same memory whenever they share the snapshot, the start information and the
      processor; and from the same whole simulator state when both starts are clean. */
  lemma HistoryIndependence(c1: Config, mem1: Memory, run1: seq<Label>, c2: Config, mem2: Memory, run2: seq<Label>, t: Testcase)
    requires StartsIteration(c1, mem1, run1, t) && StartsIteration(c2, mem2, run2, t)
    requires var s1, s2 := After(c1, mem1, run1).value, After(c2, mem2, run2).value;
             && s1.cells.snapshot == s2.cells.snapshot && s1.cells.startInfo == s2.cells.startInfo
             && StartProcessor(s1) == StartProcessor(s2)
    ensures var s1, s2 := After(c1, mem1, run1).value, After(c2, mem2, run2).value;
            && s1.sim.mem == s2.sim.mem && s1.cmplogEnabled == s2.cmplogEnabled
            && (StartsClean(c1, mem1, run1) && StartsClean(c2, mem2, run2) ==>
                  s1.sim == s2.sim && s1.prevLoc == s2.prevLoc)
  {
    IterationIsFresh(c1, mem1, run1, t);
    IterationIsFresh(c2, mem2, run2, t);
    hide After, Injected, Injectable, Outcome, StartsClean, Begins, StartProcessor;
  }

  /** Within one run the sharing is automatic, because the cells are write-once. */
  lemma SameRunIndependence(c: Config, mem: Memory, run: seq<Label>, i: nat, t: Testcase)
    requires i <= |run| && StartsIteration(c, mem, run, t) && StartsIteration(c, mem, run[..i], t)
    ensures var s, s' := After(c, mem, run[..i]).value, After(c, mem, run).value;
            && s.sim.mem == s'.sim.mem
            && (StartsClean(c, mem, run[..i]) && StartsClean(c, mem, run) ==> s.sim == s'.sim && s.prevLoc == s'.prevLoc)
  {
    CellsAreWriteOnce(c, mem, run, i);
    IterationIsFresh(c, mem, run[..i], t);
    SharedCells(After(c, mem, run[..i]).value, After(c, mem, run).value, t);
    HistoryIndependence(c, mem, run[..i], c, mem, run, t);
    hide After, StartsClean, StartsIteration;
  }

  lemma SharedCells(s: State, s': State, t: Testcase)
    requires Extends(s.cells, s'.cells) && InjectedIteration(s, t)
    ensures s.cells.snapshot == s'.cells.snapshot && s.cells.startInfo == s'.cells.startInfo
    ensures StartProcessor(s) == StartProcessor(s')
  {
    hide Injected, Injectable;
  }

  // ---- timeouts at a resume ----

  /** A handler that resumes the simulation on a new testcase: a delivery, the first start, or the end of an iteration. */
  predicate NewTestcase(c: Config, s: State, l: Label) {
    || l.TestcaseDelivered?
    || (l.StopNotified? && (FirstStart(s) || (s.reason.Some? && !IsStartReason(s.reason.value) && Sends(c, s))))
  }

  /** Whenever a handler resumes on a new testcase, with or without a buffer, in repro mode or not, exactly one timeout is
      pending; when it resumes on the old one, memory and timeouts are untouched. */
  lemma ResumesWithOneTimeout(c: Config, s: State, l: Label)
    requires Inv(c, s) && Enabled(s, l) && Outcome(c, s, l).Ok?
    requires l.StopNotified? || (l.TestcaseDelivered? && Blocked(s))
    ensures var s' := Apply(c, s, l);
            s'.pc.Running? ==> if NewTestcase(c, s, l) then s'.sim.pending == 1 else s'.sim == s.sim
  {
    if l.TestcaseDelivered? {
      DeliveryStartsFresh(c, s);
      hide Apply, Inv, InjectedIteration;
    } else {
      StopResumes(c, s, l);
    }
  }

  lemma StopResumes(c: Config, s: State, l: Label)
    requires Inv(c, s) && Enabled(s, l) && Outcome(c, s, l).Ok? && l.StopNotified?
    ensures var s' := Outcome(c, s, l).value;
            s'.pc.Running? ==> if NewTestcase(c, s, l) then s'.sim.pending == 1 else s'.sim == s.sim
  {
    InvParts(c, s);
    StopEffect(c, s, l.view, l.now);
    hide OnSimulationStopped, Finished, Inv, CellsInv, RewoundInv, Extends;
    var s0, s' := s.(reason := None), Outcome(c, s, l).value;
    if s'.pc.Running? && !s.stoppedForRepro && s.reason.Some? && !IsStartReason(s.reason.value) {
      FinishedTimeouts(c, s0, ReasonExit(s.reason), s');
    }
  }

  lemma FinishedTimeouts(c: Config, s: State, exit: ExitKind, s': State)
    requires Finished(c, s, exit, s') && s'.pc.Running?
    ensures if Sends(c, s) then s'.sim.pending == 1 else s'.sim == s.sim
  {
  }

  // ---- what it takes to begin at all ----

  predicate ScriptedStart(l: Label) {
    l.ScriptStart? || l.ScriptStartWithoutBuffer?
  }

  /** A start instruction of the configured harness index, with harness starts switched on. */
  predicate HarnessStart(c: Config, l: Label) {
    l.MagicInstruction? && l.number.IsStart() && c.startOnHarness && l.index == c.startIndex
  }

  /** A snapshot exists, or a start has been asked for. */
  predicate UnderWay(s: State) {
    s.cells.snapshot.Some? || (s.reason.Some? && IsStartReason(s.reason.value)) || (s.pc.Await? && s.pc.phase.Script?)
  }

  lemma StopNotUnderWay(c: Config, s: State, s': State)
    requires StopResult(c, s, s') && !UnderWay(s)
    ensures !UnderWay(s')
  {
  }

  lemma ScriptPhase(c: Config, s: State, l: Label)
    requires Enabled(s, l) && !l.StopNotified? && !ScriptedStart(l) && Outcome(c, s, l).Ok?
    ensures var pc := Outcome(c, s, l).value.pc; pc.Await? && pc.phase.Script? ==> pc == s.pc
  {
    hide Begin, OnMagicInstruction;
    match l
    case TestcaseDelivered => DeliveryEnds(s);
    case ScriptRepro(bytes) => ReproRuns(c, s, bytes);
    case MagicInstruction(cpu, number, index) => MagicPc(c, s, cpu, number, index);
    case _ =>
  }

  lemma DeliveryEnds(s: State)
    requires s.pc.Await? && s.chan.testcases != []
    ensures Deliver(s).Ok? ==> !Deliver(s).value.pc.Await?
  {
    hide Write, Post;
  }

  lemma ReproRuns(c: Config, s: State, bytes: Buffer)
    ensures var r := Repro(c, s, bytes); r.Ok? ==> r.value.pc == s.pc || r.value.pc.Running?
  {
    hide Write, Post;
  }

  lemma MagicPc(c: Config, s: State, cpu: Cpu, number: MagicNumber, index: nat)
    ensures OnMagicInstruction(c, s, cpu, number, index).pc == s.pc
  {
    hide MagicAccepted;
  }

  lemma StepNotUnderWay(c: Config, s: State, l: Label)
    requires Inv(c, s) && Enabled(s, l) && !UnderWay(s) && !ScriptedStart(l) && !HarnessStart(c, l)
    ensures !UnderWay(Apply(c, s, l))
  {
    if Outcome(c, s, l).Err? {
      hide Outcome;
    } else if l.StopNotified? {
      InvParts(c, s);
      StopEffect(c, s, l.view, l.now);
      hide OnSimulationStopped, StopResult, UnderWay, Inv;
      StopNotUnderWay(c, s, Apply(c, s, l));
    } else {
      InvParts(c, s);
      OutcomeBetween(c, s, l);
      StepQuiet(c, s, l);
      ScriptPhase(c, s, l);
      hide Outcome, Inv, Extends, CellsInv, TimeoutInv, RewoundInv;
    }
  }

  /** In a run without scripted starts, a snapshot exists only after a start instruction of the configured index. */
  lemma {:induction false} SnapshotNeedsHarness(c: Config, mem: Memory, run: seq<Label>)
    requires After(c, mem, run).Some? && UnderWay(After(c, mem, run).value)
    requires forall k :: 0 <= k < |run| ==> !ScriptedStart(run[k])
    ensures exists k :: 0 <= k < |run| && HarnessStart(c, run[k])
  {
    hide Inv, Apply, UnderWay;
    if run == [] {
      assert UnderWay(Init(mem));
      NothingUnderWay(mem);
    } else {
      var front, l := run[..|run| - 1], run[|run| - 1];
      RunKeeps(c, mem, front);
      if !HarnessStart(c, l) {
        if !UnderWay(After(c, mem, front).value) {
          StepNotUnderWay(c, After(c, mem, front).value, l);
        }
        SnapshotNeedsHarness(c, mem, front);
        var k :| 0 <= k < |front| && HarnessStart(c, front[k]);
        assert run[k] == front[k];
      }
    }
  }

  lemma NothingUnderWay(mem: Memory)
    ensures !UnderWay(Init(mem))
  {
  }
}
