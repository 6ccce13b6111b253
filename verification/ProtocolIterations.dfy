/** Single iterations and the exceptional ways to leave the loop: history independence,
    timeouts, accounting, the iteration limit and repro mode. */
module ProtocolIterations {
  import opened Base
  import opened PhysicalMemory
  import opened Injection
  import opened Protocol
  import opened ProtocolSafety
  import opened ProtocolTheorems

  // ------------------------------------------------- history independence

  /** A testcase is running in memory that is the snapshot overlaid with it and its size, and nothing else. */
  predicate InjectedIteration(s: State, t: Testcase) {
    && s.cells.snapshot.Some? && s.cells.startInfo.Some? && StartProcessor(s).Some?
    && s.pc.Running? && s.current == Some(t) && s.cmplogEnabled == t.cmplog
    && Injectable(s.cells.snapshot.value.mem, t.bytes, s.cells.startInfo.value, StartProcessor(s).value.addressBytes)
    && s.sim.mem == Injected(s.cells.snapshot.value.mem, t.bytes, s.cells.startInfo.value,
                             StartProcessor(s).value.addressBytes)
  }

  /** The whole simulator state at the start of an iteration, as a function of the snapshot,
      the start information and the testcase alone. */
  predicate FreshIteration(s: State, t: Testcase) {
    InjectedIteration(s, t) && s.sim.pending == 1 && s.prevLoc == 0
  }

  lemma BegunIsInjected(s: State, t: Testcase, phase: Phase, s': State)
    requires s.cells.snapshot.Some? && s.sim.mem == s.cells.snapshot.value.mem
    requires Begun(s, t, phase, s')
    ensures InjectedIteration(s', t) && s'.sim.pending == s.sim.pending + 1 && s'.prevLoc == s.prevLoc
  {
    WriteStartIsInjected(s.sim.mem, t.bytes, s.cells.startInfo.value, StartProcessor(s).value.addressBytes);
    hide WriteStart, Injected, Injectable;
  }

  lemma BegunIsFresh(s: State, t: Testcase, phase: Phase, s': State)
    requires s.cells.snapshot.Some? && s.sim == Sim(s.cells.snapshot.value.mem, 0) && s.prevLoc == 0
    requires Begun(s, t, phase, s')
    ensures FreshIteration(s', t)
  {
    BegunIsInjected(s, t, phase, s');
    hide Begun, InjectedIteration;
  }

  /** Delivering a testcase starts a fresh iteration exactly when the testcase and its size
      land on mapped memory of the snapshot. */
  lemma DeliveryStartsFresh(c: Config, s: State)
    requires Inv(c, s) && Blocked(s) && s.chan.testcases != []
    ensures StartProcessor(s).Some? && s.cells.snapshot.Some? && s.cells.startInfo.Some?
    ensures var t := s.chan.testcases[0];
            var s' := Apply(c, s, TestcaseDelivered);
            && (s'.pc.Running? <==> Injectable(s.cells.snapshot.value.mem, t.bytes, s.cells.startInfo.value,
                                               StartProcessor(s).value.addressBytes))
            && (s'.pc.Running? ==> FreshIteration(s', t) && s'.cells == s.cells)
  {
    hide CountExits, LockstepInv, ChannelInv, AccountInv;
    var t := s.chan.testcases[0];
    BeginEffect(Take(s), t, s.pc.phase);
    WriteStartIsInjected(s.sim.mem, t.bytes, s.cells.startInfo.value, StartProcessor(s).value.addressBytes);
    if Begin(Take(s), t, s.pc.phase).Ok? {
      BegunIsFresh(Take(s), t, s.pc.phase, Begin(Take(s), t, s.pc.phase).value);
    }
    hide WriteStart, Injected, Injectable, FreshIteration, Begun;
  }

  // ------------------------------------------------- between two stops

  /** The stop reason a step records. A later one replaces an earlier one. */
  function Records(c: Config, s: State, l: Label): Option<StopReason>
    requires Enabled(s, l)
  {
    match l
    case TimeoutFires => Some(Solution(Timeout))
    case MagicInstruction(_, number, index) =>
      if number.StopNormal? then (if c.stopOnHarness && index in c.stopIndices then Some(Magic(StopNormal)) else None)
      else if number.StopAssert? then
        (if c.stopOnHarness && index in c.assertIndices then Some(Magic(StopAssert)) else None)
      else if c.startOnHarness && index == c.startIndex then Some(Magic(number)) else None
    case ExceptionRaised(v) => if c.allExceptions || v in c.exceptions then Some(Solution(Exception)) else None
    case BreakpointHit(b) => if c.allBreakpoints || b in c.breakpoints then Some(Solution(Breakpoint)) else None
    case ScriptStop => Some(ManualStop)
    case ScriptSolution => Some(Solution(Manual))
    case ScriptStart(cpu, info) => Some(ManualStartReason(cpu, info))
    case ScriptStartWithoutBuffer(cpu) => if s.repro.Some? then Some(ManualStartWithoutBuffer(cpu)) else None
    case TestcaseDelivered =>
      if s.pc.phase.Script? then Some(ManualStartWithoutBuffer(s.pc.phase.processor)) else None
    case _ => None
  }

  /** What a step other than a stop notification does to the fields a stop depends on. */
  predicate Between(c: Config, s: State, l: Label, s': State)
    requires Enabled(s, l)
  {
    && s'.bookmark == s.bookmark && s'.stoppedForRepro == s.stoppedForRepro
    && s'.reason == (if Records(c, s, l).Some? then Records(c, s, l) else s.reason)
    && (!Blocked(s) ==> !Blocked(s'))
    && (!Blocked(s) && !l.ScriptRepro? ==> s'.sim.pending <= s.sim.pending)
  }

  lemma DeliverBetween(c: Config, s: State)
    requires RewoundInv(s) && Enabled(s, TestcaseDelivered) && Deliver(s).Ok?
    ensures Between(c, s, TestcaseDelivered, Deliver(s).value)
  {
    hide Begin;
    BeginEffect(Take(s), s.chan.testcases[0], s.pc.phase);
  }

  lemma ReproBetween(c: Config, s: State, bytes: Buffer)
    requires Enabled(s, ScriptRepro(bytes)) && Repro(c, s, bytes).Ok?
    ensures Between(c, s, ScriptRepro(bytes), Repro(c, s, bytes).value)
  {
    hide Begin;
    var s1 := s.(repro := Some(bytes), hist := s.hist.(scripted := true));
    if s.counters.iterations > 0 {
      BeginEffect(Restore(c, s1).value, Testcase(bytes, false), Restarting);
    }
  }

  lemma ScriptBetween(c: Config, s: State, cpu: Cpu)
    requires Enabled(s, ScriptStartWithoutBuffer(cpu)) && StartWithoutBuffer(s, cpu).Ok?
    ensures Between(c, s, ScriptStartWithoutBuffer(cpu), StartWithoutBuffer(s, cpu).value)
  {
  }

  lemma MagicBetween(c: Config, s: State, cpu: Cpu, number: MagicNumber, index: nat)
    requires Enabled(s, MagicInstruction(cpu, number, index))
    ensures Between(c, s, MagicInstruction(cpu, number, index), OnMagicInstruction(c, s, cpu, number, index))
  {
  }

  lemma OutcomeBetween(c: Config, s: State, l: Label)
    requires RewoundInv(s) && Enabled(s, l) && !l.StopNotified? && Outcome(c, s, l).Ok?
    ensures Between(c, s, l, Outcome(c, s, l).value)
  {
    hide Deliver, Repro, StartWithoutBuffer, OnMagicInstruction, RewoundInv;
    match l
    case TestcaseDelivered => DeliverBetween(c, s);
    case ScriptRepro(bytes) => ReproBetween(c, s, bytes);
    case ScriptStartWithoutBuffer(cpu) => ScriptBetween(c, s, cpu);
    case MagicInstruction(cpu, number, index) => MagicBetween(c, s, cpu, number, index);
    case _ =>
  }

  /** A step either fails, ending the simulator thread, or does that. */
  lemma StepBetween(c: Config, s: State, l: Label)
    requires Inv(c, s) && Enabled(s, l) && !l.StopNotified?
    ensures Apply(c, s, l).pc.Panicked? || Between(c, s, l, Apply(c, s, l))
    ensures Apply(c, s, l).bookmark == s.bookmark
  {
    hide Outcome, Between;
    if Outcome(c, s, l).Ok? {
      OutcomeBetween(c, s, l);
      assert Between(c, s, l, Apply(c, s, l)) && Apply(c, s, l).bookmark == s.bookmark by {
        BetweenBookmark(c, s, l, Outcome(c, s, l).value);
      }
    }
  }

  lemma BetweenBookmark(c: Config, s: State, l: Label, s': State)
    requires Enabled(s, l) && Between(c, s, l, s')
    ensures s'.bookmark == s.bookmark
  {
  }

  // ------------------------------------------------------------- timeouts

  predicate Overlapping(c: Config, s: State, l: Label) {
    l.ScriptRepro? && s.counters.iterations > 0 && !c.restoreDropsEvents && s.sim.pending > 0
  }

  lemma StopOverlaps(c: Config, s: State, s': State)
    requires Inv(c, s) && StopResult(c, s, s')
    ensures s'.hist.overlaps == s.hist.overlaps
  {
    hide Finished, CountExits;
    if !s.stoppedForRepro && s.reason.Some? && !IsStartReason(s.reason.value) {
      FinishedFrame(c, s.(reason := None), ReasonExit(s.reason), s');
    }
  }

  lemma ReproOverlaps(c: Config, s: State, bytes: Buffer)
    requires CellsInv(s) && TimeoutInv(s) && Repro(c, s, bytes).Ok?
    ensures Repro(c, s, bytes).value.hist.overlaps == s.hist.overlaps + One(Overlapping(c, s, ScriptRepro(bytes)))
  {
    hide Begin;
    var s1 := s.(repro := Some(bytes), hist := s.hist.(scripted := true));
    if s.counters.iterations > 0 {
      BeginEffect(Restore(c, s1).value, Testcase(bytes, false), Restarting);
    }
  }

  lemma DeliverOverlaps(c: Config, s: State)
    requires Inv(c, s) && s.pc.Await? && s.chan.testcases != [] && Deliver(s).Ok?
    ensures Deliver(s).value.hist.overlaps == s.hist.overlaps
  {
    hide Begin, CountExits;
    BeginEffect(Take(s), s.chan.testcases[0], s.pc.phase);
  }

  /** A second timeout event is posted beside a pending one exactly by `repro` called while an
      iteration runs, on simulators whose restore keeps posted events. */
  lemma OverlapIff(c: Config, s: State, l: Label)
    requires Inv(c, s) && Enabled(s, l) && Outcome(c, s, l).Ok?
    ensures Apply(c, s, l).hist.overlaps == s.hist.overlaps + One(Overlapping(c, s, l))
  {
    hide OnSimulationStopped, Deliver, Repro, Overlapping, Inv;
    match l
    case StopNotified(view, now) =>
      InvParts(c, s);
      StopEffect(c, s, view, now);
      hide StopResult;
      StopOverlaps(c, s, Outcome(c, s, l).value);
      NotOverlapping(c, s, l);
    case TestcaseDelivered => DeliverOverlaps(c, s); NotOverlapping(c, s, l);
    case ScriptRepro(bytes) => InvParts(c, s); ReproOverlaps(c, s, bytes);
    case _ => NotOverlapping(c, s, l);
  }

  lemma InvParts(c: Config, s: State)
    requires Inv(c, s)
    ensures CellsInv(s) && TimeoutInv(s) && RewoundInv(s)
  {
  }

  lemma NotOverlapping(c: Config, s: State, l: Label)
    requires !l.ScriptRepro?
    ensures !Overlapping(c, s, l)
  {
  }

  /** No `repro` in the middle of an iteration, unless restoring drops events. */
  ghost predicate QuietRepro(c: Config, mem: Memory, run: seq<Label>) {
    forall k {:trigger run[k]} :: 0 <= k < |run| && After(c, mem, run[..k]).Some? ==>
      !Overlapping(c, After(c, mem, run[..k]).value, run[k])
  }

  lemma {:induction false} NoOverlaps(c: Config, mem: Memory, run: seq<Label>)
    requires After(c, mem, run).Some? && QuietRepro(c, mem, run)
    ensures After(c, mem, run).value.hist.overlaps == 0
  {
    if run != [] {
      var front := run[..|run| - 1];
      var last := run[|run| - 1];
      var s := After(c, mem, front).value;
      forall k | 0 <= k < |front| && After(c, mem, front[..k]).Some?
        ensures !Overlapping(c, After(c, mem, front[..k]).value, front[k])
      {
        assert front[..k] == run[..k] && front[k] == run[k];
      }
      NoOverlaps(c, mem, front);
      RunKeeps(c, mem, front);
      assert !Overlapping(c, s, last);
      hide Inv, Outcome, Overlapping;
      if Outcome(c, s, last).Ok? {
        OverlapIff(c, s, last);
      }
    }
  }

  /** Timeout safety over every run. */
  lemma TimeoutSafety(c: Config, mem: Memory, run: seq<Label>)
    requires After(c, mem, run).Some? && QuietRepro(c, mem, run)
    ensures var s := After(c, mem, run).value;
            && s.sim.pending <= 1
            && (s.cells.snapshot.None? || Blocked(s) ==> s.sim.pending == 0)
            && s.hist.posted == s.sim.pending + s.hist.fired + s.hist.removed
  {
    RunKeeps(c, mem, run);
    NoOverlaps(c, mem, run);
    hide Apply, CountExits;
  }

  /** A reason-less stop leaves no timeout behind and does not resume. */
  lemma BareStopClearsTimeout(c: Config, s: State, view: CpuView, now: nat)
    requires Inv(c, s) && s.pc.Running? && s.reason.None? && !s.stoppedForRepro && s.cells.snapshot.Some?
    requires OnSimulationStopped(c, s, view, now).Ok?
    ensures var s' := OnSimulationStopped(c, s, view, now).value; s'.sim.pending == 0 && s'.pc.Stopped?
  {
    BareEffect(c, s, now);
    hide OnStoppedWithoutReason, CountExits;
  }

  // ----------------------------------------------------------- accounting

  /** Statuses and counters agree over every run; with a limit L at most L-1 statuses
      are sent for reasoned stops. */
  lemma StatusAccounting(c: Config, mem: Memory, run: seq<Label>)
    requires After(c, mem, run).Some?
    ensures var s := After(c, mem, run).value;
            && s.counters.solutions == CountExits(s.hist.reported, ExitCrash)
            && s.counters.timeouts == CountExits(s.hist.reported, ExitTimeout)
            && |s.hist.reported| == s.hist.bareStops
                 + if c.iterationLimit == 0 then s.counters.iterations
                   else Min(s.counters.iterations, c.iterationLimit - 1)
  {
    RunKeeps(c, mem, run);
    hide Apply, CountExits;
  }

  /** The stop that reaches the limit is counted as an iteration but its outcome is dropped:
      no status, and neither `solutions` nor `timeouts` moves. */
  lemma LimitDropsOutcome(c: Config, s: State, exit: ExitKind, now: nat)
    requires Inv(c, s) && s.pc.Running? && s.cells.snapshot.Some? && !s.bookmark
    requires LimitReached(c, s.counters.iterations + 1) && FinishIteration(c, s, exit, now).Ok?
    ensures var s' := FinishIteration(c, s, exit, now).value;
            && s'.hist.reported == s.hist.reported
            && s'.counters == s.counters.(iterations := s.counters.iterations + 1)
            && !s'.pc.Running?
  {
    FinishEffect(c, s, exit, now);
    hide FinishIteration, CountExits;
  }

  predicate FuzzerLabel(l: Label) {
    l.FuzzerSend? || l.FuzzerReceive? || l.FuzzerShutdown?
  }

  /** After a stop at the limit the fuzzer thread can take a step, and so get to see the shutdown, if and only if
      reason-less stops have put more statuses in its way than there are testcases waiting. */
  lemma LimitStrandsFuzzerIff(c: Config, mem: Memory, run: seq<Label>)
    requires After(c, mem, run).Some?
    requires var s := After(c, mem, run).value;
             !s.hist.scripted && s.hist.limitStops > 0 && !s.chan.fuzzer.Exited?
    ensures var s := After(c, mem, run).value;
            (exists l :: FuzzerLabel(l) && Enabled(s, l)) <==> |s.chan.testcases| < s.hist.bareStops
  {
    RunKeeps(c, mem, run);
    TokenConservation(c, mem, run);
    hide After, Apply, CountExits;
    var s := After(c, mem, run).value;
    FuzzerStepsIff(s);
  }

  lemma FuzzerStepsIff(s: State)
    requires s.cells.thread && !s.chan.fuzzer.Exited?
    ensures (exists l :: FuzzerLabel(l) && Enabled(s, l)) <==> s.chan.fuzzer.InControl? || s.chan.statuses != []
  {
    if s.chan.fuzzer.InControl? {
      var l := FuzzerSend(Testcase([], false));
      assert FuzzerLabel(l) && Enabled(s, l);
    } else if s.chan.statuses != [] {
      assert FuzzerLabel(FuzzerReceive) && Enabled(s, FuzzerReceive);
    }
  }

  /** In particular, without a reason-less stop the shutdown is never seen: the fuzzer waits for a status that does not
      come. */
  lemma LimitStrandsFuzzer(c: Config, mem: Memory, run: seq<Label>, l: Label)
    requires After(c, mem, run).Some?
    requires var s := After(c, mem, run).value; !s.hist.scripted && s.hist.bareStops == 0 && s.hist.limitStops > 0
    ensures var s := After(c, mem, run).value;
            && s.chan.fuzzer.AwaitingStatus? && s.chan.testcases == [] && s.chan.statuses == []
            && (FuzzerLabel(l) ==> !Enabled(s, l))
  {
    RunKeeps(c, mem, run);
    TokenConservation(c, mem, run);
    NotExited(c, After(c, mem, run).value);
    LimitStrandsFuzzerIff(c, mem, run);
    hide After, Apply, CountExits;
  }

  lemma NotExited(c: Config, s: State)
    requires Inv(c, s) && !s.hist.scripted && s.hist.bareStops == 0 && s.hist.limitStops > 0
    ensures s.chan.fuzzer.AwaitingStatus?
  {
    hide CountExits;
  }

  // ---------------------------------------------------------------- repro

  /** What the end of an iteration does in repro mode. */
  predicate ReproEnd(c: Config, s: State, s': State)
    requires s.repro.Some? && s.cells.snapshot.Some?
  {
    && (s'.stoppedForRepro <==> s.bookmark)
    && (s.bookmark ==> s'.pc.Stopped? && s'.hist.reported == s.hist.reported)
    && (!s.bookmark && LimitReached(c, s.counters.iterations + 1) ==>
          !s'.pc.Running? && s'.hist.reported == s.hist.reported)
    && (Sends(c, s) ==>
          && |s'.hist.reported| == |s.hist.reported| + 1 && s'.pc.Running?
          && (s.cells.startInfo.Some? ==> FreshIteration(s', Testcase(s.repro.value, false)))
          && (s.cells.startInfo.None? ==> s'.sim == Sim(s.cells.snapshot.value.mem, 1)))
  }

  lemma FinishedRepro(c: Config, s: State, exit: ExitKind, s': State)
    requires s.repro.Some? && s.cells.snapshot.Some? && !s.stoppedForRepro
    requires Finished(c, s, exit, s')
    ensures ReproEnd(c, s, s')
  {
    hide FreshIteration, WriteStart;
    FinishedFrame(c, s, exit, s');
    if Sends(c, s) && s.cells.startInfo.Some? {
      BegunIsFresh(Sent(Counted(s), exit), Testcase(s.repro.value, false), Restarting, s');
    }
  }

  /** In repro mode a stop halts for inspection exactly when the bookmark is set. Otherwise it ends at the limit, or
      the same testcase is run again and a status for it goes to the fuzzer. */
  lemma ReproStopsIffBookmarked(c: Config, s: State, exit: ExitKind, now: nat)
    requires Inv(c, s) && s.repro.Some? && s.cells.snapshot.Some? && !s.stoppedForRepro
    requires FinishIteration(c, s, exit, now).Ok?
    ensures ReproEnd(c, s, FinishIteration(c, s, exit, now).value)
  {
    FinishEffect(c, s, exit, now);
    hide FinishIteration, Finished, CountExits, ReproEnd;
    FinishedRepro(c, s, exit, FinishIteration(c, s, exit, now).value);
  }

  /** Repro requested before the first start: the start handler sets the bookmark. */
  lemma ReproBeforeStartIsBookmarked(c: Config, s: State, reason: StopReason, view: CpuView, now: nat)
    requires Inv(c, s) && s.repro.Some? && IsStartReason(reason)
    requires OnStoppedWithReason(c, s, reason, view, now).Ok?
    ensures var s' := OnStoppedWithReason(c, s, reason, view, now).value; s'.bookmark && s'.pc.Running?
  {
    StartEffect(c, s, reason, view, now);
    hide OnStoppedWithReason, CountExits;
  }

  /** Repro requested after an iteration has run: the testcase starts at once and the bookmark is
      not set, so by the lemma above its first stop does not halt the simulation. */
  lemma ReproAfterIterationsIsNotBookmarked(c: Config, s: State, bytes: Buffer)
    requires Inv(c, s) && !s.hist.scripted && s.counters.iterations > 0 && (s.pc.Running? || s.pc.Stopped?)
    requires Repro(c, s, bytes).Ok?
    ensures var s' := Repro(c, s, bytes).value;
            s'.pc.Running? && s'.repro == Some(bytes) && s'.current == Some(Testcase(bytes, false)) && !s'.bookmark
  {
    hide Begin, CountExits;
    var s1 := s.(repro := Some(bytes), hist := s.hist.(scripted := true));
    BeginEffect(Restore(c, s1).value, Testcase(bytes, false), Restarting);
  }

  lemma StopBookmark(c: Config, s: State, s': State)
    requires StopResult(c, s, s')
    ensures s'.bookmark ==> s.bookmark || (s.repro.Some? && s.reason.Some? && IsStartReason(s.reason.value))
  {
    hide Finished;
    if !s.stoppedForRepro && s.reason.Some? && !IsStartReason(s.reason.value) {
      FinishedFrame(c, s.(reason := None), ReasonExit(s.reason), s');
    }
  }

  /** Nothing but a start handler running in repro mode ever sets the bookmark. */
  lemma OnlyStartsBookmark(c: Config, s: State, l: Label)
    requires Inv(c, s) && Enabled(s, l) && !s.bookmark && Apply(c, s, l).bookmark
    ensures l.StopNotified? && s.repro.Some? && s.reason.Some? && IsStartReason(s.reason.value)
  {
    if !l.StopNotified? {
      hide Inv, Apply;
      StepBetween(c, s, l);
    } else if Outcome(c, s, l).Ok? {
      hide OnSimulationStopped, StopResult;
      StopEffect(c, s, l.view, l.now);
      StopBookmark(c, s, Outcome(c, s, l).value);
    }
  }
}
