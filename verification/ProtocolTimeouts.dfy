/** What becomes of a timeout that fires: over every run, from the step that fires it to the next stop notification. */
module ProtocolTimeouts {
  import opened Base
  import opened PhysicalMemory
  import opened Injection
  import opened Protocol
  import opened ProtocolSafety
  import opened ProtocolTheorems
  import opened ProtocolIterations

  predicate NoStops(run: seq<Label>, i: nat) {
    forall j :: i <= j < |run| ==> !run[j].StopNotified?
  }

  predicate NoRepro(run: seq<Label>, i: nat) {
    forall j :: i <= j < |run| ==> !run[j].ScriptRepro?
  }

  /** The last stop reason recorded by the steps of a run from `i` on. */
  function LastRecorded(c: Config, mem: Memory, run: seq<Label>, i: nat): Option<StopReason>
    requires i <= |run| && After(c, mem, run).Some?
  {
    if i == |run| then None
    else
      var front, l := run[..|run| - 1], run[|run| - 1];
      var r := Records(c, After(c, mem, front).value, l);
      if r.Some? then r else LastRecorded(c, mem, front, i)
  }

  lemma PanickedStays(c: Config, s: State, l: Label)
    requires Enabled(s, l) && s.pc.Panicked?
    ensures Apply(c, s, l).pc.Panicked?
  {
  }

  /** What a stretch without stop notifications leaves alone, and the reason it leaves behind. */
  predicate Stretch(s: State, s': State, recorded: Option<StopReason>, quiet: bool) {
    && s'.bookmark == s.bookmark && s'.stoppedForRepro == s.stoppedForRepro
    && s'.counters == s.counters && s'.hist.reported == s.hist.reported
    && s'.cells.snapshot == s.cells.snapshot
    && s'.reason == (if recorded.Some? then recorded else s.reason)
    && (!Blocked(s) ==> !Blocked(s'))
    && (!Blocked(s) && quiet ==> s'.sim.pending <= s.sim.pending)
  }

  lemma StretchStep(c: Config, s: State, s1: State, l: Label, recorded: Option<StopReason>, quiet: bool)
    requires Enabled(s1, l) && Stretch(s, s1, recorded, quiet) && (quiet ==> !l.ScriptRepro?)
    requires Between(c, s1, l, Apply(c, s1, l)) && Quiet(s1, Apply(c, s1, l))
    ensures Stretch(s, Apply(c, s1, l), if Records(c, s1, l).Some? then Records(c, s1, l) else recorded, quiet)
  {
    hide Apply, Records, Extends;
  }

  lemma {:induction false} Stretches(c: Config, mem: Memory, run: seq<Label>, i: nat, quiet: bool)
    requires i <= |run| && After(c, mem, run).Some? && NoStops(run, i) && (quiet ==> NoRepro(run, i))
    requires !After(c, mem, run).value.pc.Panicked?
    ensures After(c, mem, run[..i]).Some?
    ensures Stretch(After(c, mem, run[..i]).value, After(c, mem, run).value, LastRecorded(c, mem, run, i), quiet)
    decreases |run|
  {
    AfterPrefix(c, mem, run, i);
    if i == |run| {
      assert run[..i] == run;
    } else {
      var front, l := run[..|run| - 1], run[|run| - 1];
      var s1 := After(c, mem, front).value;
      hide Apply, Inv, Stretch, Between, Quiet;
      if s1.pc.Panicked? {
        PanickedStays(c, s1, l);
      }
      Stretches(c, mem, front, i, quiet);
      assert front[..i] == run[..i];
      RunKeeps(c, mem, front);
      StepBetween(c, s1, l);
      StepQuiet(c, s1, l);
      StretchStep(c, After(c, mem, run[..i]).value, s1, l, LastRecorded(c, mem, front, i), quiet);
    }
  }

  /** A run that fires a timeout at step `i` and next handles a stop at its last step. */
  predicate FiresAndStops(c: Config, mem: Memory, run: seq<Label>, i: nat) {
    && i < |run| - 1 && run[i].TimeoutFires? && run[|run| - 1].StopNotified?
    && NoStops(run[..|run| - 1], i)
    && After(c, mem, run).Some? && !After(c, mem, run).value.pc.Panicked?
  }

  lemma Prefixes(c: Config, mem: Memory, run: seq<Label>, i: nat)
    requires FiresAndStops(c, mem, run, i)
    ensures After(c, mem, run[..|run| - 1]).Some? && After(c, mem, run[..i]).Some?
    ensures run[..|run| - 1][..i] == run[..i]
  {
    AfterPrefix(c, mem, run, i);
    AfterPrefix(c, mem, run, |run| - 1);
  }

  /** The reason the stop finds was recorded at or after the timeout. */
  lemma SomethingRecorded(c: Config, mem: Memory, run: seq<Label>, i: nat)
    requires i < |run| && After(c, mem, run).Some? && run[i].TimeoutFires?
    ensures LastRecorded(c, mem, run, i).Some?
    decreases |run|
  {
    hide Apply;
    if |run| > i + 1 {
      SomethingRecorded(c, mem, run[..|run| - 1], i);
    }
  }

  /** One stop notification with a reason, a snapshot, no bookmark and the limit not reached. */
  lemma StopWithReason(c: Config, s: State, l: Label)
    requires Inv(c, s) && Enabled(s, l) && l.StopNotified? && Outcome(c, s, l).Ok?
    requires s.reason.Some? && s.cells.snapshot.Some? && !s.stoppedForRepro && Sends(c, s)
    ensures var s', start := Apply(c, s, l), IsStartReason(s.reason.value);
            && s'.hist.reported == s.hist.reported + (if start then [] else [Verdict(s.current, ReasonExit(s.reason))])
            && (start ==> s'.pc.Running? && s'.sim == s.sim && s'.current == s.current)
            && (!start && s'.pc.Running? ==> s'.sim.pending == 1)
  {
    StatusAnswersStop(c, s, l);
    StopEffect(c, s, l.view, l.now);
    hide OnSimulationStopped, CountExits, Inv, Finished;
    var s', s0 := Apply(c, s, l), s.(reason := None);
    if !IsStartReason(s.reason.value) {
      FinishedResumes(c, s0, ReasonExit(s.reason), s');
    }
  }

  lemma FinishedResumes(c: Config, s: State, exit: ExitKind, s': State)
    requires Finished(c, s, exit, s') && Sends(c, s)
    ensures s'.pc.Running? ==> s'.sim.pending == 1
  {
  }

  lemma TimeoutExit(r: StopReason)
    ensures !IsStartReason(r) ==> (ReasonExit(Some(r)) == ExitTimeout <==> r == Solution(Timeout))
  {
  }

  /** A fired timeout is reported as one if and only if no step before the stop recorded another reason last; it is
      dropped without any status if and only if a start was recorded last, and then the iteration goes on. */
  lemma TimeoutReportedIff(c: Config, mem: Memory, run: seq<Label>, i: nat)
    requires FiresAndStops(c, mem, run, i) && After(c, mem, run[..i]).Some? && After(c, mem, run[..|run| - 1]).Some?
    requires var s := After(c, mem, run[..i]).value;
             !s.bookmark && !s.stoppedForRepro && !LimitReached(c, s.counters.iterations + 1)
    ensures var s, s1, s' := After(c, mem, run[..i]).value, After(c, mem, run[..|run| - 1]).value,
                             After(c, mem, run).value;
            var r := LastRecorded(c, mem, run[..|run| - 1], i);
            && r.Some?
            && (s'.hist.reported == s.hist.reported + [Verdict(s1.current, ExitTimeout)] <==> r.value == Solution(Timeout))
            && (s'.hist.reported == s.hist.reported <==> IsStartReason(r.value))
            && (IsStartReason(r.value) ==> s'.pc.Running? && s'.current == s1.current && s'.sim == s1.sim)
  {
    hide Inv, After, LastRecorded, NoStops, Apply, Outcome, Sends, StopResult;
    LastStep(c, mem, run, i);
    AtStop(c, mem, run, i);
    var s1 := After(c, mem, run[..|run| - 1]).value;
    StopWithReason(c, s1, run[|run| - 1]);
    TimeoutExit(s1.reason.value);
    AppendedIff(s1.hist.reported, Verdict(s1.current, ReasonExit(s1.reason)), Verdict(s1.current, ExitTimeout));
  }

  lemma AppendedIff(vs: seq<Verdict>, v: Verdict, w: Verdict)
    ensures vs + [v] == vs + [w] <==> v == w
    ensures vs + [v] != vs && vs + [w] != vs
  {
    assert (vs + [v])[|vs|] == v && (vs + [w])[|vs|] == w;
  }

  /** The last step of such a run. */
  lemma LastStep(c: Config, mem: Memory, run: seq<Label>, i: nat)
    requires FiresAndStops(c, mem, run, i) && After(c, mem, run[..|run| - 1]).Some?
    ensures var s1, l := After(c, mem, run[..|run| - 1]).value, run[|run| - 1];
            && Inv(c, s1) && s1.pc.Running? && l.StopNotified? && Enabled(s1, l) && Outcome(c, s1, l).Ok?
            && After(c, mem, run) == Some(Apply(c, s1, l))
  {
    RunKeeps(c, mem, run[..|run| - 1]);
    hide Inv, Outcome;
  }

  /** The state the stop finds. */
  lemma AtStop(c: Config, mem: Memory, run: seq<Label>, i: nat)
    requires FiresAndStops(c, mem, run, i) && After(c, mem, run[..i]).Some? && After(c, mem, run[..|run| - 1]).Some?
    requires var s := After(c, mem, run[..i]).value;
             !s.bookmark && !s.stoppedForRepro && !LimitReached(c, s.counters.iterations + 1)
    ensures var s, s1 := After(c, mem, run[..i]).value, After(c, mem, run[..|run| - 1]).value;
            && s1.reason == LastRecorded(c, mem, run[..|run| - 1], i) && s1.reason.Some?
            && s1.cells.snapshot.Some? && !s1.stoppedForRepro && Sends(c, s1)
            && s1.hist.reported == s.hist.reported
  {
    hide Stretch, After, LastRecorded, Inv, NoStops;
    StretchToStop(c, mem, run, i);
    StretchFacts(After(c, mem, run[..i]).value, After(c, mem, run[..|run| - 1]).value,
                 LastRecorded(c, mem, run[..|run| - 1], i), false);
  }

  lemma StretchToStop(c: Config, mem: Memory, run: seq<Label>, i: nat)
    requires FiresAndStops(c, mem, run, i) && After(c, mem, run[..i]).Some? && After(c, mem, run[..|run| - 1]).Some?
    ensures var s, s1 := After(c, mem, run[..i]).value, After(c, mem, run[..|run| - 1]).value;
            var recorded := LastRecorded(c, mem, run[..|run| - 1], i);
            recorded.Some? && s.cells.snapshot.Some? && Stretch(s, s1, recorded, false)
  {
    hide Stretch, Apply, Inv;
    Prefixes(c, mem, run, i);
    BeforeStop(c, mem, run, i);
    hide After, LastRecorded;
    FiredHasSnapshot(c, mem, run, i);
    Stretches(c, mem, run[..|run| - 1], i, false);
    SomethingRecorded(c, mem, run[..|run| - 1], i);
  }

  lemma StretchFacts(s: State, s1: State, recorded: Option<StopReason>, quiet: bool)
    requires Stretch(s, s1, recorded, quiet) && recorded.Some?
    ensures s1.bookmark == s.bookmark && s1.stoppedForRepro == s.stoppedForRepro && s1.reason == recorded
    ensures s1.counters == s.counters && s1.hist.reported == s.hist.reported && s1.cells.snapshot == s.cells.snapshot
    ensures !Blocked(s) && quiet ==> s1.sim.pending <= s.sim.pending
  {
  }

  lemma BeforeStop(c: Config, mem: Memory, run: seq<Label>, i: nat)
    requires FiresAndStops(c, mem, run, i) && After(c, mem, run[..|run| - 1]).Some?
    ensures After(c, mem, run[..|run| - 1]).value.pc.Running?
  {
  }

  lemma FiredHasSnapshot(c: Config, mem: Memory, run: seq<Label>, i: nat)
    requires FiresAndStops(c, mem, run, i) && After(c, mem, run[..i]).Some?
    ensures var s := After(c, mem, run[..i]).value; s.pc.Running? && s.sim.pending > 0 && s.cells.snapshot.Some?
  {
    AfterPrefix(c, mem, run, i + 1);
    assert run[..i + 1][..i] == run[..i];
    RunKeeps(c, mem, run[..i]);
    hide Apply, CountExits;
  }

  /** With a single timeout pending and no repro request in between, the simulation is left running with no timeout at
      all exactly when a start was recorded last. */
  lemma RunsOnWithoutTimeoutIff(c: Config, mem: Memory, run: seq<Label>, i: nat)
    requires FiresAndStops(c, mem, run, i) && After(c, mem, run[..i]).Some? && After(c, mem, run[..|run| - 1]).Some?
    requires NoRepro(run, i)
    requires var s := After(c, mem, run[..i]).value;
             s.sim.pending == 1 && !s.bookmark && !s.stoppedForRepro && !LimitReached(c, s.counters.iterations + 1)
    ensures LastRecorded(c, mem, run[..|run| - 1], i).Some?
    ensures var s' := After(c, mem, run).value;
            s'.pc.Running? && s'.sim.pending == 0
            <==> IsStartReason(LastRecorded(c, mem, run[..|run| - 1], i).value)
  {
    hide Inv, After, LastRecorded, NoStops, Apply, Outcome, Sends, StopResult, NoRepro;
    LastStep(c, mem, run, i);
    AtStop(c, mem, run, i);
    NothingPending(c, mem, run, i);
    StopWithReason(c, After(c, mem, run[..|run| - 1]).value, run[|run| - 1]);
  }

  lemma NothingPending(c: Config, mem: Memory, run: seq<Label>, i: nat)
    requires FiresAndStops(c, mem, run, i) && After(c, mem, run[..i]).Some? && After(c, mem, run[..|run| - 1]).Some?
    requires NoRepro(run, i) && After(c, mem, run[..i]).value.sim.pending == 1
    ensures After(c, mem, run[..|run| - 1]).value.sim.pending == 0
  {
    var front := run[..|run| - 1];
    var fired := run[..i + 1];
    AfterPrefix(c, mem, run, i + 1);
    assert fired[..i] == run[..i] && front[..i + 1] == fired;
    FiredHasSnapshot(c, mem, run, i);
    BeforeStop(c, mem, run, i);
    var s := After(c, mem, fired).value;
    assert s.sim.pending == 0 && s.pc.Running?;
    hide Apply, Stretch;
    Stretches(c, mem, front, i + 1, true);
    assert s.sim.pending == 0 && !Blocked(s);
    assert After(c, mem, front).value.sim.pending <= 0 by {
      StretchPending(s, After(c, mem, front).value, LastRecorded(c, mem, front, i + 1));
    }
  }

  lemma StretchPending(s: State, s1: State, recorded: Option<StopReason>)
    requires Stretch(s, s1, recorded, true) && !Blocked(s)
    ensures s1.sim.pending <= s.sim.pending
  {
  }
}
