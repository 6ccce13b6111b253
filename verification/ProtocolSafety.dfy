/** What every step of the fuzzing loop keeps, and what follows for every run. */
module ProtocolSafety {
  import opened Base
  import opened PhysicalMemory
  import opened Injection
  import opened Protocol

  // -------------------------------------------------------------- invariants

  /** The write-once cells: set together, and all of them set once there is a snapshot. */
  predicate CellsInv(s: State) {
    && (s.cells.startProcessor.Some? ==> s.cells.startProcessor.value in s.cells.processors)
    && s.cells.tx == s.cells.rx == s.cells.shutdown == s.cells.messages == s.cells.thread
    && (s.reason.Some? && s.reason.value.Magic? && s.reason.value.number.IsStart() ==> s.cells.startProcessor.Some?)
    && (s.cells.snapshot.Some? ==> s.cells.startProcessor.Some? && s.cells.thread && s.cells.startTime.Some?)
    && (s.cells.snapshot.None? ==> s.cells.startInfo.None? && s.cells.startTime.None?)
    && (s.counters.iterations > 0 ==> s.cells.snapshot.Some?)
    && (s.pc.Await? ==> s.cells.thread)
  }

  /** Timeout events: every one posted is pending, fired or removed, and none waits
      before the first start or while a handler waits for a testcase. */
  predicate TimeoutInv(s: State) {
    && s.hist.posted == s.sim.pending + s.hist.fired + s.hist.removed
    && s.sim.pending <= 1 + s.hist.overlaps
    && (s.cells.snapshot.None? ==> s.sim.pending == 0)
    && (s.cells.snapshot.Some? ==> s.cells.snapshot.value.pending == 0)
  }

  predicate Blocked(s: State) {
    s.pc.Await? && !s.pc.phase.Script?
  }

  /** A handler that waits for a testcase has already rewound everything. */
  predicate RewoundInv(s: State) {
    && (!s.coverageEnabled ==> s.prevLoc == 0)
    && (s.cells.snapshot.None? ==> !s.coverageEnabled && s.current.None?)
    && (Blocked(s) ==>
          && s.cells.snapshot.Some? && s.cells.startInfo.Some? && s.repro.None? && s.current.None?
          && s.sim == Sim(s.cells.snapshot.value.mem, 0) && s.prevLoc == 0)
  }

  /** Both channels are first-in first-out and the fuzzer waits for one status at a time. */
  predicate ChannelInv(s: State) {
    && s.hist.sent == s.hist.taken + s.chan.testcases
    && s.hist.reported == s.hist.received + s.chan.statuses
    && |s.hist.sent| == |s.hist.received| + (if s.chan.fuzzer.AwaitingStatus? then 1 else 0)
    && (!s.cells.thread ==> s.hist.sent == [] && s.hist.reported == [])
    && (s.chan.shutdowns > 0 || s.chan.fuzzer.Exited? ==> s.hist.bareStops + s.hist.limitStops > 0)
  }

  function One(b: bool): nat {
    if b then 1 else 0
  }

  predicate ParkedOrRunning(s: State) {
    s.pc.Running? || s.pc.Stopped? || s.pc.Quit?
  }

  /** Without script-supplied testcases: one testcase executes at a time and every status
      but those of reason-less stops answers the testcase that was executing. */
  predicate LockstepInv(s: State) {
    && (s.cells.snapshot.None? ==> s.hist.reported == [] && s.hist.bareStops == 0 && s.hist.limitStops == 0)
    && (!s.hist.scripted ==>
          && s.repro.None? && !s.bookmark && !s.stoppedForRepro
          && !(s.reason.Some? && s.reason.value.ManualStartWithoutBuffer?)
          && !(s.pc.Await? && s.pc.phase.Script?)
          && (s.cells.snapshot.None? ==> s.hist.taken == [])
          && (s.cells.snapshot.Some? ==> s.cells.startInfo.Some?)
          && |s.hist.reported| + One(s.current.Some?) == |s.hist.taken| + s.hist.bareStops
          && (s.cells.snapshot.Some? && ParkedOrRunning(s) ==> s.current.Some?)
          && (s.hist.limitStops > 0 ==> s.current.Some?)
          && (s.current.Some? ==> s.hist.taken != [] && s.current.value == s.hist.taken[|s.hist.taken| - 1])
          && (s.hist.bareStops == 0 ==>
                forall k :: 0 <= k < |s.hist.reported| ==> k < |s.hist.taken| && s.hist.reported[k].testcase == Some(s.hist.taken[k])))
  }

  function CountExits(vs: seq<Verdict>, exit: ExitKind): nat {
    if vs == [] then 0 else CountExits(vs[..|vs| - 1], exit) + One(vs[|vs| - 1].exit == exit)
  }

  /** The counters agree with the statuses sent. */
  predicate AccountInv(c: Config, s: State) {
    && s.counters.solutions == CountExits(s.hist.reported, ExitCrash)
    && s.counters.timeouts == CountExits(s.hist.reported, ExitTimeout)
    && s.counters.iterations + s.hist.bareStops == |s.hist.reported| + s.hist.limitStops
    && (c.iterationLimit == 0 ==> s.hist.limitStops == 0)
    && (c.iterationLimit > 0 ==>
          s.hist.limitStops == if s.counters.iterations < c.iterationLimit then 0
                               else s.counters.iterations - (c.iterationLimit - 1))
  }

  predicate Inv(c: Config, s: State) {
    CellsInv(s) && TimeoutInv(s) && RewoundInv(s) && ChannelInv(s) && LockstepInv(s) && AccountInv(c, s)
  }

  // ------------------------------------------------------------ effects
  // Each handler's result as one equation on states, under the invariants.

  /** A testcase has been written and its timeout posted. */
  predicate Begun(s: State, t: Testcase, phase: Phase, s': State) {
    && StartProcessor(s).Some? && s.cells.startInfo.Some?
    && WriteStart(s.sim.mem, t.bytes, s.cells.startInfo.value, StartProcessor(s).value.addressBytes) == Ok(s'.sim.mem)
    && s' == s.(sim := Sim(s'.sim.mem, s.sim.pending + 1),
                hist := s.hist.(posted := s.hist.posted + 1, overlaps := s.hist.overlaps + One(s.sim.pending > 0)),
                cmplogEnabled := t.cmplog, current := Some(t),
                bookmark := s.bookmark || (phase.Starting? && s.repro.Some?),
                pc := Running)
  }

  lemma BeginEffect(s: State, t: Testcase, phase: Phase)
    ensures var r := Begin(s, t, phase); r.Ok? ==> Begun(s, t, phase, r.value)
  {
  }

  /** The timeout cancelled and the iteration counted. */
  function Counted(s: State): State {
    s.(sim := s.sim.(pending := 0), hist := s.hist.(removed := s.hist.removed + s.sim.pending),
       counters := s.counters.(iterations := s.counters.iterations + 1))
  }

  /** The status sent, memory and edge state rewound. */
  function Sent(s: State, exit: ExitKind): State
    requires s.cells.snapshot.Some?
  {
    var v := Verdict(s.current, exit);
    s.(sim := Sim(s.cells.snapshot.value.mem, 0),
       chan := s.chan.(statuses := s.chan.statuses + [v]),
       counters := Count(s.counters, exit),
       hist := s.hist.(reported := s.hist.reported + [v]),
       prevLoc := 0, current := None)
  }

  /** The next testcase has been asked for. */
  predicate Reported(d: State, s': State) {
    if d.cells.startInfo.None? then
      s' == d.(sim := d.sim.(pending := d.sim.pending + 1), hist := d.hist.(posted := d.hist.posted + 1), pc := Running)
    else if d.repro.Some? then Begun(d, Testcase(d.repro.value, false), Restarting, s')
    else s' == d.(pc := Await(Restarting))
  }

  predicate AtLimitEffect(c: Config, s: State, s': State) {
    s' == s.(chan := s.chan.(shutdowns := s.chan.shutdowns + 1),
             hist := s.hist.(limitStops := s.hist.limitStops + 1),
             pc := if c.quitOnLimit then Quit else Stopped)
  }

  predicate Finished(c: Config, s: State, exit: ExitKind, s': State) {
    if s.cells.snapshot.None? then s' == s.(pc := Running)
    else if s.bookmark then s' == Cancel(s).(stoppedForRepro := true, pc := Stopped)
    else if LimitReached(c, s.counters.iterations + 1) then AtLimitEffect(c, Counted(s), s')
    else !s.chan.fuzzer.Exited? && Reported(Sent(Counted(s), exit), s')
  }

  /** What asking for the next testcase leaves alone. */
  lemma ReportedFrame(d: State, s': State)
    requires Reported(d, s') && d.sim.pending == 0
    ensures s'.cells == d.cells && s'.hist.reported == d.hist.reported && s'.hist.overlaps == d.hist.overlaps
    ensures s'.bookmark == d.bookmark
  {
  }

  /** The end of an iteration sends a status unless it stops for repro or reaches the limit. */
  predicate Sends(c: Config, s: State) {
    s.cells.snapshot.Some? && !s.bookmark && !LimitReached(c, s.counters.iterations + 1)
  }

  /** What the end of an iteration leaves alone, and the one status it may send. */
  lemma FinishedFrame(c: Config, s: State, exit: ExitKind, s': State)
    requires Finished(c, s, exit, s')
    ensures s'.cells == s.cells && s'.hist.overlaps == s.hist.overlaps && s'.bookmark == s.bookmark
    ensures s'.hist.reported == s.hist.reported + if Sends(c, s) then [Verdict(s.current, exit)] else []
  {
    hide Reported;
    if Sends(c, s) {
      ReportedFrame(Sent(Counted(s), exit), s');
    }
  }

  lemma FinishEffect(c: Config, s: State, exit: ExitKind, now: nat)
    requires CellsInv(s) && TimeoutInv(s)
    ensures var r := FinishIteration(c, s, exit, now); r.Ok? ==> Finished(c, s, exit, r.value)
  {
    hide Report, Reported;
    if s.cells.snapshot.Some? && !s.bookmark && !LimitReached(c, s.counters.iterations + 1) {
      ReportEffect(c, Counted(s), exit);
    }
  }

  lemma ReportEffect(c: Config, s: State, exit: ExitKind)
    requires s.cells.snapshot.Some? && s.cells.snapshot.value.pending == 0 && s.sim.pending == 0
    ensures var r := Report(c, s, exit); r.Ok? ==> !s.chan.fuzzer.Exited? && Reported(Sent(s, exit), r.value)
  {
    hide Begin, Rewind, Sent;
    RewindEffect(c, s, exit);
    if s.repro.Some? {
      BeginEffect(Sent(s, exit), Testcase(s.repro.value, false), Restarting);
    }
  }

  lemma RewindEffect(c: Config, s: State, exit: ExitKind)
    requires s.cells.snapshot.Some? && s.cells.snapshot.value.pending == 0 && s.sim.pending == 0
    ensures var r := Rewind(c, s, exit);
            && (r.Ok? ==> !s.chan.fuzzer.Exited? && r.value == Sent(s, exit))
            && Sent(s, exit).cells == s.cells && Sent(s, exit).repro == s.repro && Sent(s, exit).sim.pending == 0
  {
  }

  // ------------------------------------------------------------ every step

  lemma ThreadKeeps(c: Config, s: State)
    requires Inv(c, s) && (s.pc.Running? || s.pc.Stopped?)
    ensures StartFuzzerThread(s).Ok? && Inv(c, StartFuzzerThread(s).value) && StartFuzzerThread(s).value.cells.thread
  {
  }

  lemma AddKeeps(c: Config, s: State, cpu: Cpu, isStart: bool)
    requires Inv(c, s) && (s.pc.Running? || s.pc.Stopped?)
    ensures var r := AddProcessor(s, cpu, isStart);
            r.Ok? ==> Inv(c, r.value) && (isStart ==> r.value.cells.startProcessor.Some?)
  {
  }

  lemma BegunKeeps(c: Config, s: State, t: Testcase, phase: Phase, s': State)
    requires Inv(c, s) && s.hist.scripted && ParkedOrRunning(s) && s.cells.snapshot.Some?
    requires Begun(s, t, phase, s')
    ensures Inv(c, s')
  {
  }

  lemma TakeKeeps(s: State)
    requires ChannelInv(s) && s.chan.testcases != []
    ensures ChannelInv(Take(s))
  {
    var q := s.chan.testcases;
    assert s.hist.taken + [q[0]] + q[1..] == s.hist.taken + q;
  }

  lemma DeliveredKeeps(c: Config, s: State, s': State)
    requires Inv(c, s) && Blocked(s) && s.chan.testcases != []
    requires Begun(Take(s), s.chan.testcases[0], s.pc.phase, s')
    ensures Inv(c, s')
  {
    TakeKeeps(s);
  }

  lemma CountAppend(vs: seq<Verdict>, v: Verdict, exit: ExitKind)
    ensures CountExits(vs + [v], exit) == CountExits(vs, exit) + One(v.exit == exit)
  {
    assert (vs + [v])[..|vs|] == vs;
  }

  lemma SentAccounts(c: Config, s: State, exit: ExitKind)
    requires AccountInv(c, s) && s.cells.snapshot.Some? && !LimitReached(c, s.counters.iterations + 1)
    ensures AccountInv(c, Sent(Counted(s), exit))
  {
    hide CountExits;
    CountAppend(s.hist.reported, Verdict(s.current, exit), ExitCrash);
    CountAppend(s.hist.reported, Verdict(s.current, exit), ExitTimeout);
  }

  lemma SentLocksteps(c: Config, s: State, exit: ExitKind)
    requires CellsInv(s) && RewoundInv(s) && LockstepInv(s) && AccountInv(c, s)
    requires s.pc.Running? && s.cells.snapshot.Some? && !LimitReached(c, s.counters.iterations + 1)
    ensures var d := Sent(Counted(s), exit);
            LockstepInv(d.(pc := Await(Restarting))) && (s.hist.scripted ==> LockstepInv(d))
  {
    hide CountExits;
    var v := Verdict(s.current, exit);
    if !s.hist.scripted && s.hist.bareStops == 0 {
      forall k | 0 <= k < |s.hist.reported + [v]|
        ensures k < |s.hist.taken| && (s.hist.reported + [v])[k].testcase == Some(s.hist.taken[k])
      {
        if k < |s.hist.reported| {
          assert (s.hist.reported + [v])[k] == s.hist.reported[k];
        }
      }
    }
  }

  lemma SentKeeps(c: Config, s: State, exit: ExitKind)
    requires CellsInv(s) && TimeoutInv(s) && RewoundInv(s) && ChannelInv(s)
    requires s.pc.Running? && s.cells.snapshot.Some?
    ensures var d := Sent(Counted(s), exit); CellsInv(d) && TimeoutInv(d) && RewoundInv(d) && ChannelInv(d)
  {
    var v := Verdict(s.current, exit);
    assert s.hist.reported + [v] == s.hist.received + (s.chan.statuses + [v]);
  }

  lemma LimitKeeps(c: Config, s: State, s': State)
    requires Inv(c, s) && s.pc.Running? && s.cells.snapshot.Some? && LimitReached(c, s.counters.iterations + 1)
    requires AtLimitEffect(c, Counted(s), s')
    ensures Inv(c, s')
  {
    hide CountExits;
  }

  lemma ReportedKeeps(c: Config, d: State, s': State)
    requires CellsInv(d) && TimeoutInv(d) && RewoundInv(d) && ChannelInv(d) && AccountInv(c, d)
    requires LockstepInv(d.(pc := Await(Restarting))) && (d.hist.scripted ==> LockstepInv(d))
    requires d.pc.Running? && d.cells.snapshot.Some?
    requires d.sim == Sim(d.cells.snapshot.value.mem, 0) && d.prevLoc == 0 && d.current.None?
    requires Reported(d, s')
    ensures Inv(c, s')
  {
    hide CountExits;
    if d.cells.startInfo.Some? && d.repro.Some? {
      BegunKeeps(c, d, Testcase(d.repro.value, false), Restarting, s');
    }
  }

  lemma FinishedKeeps(c: Config, s: State, exit: ExitKind, s': State)
    requires Inv(c, s) && s.pc.Running? && Finished(c, s, exit, s')
    ensures Inv(c, s')
  {
    hide CountExits;
    if s.cells.snapshot.None? || s.bookmark {
    } else if LimitReached(c, s.counters.iterations + 1) {
      LimitKeeps(c, s, s');
    } else {
      hide Reported, AccountInv, LockstepInv, ChannelInv, RewoundInv;
      SentKeeps(c, s, exit);
      SentAccounts(c, s, exit);
      SentLocksteps(c, s, exit);
      ReportedKeeps(c, Sent(Counted(s), exit), s');
    }
  }

  predicate Opened(s: State, info: Option<StartInfo>, now: nat, s': State) {
    && s.cells.startTime.None?
    && (var d := s.(cells := s.cells.(startInfo := if info.Some? then info else s.cells.startInfo,
                                      startTime := Some(now), snapshot := Some(Snapshot(s.sim.mem, s.sim.pending))),
                    coverageEnabled := true);
        if info.None? then
          s' == d.(sim := d.sim.(pending := d.sim.pending + 1),
                   hist := d.hist.(posted := d.hist.posted + 1, overlaps := d.hist.overlaps + One(d.sim.pending > 0)),
                   bookmark := d.bookmark || d.repro.Some?, pc := Running)
        else if d.repro.Some? then Begun(d, Testcase(d.repro.value, false), Starting, s')
        else s' == d.(pc := Await(Starting)))
  }

  lemma OpenEffect(s: State, info: Option<StartInfo>, now: nat)
    ensures var r := OpenLoop(s, info, now); r.Ok? ==> Opened(s, info, now, r.value)
  {
    hide Begin;
    if info.Some? && s.repro.Some? {
      var d := s.(cells := s.cells.(startInfo := info, startTime := Some(now),
                                    snapshot := Some(Snapshot(s.sim.mem, s.sim.pending))),
                  coverageEnabled := true);
      BeginEffect(d, Testcase(d.repro.value, false), Starting);
    }
  }

  lemma OpenedKeeps(c: Config, s: State, info: Option<StartInfo>, now: nat, s': State)
    requires Inv(c, s) && s.pc.Running? && s.cells.snapshot.None?
    requires s.cells.thread && s.cells.startProcessor.Some? && (info.None? ==> s.hist.scripted)
    requires Opened(s, info, now, s')
    ensures Inv(c, s')
  {
    var d := s.(cells := s.cells.(startInfo := if info.Some? then info else s.cells.startInfo,
                                  startTime := Some(now), snapshot := Some(Snapshot(s.sim.mem, s.sim.pending))),
                coverageEnabled := true);
    if info.Some? && d.repro.Some? {
      BegunKeeps(c, d, Testcase(d.repro.value, false), Starting, s');
    }
  }

  lemma MagicStartKeeps(c: Config, s: State, number: MagicNumber, view: CpuView, now: nat)
    requires Inv(c, s) && s.pc.Running? && number.IsStart()
    ensures var r := OnMagicStart(s, number, view, now); r.Ok? ==> Inv(c, r.value)
  {
    if s.cells.snapshot.None? {
      hide OpenLoop, Opened, MagicStartInfo, Inv;
      ThreadKeeps(c, s);
      var s1 := StartFuzzerThread(s).value;
      var info := MagicStartInfo(number, view, s1.sim.mem);
      if info.Ok? && OnMagicStart(s, number, view, now).Ok? {
        OpenEffect(s1, Some(info.value), now);
        OpenedKeeps(c, s1, Some(info.value), now, OpenLoop(s1, Some(info.value), now).value);
      }
    }
  }

  lemma ManualStartKeeps(c: Config, s: State, cpu: Cpu, info: ManualStartInfo, view: CpuView, now: nat)
    requires Inv(c, s) && s.pc.Running?
    ensures var r := OnManualStart(s, cpu, info, view, now); r.Ok? ==> Inv(c, r.value)
  {
    if s.cells.snapshot.None? && OnManualStart(s, cpu, info, view, now).Ok? {
      hide OpenLoop, Opened, ManualStart, Inv;
      ThreadKeeps(c, s);
      var s1 := StartFuzzerThread(s).value;
      AddKeeps(c, s1, cpu, true);
      var s2 := AddProcessor(s1, cpu, true).value;
      var start := ManualStart(view, s2.sim.mem, info).value;
      OpenEffect(s2, Some(start), now);
      OpenedKeeps(c, s2, Some(start), now, OpenLoop(s2, Some(start), now).value);
    }
  }

  lemma BufferlessStartKeeps(c: Config, s: State, cpu: Cpu, now: nat)
    requires Inv(c, s) && s.pc.Running? && s.hist.scripted
    ensures var r := OnManualStartWithoutBuffer(s, cpu, now); r.Ok? ==> Inv(c, r.value)
  {
    if s.cells.snapshot.None? && OnManualStartWithoutBuffer(s, cpu, now).Ok? {
      hide OpenLoop, Opened, Inv;
      ThreadKeeps(c, s);
      var s1 := StartFuzzerThread(s).value;
      AddKeeps(c, s1, cpu, true);
      var s2 := AddProcessor(s1, cpu, true).value;
      OpenEffect(s2, None, now);
      OpenedKeeps(c, s2, None, now, OpenLoop(s2, None, now).value);
    }
  }

  /** A reason-less stop: timeout cancelled, one extra status, not resumed. */
  predicate Bared(c: Config, s: State, s': State) {
    if s.cells.snapshot.None? then s' == s.(pc := Stopped)
    else
      var v := Verdict(s.current, ExitOk);
      && !s.chan.fuzzer.Exited?
      && s' == s.(sim := s.sim.(pending := 0),
                  chan := s.chan.(statuses := s.chan.statuses + [v], shutdowns := s.chan.shutdowns + One(c.shutdownOnStop)),
                  hist := s.hist.(reported := s.hist.reported + [v], removed := s.hist.removed + s.sim.pending,
                                  bareStops := s.hist.bareStops + 1),
                  pc := Stopped)
  }

  lemma BareEffect(c: Config, s: State, now: nat)
    requires CellsInv(s)
    ensures var r := OnStoppedWithoutReason(c, s, now); r.Ok? ==> Bared(c, s, r.value)
  {
  }

  lemma BareCells(s: State, c: Config, s': State)
    requires CellsInv(s) && TimeoutInv(s) && RewoundInv(s) && s.pc.Running? && Bared(c, s, s')
    ensures CellsInv(s') && TimeoutInv(s') && RewoundInv(s')
  {
  }

  lemma BareChannels(s: State, c: Config, s': State)
    requires ChannelInv(s) && CellsInv(s) && Bared(c, s, s')
    ensures ChannelInv(s')
  {
    var v := Verdict(s.current, ExitOk);
    assert s.hist.reported + [v] == s.hist.received + (s.chan.statuses + [v]);
  }

  lemma BareLockstep(s: State, c: Config, s': State)
    requires LockstepInv(s) && s.pc.Running? && Bared(c, s, s')
    ensures LockstepInv(s')
  {
  }

  lemma BareAccount(c: Config, s: State, s': State)
    requires AccountInv(c, s) && Bared(c, s, s')
    ensures AccountInv(c, s')
  {
    hide CountExits;
    var v := Verdict(s.current, ExitOk);
    CountAppend(s.hist.reported, v, ExitCrash);
    CountAppend(s.hist.reported, v, ExitTimeout);
  }

  lemma BareStopKeeps(c: Config, s: State, s': State)
    requires Inv(c, s) && s.pc.Running? && Bared(c, s, s')
    ensures Inv(c, s')
  {
    hide CellsInv, TimeoutInv, RewoundInv, ChannelInv, LockstepInv, AccountInv, Bared;
    BareCells(s, c, s');
    BareChannels(s, c, s');
    BareLockstep(s, c, s');
    BareAccount(c, s, s');
  }

  lemma DeliverKeeps(c: Config, s: State)
    requires Inv(c, s) && s.pc.Await? && s.chan.testcases != []
    ensures Deliver(s).Ok? ==> Inv(c, Deliver(s).value)
  {
    TakeKeeps(s);
    if Blocked(s) {
      hide Begin;
      BeginEffect(Take(s), s.chan.testcases[0], s.pc.phase);
      if Deliver(s).Ok? {
        DeliveredKeeps(c, s, Deliver(s).value);
      }
    }
  }

  lemma ReproKeeps(c: Config, s: State, bytes: Buffer)
    requires Inv(c, s) && (s.pc.Running? || s.pc.Stopped?)
    ensures var r := Repro(c, s, bytes); r.Ok? ==> Inv(c, r.value)
  {
    hide Begin;
    var s1 := s.(repro := Some(bytes), hist := s.hist.(scripted := true));
    if s.counters.iterations > 0 {
      var s2 := Restore(c, s1).value;
      BeginEffect(s2, Testcase(bytes, false), Restarting);
      if Repro(c, s, bytes).Ok? {
        BegunKeeps(c, s2, Testcase(bytes, false), Restarting, Repro(c, s, bytes).value);
      }
    }
  }

  lemma ScriptKeeps(c: Config, s: State, cpu: Cpu)
    requires Inv(c, s) && (s.pc.Running? || s.pc.Stopped?)
    ensures var r := StartWithoutBuffer(s, cpu); r.Ok? ==> Inv(c, r.value)
  {
    hide CountExits;
    var s0 := s.(hist := s.hist.(scripted := true));
    assert Inv(c, s0);
    if s0.cells.snapshot.None? {
      ThreadKeeps(c, s0);
      hide StartFuzzerThread;
      ScriptBlocks(c, StartFuzzerThread(s0).value, cpu);
    } else {
      ScriptBlocks(c, s0, cpu);
    }
  }

  lemma ScriptBlocks(c: Config, s: State, cpu: Cpu)
    requires Inv(c, s) && (s.pc.Running? || s.pc.Stopped?) && s.hist.scripted && s.cells.thread
    ensures Inv(c, StopSimulation(s.(cmplogEnabled := false), ManualStartWithoutBuffer(cpu)))
    ensures s.repro.None? ==> Inv(c, s.(pc := Await(Script(cpu, s.pc.Running?))))
  {
    hide CountExits;
  }

  lemma ReasonTaken(c: Config, s: State)
    requires Inv(c, s) && s.pc.Running?
    ensures Inv(c, s.(reason := None))
    ensures s.reason.Some? && s.reason.value.ManualStartWithoutBuffer? ==> s.hist.scripted
  {
    hide CountExits;
  }

  lemma FinishKeeps(c: Config, s: State, exit: ExitKind, now: nat)
    requires Inv(c, s) && s.pc.Running?
    ensures var r := FinishIteration(c, s, exit, now); r.Ok? ==> Inv(c, r.value)
  {
    FinishEffect(c, s, exit, now);
    hide FinishIteration, Finished;
    if FinishIteration(c, s, exit, now).Ok? {
      FinishedKeeps(c, s, exit, FinishIteration(c, s, exit, now).value);
    }
  }

  lemma StopKeeps(c: Config, s: State, view: CpuView, now: nat)
    requires Inv(c, s) && s.pc.Running?
    ensures var r := OnSimulationStopped(c, s, view, now); r.Ok? ==> Inv(c, r.value)
  {
    hide FinishIteration, OnMagicStart, OnManualStart, OnManualStartWithoutBuffer, OnStoppedWithoutReason, Bared, CountExits;
    ReasonTaken(c, s);
    var s0 := s.(reason := None);
    if s.stoppedForRepro {
    } else {
      hide Inv;
      match s.reason
      case None =>
        BareEffect(c, s, now) by { assert CellsInv(s) by { InvCells(c, s); } }
        if OnStoppedWithoutReason(c, s, now).Ok? {
          BareStopKeeps(c, s, OnStoppedWithoutReason(c, s, now).value);
        }
      case Some(Magic(number)) =>
        if number.IsStart() {
          MagicStartKeeps(c, s0, number, view, now);
        } else {
          FinishKeeps(c, s0, if number.StopNormal? then ExitOk else SolutionExit(Manual), now);
        }
      case Some(ManualStartReason(cpu, info)) => ManualStartKeeps(c, s0, cpu, info, view, now);
      case Some(ManualStartWithoutBuffer(cpu)) => BufferlessStartKeeps(c, s0, cpu, now);
      case Some(ManualStop) => FinishKeeps(c, s0, ExitOk, now);
      case Some(Solution(kind)) => FinishKeeps(c, s0, SolutionExit(kind), now);
    }
  }

  lemma InvCells(c: Config, s: State)
    requires Inv(c, s)
    ensures CellsInv(s)
  {
  }

  lemma QueueKeeps(c: Config, s: State, t: Testcase)
    requires Inv(c, s) && Enabled(s, FuzzerSend(t))
    ensures Inv(c, Outcome(c, s, FuzzerSend(t)).value)
  {
    hide CountExits;
    assert s.hist.taken + s.chan.testcases + [t] == s.hist.taken + (s.chan.testcases + [t]);
  }

  lemma ReceiveKeeps(c: Config, s: State)
    requires Inv(c, s) && Enabled(s, FuzzerReceive)
    ensures Inv(c, Outcome(c, s, FuzzerReceive).value)
  {
    hide CountExits;
    assert s.hist.received + s.chan.statuses == s.hist.received + [s.chan.statuses[0]] + s.chan.statuses[1..];
  }

  lemma ShutdownKeeps(c: Config, s: State)
    requires Inv(c, s) && Enabled(s, FuzzerShutdown)
    ensures Inv(c, Outcome(c, s, FuzzerShutdown).value)
  {
    hide CountExits;
  }

  lemma FuzzerKeeps(c: Config, s: State, l: Label)
    requires Inv(c, s) && Enabled(s, l)
    requires l.FuzzerSend? || l.FuzzerReceive? || l.FuzzerShutdown?
    ensures Outcome(c, s, l).Ok? && Inv(c, Outcome(c, s, l).value)
  {
    hide Inv;
    match l
    case FuzzerSend(t) => QueueKeeps(c, s, t);
    case FuzzerReceive => ReceiveKeeps(c, s);
    case FuzzerShutdown => ShutdownKeeps(c, s);
  }

  lemma ReasonSet(c: Config, s: State, reason: StopReason)
    requires Inv(c, s) && (s.pc.Running? || s.pc.Stopped?)
    requires reason.Magic? && reason.number.IsStart() ==> s.cells.startProcessor.Some?
    requires !reason.ManualStartWithoutBuffer?
    ensures Inv(c, StopSimulation(s, reason))
  {
    hide CountExits;
  }

  lemma MagicKeeps(c: Config, s: State, cpu: Cpu, number: MagicNumber, index: nat)
    requires Inv(c, s) && s.pc.Running?
    ensures Inv(c, OnMagicInstruction(c, s, cpu, number, index))
  {
    AddKeeps(c, s, cpu, false);
    var s1 := AddProcessor(s, cpu, false).value;
    assert s1.pc.Running? && cpu.number in s1.cells.processors;
    if MagicAccepted(c, number, index) {
      hide AddProcessor, CountExits;
      var s2 := if number.IsStart() && s1.cells.startProcessor.None?
                then s1.(cells := s1.cells.(startProcessor := Some(cpu.number))) else s1;
      assert Inv(c, s2);
      ReasonSet(c, s2, Magic(number));
    }
  }

  lemma TimeoutKeeps(c: Config, s: State)
    requires Inv(c, s) && Enabled(s, TimeoutFires)
    ensures Inv(c, Outcome(c, s, TimeoutFires).value)
  {
    hide CountExits;
    var s1 := s.(sim := s.sim.(pending := s.sim.pending - 1), hist := s.hist.(fired := s.hist.fired + 1));
    assert Inv(c, s1);
    ReasonSet(c, s1, Solution(Timeout));
  }

  lemma GuestKeeps(c: Config, s: State, l: Label)
    requires Inv(c, s) && Enabled(s, l) && (l.GuestRun? || l.UserContinue? || l.ScriptAddProcessor?)
    ensures Outcome(c, s, l).Ok? && Inv(c, Outcome(c, s, l).value)
  {
    hide CountExits;
    if l.ScriptAddProcessor? {
      AddKeeps(c, s, l.processor, false);
    }
  }

  lemma PanicKeeps(c: Config, s: State, e: Error)
    requires Inv(c, s)
    ensures Inv(c, s.(pc := Panicked(e)))
  {
    hide CountExits;
  }

  lemma OutcomeKeeps(c: Config, s: State, l: Label)
    requires Inv(c, s) && Enabled(s, l)
    ensures Outcome(c, s, l).Ok? ==> Inv(c, Outcome(c, s, l).value)
  {
    hide Inv, OnSimulationStopped, Deliver, Repro, StartWithoutBuffer, OnMagicInstruction, AddProcessor;
    match l
    case StopNotified(view, now) => StopKeeps(c, s, view, now);
    case TestcaseDelivered => DeliverKeeps(c, s);
    case DeliveryFailed =>
    case ScriptRepro(bytes) => ReproKeeps(c, s, bytes);
    case ScriptStartWithoutBuffer(cpu) => ScriptKeeps(c, s, cpu);
    case MagicInstruction(cpu, number, index) => MagicKeeps(c, s, cpu, number, index);
    case TimeoutFires => TimeoutKeeps(c, s);
    case ExceptionRaised(_) => ReasonSet(c, s, Solution(Exception));
    case BreakpointHit(_) => ReasonSet(c, s, Solution(Breakpoint));
    case ScriptStop => ReasonSet(c, s, ManualStop);
    case ScriptSolution => ReasonSet(c, s, Solution(Manual));
    case ScriptStart(cpu, info) => ReasonSet(c, s, ManualStartReason(cpu, info));
    case GuestRun(_, _) => GuestKeeps(c, s, l);
    case UserContinue => GuestKeeps(c, s, l);
    case ScriptAddProcessor(_) => GuestKeeps(c, s, l);
    case FuzzerSend(_) => FuzzerKeeps(c, s, l);
    case FuzzerReceive => FuzzerKeeps(c, s, l);
    case FuzzerShutdown => FuzzerKeeps(c, s, l);
  }

  /** Every step of either thread keeps the invariant. */
  lemma StepKeeps(c: Config, s: State, l: Label)
    requires Inv(c, s) && Enabled(s, l)
    ensures Inv(c, Apply(c, s, l))
  {
    hide Inv, Outcome;
    OutcomeKeeps(c, s, l);
    match Outcome(c, s, l)
    case Ok(_) =>
    case Err(e) => PanicKeeps(c, s, e);
  }

  /** Every state of every run satisfies the invariant. */
  lemma {:induction false} RunKeeps(c: Config, mem: Memory, run: seq<Label>)
    requires After(c, mem, run).Some?
    ensures Inv(c, After(c, mem, run).value)
  {
    if run == [] {
    } else {
      var front := run[..|run| - 1];
      RunKeeps(c, mem, front);
      hide Inv, Apply;
      StepKeeps(c, After(c, mem, front).value, run[|run| - 1]);
    }
  }
}
