/** The two threads as objects that update their fields in place. The inner methods are proved to compute the protocol's
    functions of the old state; the entry points, from any valid object, keep it valid and promise what their callers
    rely on (src/lib.rs, src/haps/mod.rs, src/fuzzer/mod.rs, src/interfaces/fuzz.rs). */
module Host {
  import opened Base
  import opened PhysicalMemory
  import opened Injection
  import opened Protocol
  import opened ProtocolSafety
  import opened ProtocolTheorems
  import opened ProtocolIterations
  import opened ProtocolFresh

  /** The simulator: guest memory, the timeout events it holds, and the saved snapshot. */
  class Simulator {
    var mem: Memory
    var pending: nat
    var snapshot: Option<Snapshot>

    constructor (mem: Memory)
      ensures this.mem == mem && pending == 0 && snapshot.None?
    {
      this.mem := mem;
      pending := 0;
      snapshot := None;
    }

    method WriteBytesAt(base: Address, bytes: seq<byte>) returns (r: Result<(), AccessError>)
      modifies `mem
      ensures match WriteBytes(old(mem), base, bytes)
              case Ok(m) => r.Ok? && mem == m
              case Err(e) => r == Err(e)
    {
      ghost var before := mem;
      for i := 0 to |bytes|
        invariant WriteUpTo(before, base, bytes, i) == Ok(mem)
      {
        if At(base, i) !in mem {
          WriteFailureLasts(before, base, bytes, i + 1, |bytes|);
          return Err(Unmapped(At(base, i)));
        }
        mem := mem[At(base, i) := bytes[i]];
      }
      return Ok(());
    }

    /** `write_start`: truncate, write the testcase, write its size. */
    method WriteStart(testcase: Buffer, info: StartInfo, addressBytes: nat) returns (r: Result<(), AccessError>)
      modifies `mem
      ensures match Injection.WriteStart(old(mem), testcase, info, addressBytes)
              case Ok(m) => r.Ok? && mem == m
              case Err(e) => r == Err(e)
    {
      var t := Truncated(testcase, info.size.maximum);
      r := WriteBytesAt(info.address.address, t);
      if r.Ok? && info.size.PhysicalAddress().Some? {
        r := WriteBytesAt(info.size.PhysicalAddress().value, SizeCell(|t|, addressBytes));
      }
    }
  }

  lemma {:induction false} WriteFailureLasts(mem: Memory, base: Address, bytes: seq<byte>, i: nat, n: nat)
    requires i <= n <= |bytes| && WriteUpTo(mem, base, bytes, i).Err?
    ensures WriteUpTo(mem, base, bytes, n) == WriteUpTo(mem, base, bytes, i)
    decreases n
  {
    if i < n {
      WriteFailureLasts(mem, base, bytes, i, n - 1);
    }
  }

  /** The channels between the threads, with the history of what passed through them. */
  class Link {
    var testcases: seq<Testcase>
    var statuses: seq<Verdict>
    var shutdowns: nat
    var fuzzer: FuzzerPc
    ghost var hist: History

    constructor ()
      ensures testcases == [] && statuses == [] && shutdowns == 0 && fuzzer == InControl
      ensures hist == Init(map[]).hist
    {
      testcases, statuses, shutdowns, fuzzer := [], [], 0, InControl;
      hist := Init(map[]).hist;
    }
  }

  /** The fuzzer thread: send a testcase, wait for its status, check for shutdown between. */
  class FuzzerThread {
    const link: Link

    constructor (link: Link)
      ensures this.link == link
    {
      this.link := link;
    }

    /** With nothing scripted and no reason-less stop so far, the testcase is the only message in flight. */
    method Send(t: Testcase, ghost owner: Tsffs)
      requires owner.link == link && owner.Valid() && owner.fuzzThread && link.fuzzer.InControl?
      modifies link
      ensures owner.Valid() && link.hist.sent == old(link.hist.sent) + [t] && link.fuzzer.AwaitingStatus?
      ensures !link.hist.scripted && link.hist.bareStops == 0 ==> link.testcases == [t] && link.statuses == []
    {
      ghost var s := owner.View();
      FuzzerKeeps(owner.config, s, FuzzerSend(t));
      NothingInFlight(owner.config, s);
      link.testcases := link.testcases + [t];
      link.fuzzer := AwaitingStatus;
      link.hist := link.hist.(sent := link.hist.sent + [t]);
      hide Inv;
      assert owner.View() == Outcome(owner.config, s, FuzzerSend(t)).value;
    }

    /** The exit is the next one reported; without scripts and reason-less stops, the one for the testcase sent last. */
    method Receive(ghost owner: Tsffs) returns (exit: ExitKind)
      requires owner.link == link && owner.Valid() && owner.fuzzThread
      requires link.fuzzer.AwaitingStatus? && link.statuses != []
      modifies link
      ensures owner.Valid() && link.fuzzer.InControl?
      ensures |old(link.hist.received)| < |link.hist.reported| && link.hist.reported == old(link.hist.reported)
      ensures exit == link.hist.reported[|old(link.hist.received)|].exit
      ensures !link.hist.scripted && link.hist.bareStops == 0 ==>
                link.hist.sent != [] && link.hist.reported[|old(link.hist.received)|].testcase
                                        == Some(link.hist.sent[|link.hist.sent| - 1])
    {
      ghost var s := owner.View();
      FuzzerKeeps(owner.config, s, FuzzerReceive);
      AnswersLastSent(owner.config, s);
      exit := link.statuses[0].exit;
      link.hist := link.hist.(received := link.hist.received + [link.statuses[0]]);
      link.statuses := link.statuses[1..];
      link.fuzzer := InControl;
      hide Inv;
      assert owner.View() == Outcome(owner.config, s, FuzzerReceive).value;
    }

    /** The loop ends only after a reason-less stop or the iteration limit. */
    method CheckShutdown(ghost owner: Tsffs) returns (done: bool)
      requires owner.link == link && owner.Valid() && owner.fuzzThread && link.fuzzer.InControl?
      modifies link
      ensures owner.Valid() && (done <==> link.fuzzer.Exited?)
      ensures done ==> link.hist.bareStops + link.hist.limitStops > 0
    {
      ghost var s := owner.View();
      done := link.shutdowns > 0;
      if done {
        FuzzerKeeps(owner.config, s, FuzzerShutdown);
        ShutdownWasAsked(owner.config, s);
        link.shutdowns := link.shutdowns - 1;
        link.fuzzer := Exited;
        hide Inv;
        assert owner.View() == Outcome(owner.config, s, FuzzerShutdown).value;
      }
    }
  }

  lemma NothingInFlight(c: Config, s: State)
    requires Inv(c, s) && s.chan.fuzzer.InControl?
    ensures !s.hist.scripted && s.hist.bareStops == 0 ==> s.chan.testcases == [] && s.chan.statuses == []
  {
    hide CountExits;
  }

  lemma AnswersLastSent(c: Config, s: State)
    requires Inv(c, s) && s.chan.fuzzer.AwaitingStatus? && s.chan.statuses != []
    ensures |s.hist.received| < |s.hist.reported| && s.hist.reported[|s.hist.received|] == s.chan.statuses[0]
    ensures !s.hist.scripted && s.hist.bareStops == 0 ==>
              s.hist.sent != [] && s.chan.statuses[0].testcase == Some(s.hist.sent[|s.hist.sent| - 1])
  {
    hide CountExits;
    var k := |s.hist.received|;
    assert s.hist.reported[k] == s.chan.statuses[0];
  }

  lemma ShutdownWasAsked(c: Config, s: State)
    requires Inv(c, s) && s.chan.shutdowns > 0
    ensures s.hist.bareStops + s.hist.limitStops > 0
  {
    hide CountExits;
  }

  class Tsffs {
    const config: Config
    const sim: Simulator
    const link: Link
    var processors: map<int, Cpu>
    var startProcessorNumber: Option<int>
    var fuzzerTx: bool
    var fuzzerRx: bool
    var fuzzerShutdown: bool
    var fuzzerMessages: bool
    var fuzzThread: bool
    var startInfo: Option<StartInfo>
    var startTime: Option<nat>
    var stopReason: Option<StopReason>
    var reproTestcase: Option<Buffer>
    var reproBookmarkSet: bool
    var stoppedForRepro: bool
    var iterations: nat
    var timeouts: nat
    var solutions: nat
    var coverageEnabled: bool
    var coveragePrevLoc: nat
    var cmplogEnabled: bool
    var pc: Pc
    var current: Option<Testcase> // the history tag of the next status

    /** The protocol state this object, its simulator and its channels represent. */
    ghost function View(): State
      reads this, sim, link
    {
      State(Cells(processors, startProcessorNumber, fuzzerTx, fuzzerRx, fuzzerShutdown, fuzzerMessages, fuzzThread,
                  startInfo, startTime, sim.snapshot),
            Sim(sim.mem, sim.pending), Channels(link.testcases, link.statuses, link.shutdowns, link.fuzzer),
            Counters(iterations, timeouts, solutions), link.hist,
            stopReason, reproTestcase, reproBookmarkSet, stoppedForRepro,
            coverageEnabled, coveragePrevLoc, cmplogEnabled, current, pc)
    }

    /** The call did what `spec` says: the same new state, or the same error. */
    ghost predicate Did(r: Result<(), Error>, spec: Result<State, Error>)
      reads this, sim, link
    {
      match spec
      case Ok(s) => r.Ok? && View() == s
      case Err(e) => r == Err(e)
    }

    /** The object represents a state that satisfies the invariant of every run. */
    ghost predicate Valid()
      reads this, sim, link
    {
      Inv(config, View())
    }

    constructor (config: Config, sim: Simulator, link: Link)
      requires sim.pending == 0 && sim.snapshot.None?
      requires link.testcases == [] && link.statuses == [] && link.shutdowns == 0 && link.fuzzer == InControl
      requires link.hist == Init(map[]).hist
      ensures this.config == config && this.sim == sim && this.link == link
      ensures View() == Init(sim.mem) && Valid()
    {
      this.config, this.sim, this.link := config, sim, link;
      processors, startProcessorNumber := map[], None;
      fuzzerTx, fuzzerRx, fuzzerShutdown, fuzzerMessages, fuzzThread := false, false, false, false, false;
      startInfo, startTime, stopReason := None, None, None;
      reproTestcase, reproBookmarkSet, stoppedForRepro := None, false, false;
      iterations, timeouts, solutions := 0, 0, 0;
      coverageEnabled, coveragePrevLoc, cmplogEnabled := false, 0, false;
      pc := Running;
      current := None;
      new;
      RunKeeps(config, sim.mem, []);
    }

    method StartProcessor() returns (cpu: Option<Cpu>)
      ensures cpu == Protocol.StartProcessor(View())
    {
      if startProcessorNumber.None? || startProcessorNumber.value !in processors {
        return None;
      }
      return Some(processors[startProcessorNumber.value]);
    }

    method AddProcessor(cpu: Cpu, isStart: bool) returns (r: Result<(), Error>)
      modifies this
      ensures Did(r, Protocol.AddProcessor(old(View()), cpu, isStart))
      ensures r.Err? <==> isStart && old(startProcessorNumber).Some?
      ensures r.Ok? ==> cpu.number in processors
                        && (isStart ==> Protocol.StartProcessor(View()) == Some(processors[cpu.number]))
    {
      if cpu.number !in processors {
        processors := processors[cpu.number := cpu];
      }
      if isStart {
        if startProcessorNumber.Some? {
          return Err(AlreadySet(StartProcessorCell));
        }
        startProcessorNumber := Some(cpu.number);
      }
      return Ok(());
    }

    method StartFuzzerThread() returns (r: Result<(), Error>)
      modifies this
      ensures Did(r, Protocol.StartFuzzerThread(old(View())))
      ensures old(Valid()) && (pc.Running? || pc.Stopped?) ==> r.Ok? && Valid() && fuzzThread
    {
      ghost var s := View();
      if Inv(config, s) && (pc.Running? || pc.Stopped?) {
        ThreadKeeps(config, s);
      }
      hide Inv;
      if fuzzThread {
        return Ok(());
      }
      if fuzzerTx || fuzzerRx || fuzzerShutdown || fuzzerMessages {
        return Err(AlreadySet(FuzzerCell));
      }
      SetFuzzerCells();
      return Ok(());
    }

    method SetFuzzerCells()
      modifies `fuzzerTx, `fuzzerRx, `fuzzerShutdown, `fuzzerMessages, `fuzzThread
      ensures fuzzerTx && fuzzerRx && fuzzerShutdown && fuzzerMessages && fuzzThread
    {
      fuzzerTx, fuzzerRx, fuzzerShutdown, fuzzerMessages := true, true, true, true;
      fuzzThread := true;
    }

    method PostTimeoutEvent() returns (r: Result<(), Error>)
      modifies sim, link
      ensures Did(r, Post(old(View())))
    {
      var cpu := StartProcessor();
      if cpu.None? {
        return Err(NoStartProcessor);
      }
      link.hist := link.hist.(posted := link.hist.posted + 1,
                              overlaps := link.hist.overlaps + if sim.pending > 0 then 1 else 0);
      sim.pending := sim.pending + 1;
      return Ok(());
    }

    method CancelTimeoutEvent()
      modifies sim, link
      ensures View() == Cancel(old(View()))
      ensures old(Valid()) && sim.snapshot.Some? ==> sim.pending == 0
    {
      hide CountExits;
      var cpu := StartProcessor();
      if cpu.Some? {
        link.hist := link.hist.(removed := link.hist.removed + sim.pending);
        sim.pending := 0;
      }
    }

    method RestoreInitialSnapshot() returns (r: Result<(), Error>)
      modifies sim, link
      ensures Did(r, Restore(config, old(View())))
    {
      if sim.snapshot.None? {
        return Err(NoSnapshot);
      }
      sim.mem := sim.snapshot.value.mem;
      if config.restoreDropsEvents {
        link.hist := link.hist.(removed := link.hist.removed + sim.pending);
        sim.pending := sim.snapshot.value.pending;
      }
      return Ok(());
    }

    method SendStatus(exit: ExitKind) returns (r: Result<(), Error>)
      modifies link
      ensures Did(r, Protocol.Send(old(View()), exit))
    {
      if !fuzzerTx {
        return Err(NoFuzzerTx);
      }
      if link.fuzzer.Exited? {
        return Err(FuzzerGone);
      }
      var v := Verdict(current, exit);
      link.statuses := link.statuses + [v];
      link.hist := link.hist.(reported := link.hist.reported + [v]);
      return Ok(());
    }

    method SendShutdown() returns (r: Result<(), Error>)
      modifies link
      ensures Did(r, Protocol.SendShutdown(old(View())))
    {
      if fuzzerShutdown {
        if link.fuzzer.Exited? {
          return Err(FuzzerGone);
        }
        link.shutdowns := link.shutdowns + 1;
      }
      return Ok(());
    }

    method SaveReproBookmarkIfNeeded()
      modifies this
      ensures View() == SaveBookmark(old(View()))
    {
      if reproTestcase.Some? && !reproBookmarkSet {
        reproBookmarkSet := true;
      }
    }

    /** The rest of `get_and_write_testcase` once the testcase is known. */
    method WriteTestcase(t: Testcase) returns (r: Result<(), Error>)
      modifies this, sim
      ensures Did(r, Write(old(View()), t))
    {
      hide WriteStart, Protocol.StartProcessor;
      if startInfo.None? {
        return Err(NoStartInfo);
      }
      var cpu := StartProcessor();
      if cpu.None? {
        return Err(NoStartProcessor);
      }
      var written := sim.WriteStart(t.bytes, startInfo.value, cpu.value.addressBytes);
      if written.Err? {
        return Err(Access(written.error));
      }
      cmplogEnabled := t.cmplog;
      current := Some(t);
      return Ok(());
    }

    /** Write the testcase, post the timeout, and run the tail of the handler that asked for it. */
    method BeginIteration(t: Testcase, phase: Phase) returns (r: Result<(), Error>)
      modifies this, sim, link
      ensures Did(r, Begin(old(View()), t, phase))
    {
      hide Post, SaveBookmark, Write;
      r := WriteTestcase(t);
      if r.Ok? {
        r := PostTimeoutEvent();
        if r.Ok? {
          if phase.Starting? {
            SaveReproBookmarkIfNeeded();
          }
          pc := Running;
        }
      }
    }

    /** `get_testcase`, up to the blocking receive. */
    method RequestTestcase(phase: Phase) returns (r: Result<(), Error>)
      modifies this, sim, link
      ensures Did(r, Request(old(View()), phase))
    {
      hide Begin;
      if reproTestcase.Some? {
        r := BeginIteration(Testcase(reproTestcase.value, false), phase);
      } else if !fuzzerRx {
        r := Err(NoFuzzerRx);
      } else {
        pc := Await(phase);
        r := Ok(());
      }
    }

    /** The blocking receive returns. A blocked handler then starts a fresh iteration on the oldest testcase, exactly
        when testcase and size land on mapped memory of the snapshot. */
    method DeliverTestcase() returns (r: Result<(), Error>)
      requires Valid() && pc.Await? && link.testcases != []
      modifies this, sim, link
      ensures Did(r, Deliver(old(View())))
      ensures r.Ok? ==> Valid()
      ensures old(Blocked(View())) ==> (r.Ok? <==> old(Landing(View())))
      ensures old(Blocked(View())) && r.Ok? ==> FreshIteration(View(), old(link.testcases[0]))
    {
      DeliveryPromises(config, View());
      hide Deliver, Inv, FreshIteration, Landing, Blocked;
      r := FinishBlocked();
    }

    method FinishBlocked() returns (r: Result<(), Error>)
      requires pc.Await? && link.testcases != []
      modifies this, sim, link
      ensures Did(r, Deliver(old(View())))
    {
      hide Begin;
      var t := link.testcases[0];
      link.testcases := link.testcases[1..];
      link.hist := link.hist.(taken := link.hist.taken + [t]);
      match pc.phase {
        case Script(cpu, running) =>
          cmplogEnabled := t.cmplog;
          StopSimulation(ManualStartWithoutBuffer(cpu));
          pc := if running then Running else Stopped;
          r := Ok(());
        case _ =>
          assert View() == Take(old(View()));
          r := BeginIteration(t, pc.phase);
      }
    }

    method StopSimulation(reason: StopReason)
      modifies this
      ensures View() == Protocol.StopSimulation(old(View()), reason)
      ensures old(Valid() && Recordable(View(), reason)) ==> Valid()
    {
      ghost var s := View();
      if Inv(config, s) && Recordable(s, reason) {
        ReasonSet(config, s, reason);
      }
      hide Inv;
      stopReason := Some(reason);
    }

    method SetStartCells(info: Option<StartInfo>, now: nat) returns (r: Result<(), Error>)
      modifies this, sim, link
      ensures Did(r, Protocol.SetStartCells(old(View()), info, now))
    {
      if info.Some? {
        if startInfo.Some? {
          return Err(AlreadySet(StartInfoCell));
        }
        startInfo := info;
      }
      if startTime.Some? {
        return Err(AlreadySet(StartTimeCell));
      }
      startTime := Some(now);
      coverageEnabled := true;
      sim.snapshot := Some(Snapshot(sim.mem, sim.pending));
      return Ok(());
    }

    /** The body shared by the start handlers when there is no snapshot yet. */
    method OpenFuzzingLoop(info: Option<StartInfo>, now: nat) returns (r: Result<(), Error>)
      modifies this, sim, link
      ensures Did(r, OpenLoop(old(View()), info, now))
    {
      hide Post, SaveBookmark, Request, Protocol.SetStartCells;
      r := SetStartCells(info, now);
      if r.Ok? {
        if info.Some? {
          r := RequestTestcase(Starting);
        } else {
          r := PostTimeoutEvent();
          if r.Ok? {
            SaveReproBookmarkIfNeeded();
            pc := Running;
          }
        }
      }
    }

    method OnSimulationStoppedMagicStart(number: MagicNumber, view: CpuView, now: nat) returns (r: Result<(), Error>)
      requires number.IsStart()
      modifies this, sim, link
      ensures Did(r, OnMagicStart(old(View()), number, view, now))
    {
      hide Protocol.StartFuzzerThread, Protocol.StartProcessor, OpenLoop, SaveBookmark, MagicStartInfo;
      if sim.snapshot.Some? {
        SaveReproBookmarkIfNeeded();
        pc := Running;
        return Ok(());
      }
      r := StartFuzzerThread();
      if r.Ok? {
        var cpu := StartProcessor();
        if cpu.None? {
          return Err(NoStartProcessor);
        }
        var info := MagicStartInfo(number, view, sim.mem);
        if info.Err? {
          return Err(Access(info.error));
        }
        r := OpenFuzzingLoop(Some(info.value), now);
      }
    }

    method OnSimulationStoppedManualStart(cpu: Cpu, info: ManualStartInfo, view: CpuView, now: nat)
      returns (r: Result<(), Error>)
      modifies this, sim, link
      ensures Did(r, OnManualStart(old(View()), cpu, info, view, now))
    {
      hide Protocol.StartFuzzerThread, Protocol.StartProcessor, OpenLoop, SaveBookmark, ManualStart, Protocol.AddProcessor;
      if sim.snapshot.Some? {
        SaveReproBookmarkIfNeeded();
        pc := Running;
        return Ok(());
      }
      r := StartFuzzerThread();
      if r.Ok? {
        r := AddProcessor(cpu, true);
      }
      if r.Ok? {
        var start := StartProcessor();
        if start.None? {
          return Err(NoStartProcessor);
        }
        var startInfo := ManualStart(view, sim.mem, info);
        if startInfo.Err? {
          return Err(Access(startInfo.error));
        }
        r := OpenFuzzingLoop(Some(startInfo.value), now);
      }
    }

    method OnSimulationStoppedManualStartWithoutBuffer(cpu: Cpu, now: nat) returns (r: Result<(), Error>)
      modifies this, sim, link
      ensures Did(r, OnManualStartWithoutBuffer(old(View()), cpu, now))
    {
      hide Protocol.StartFuzzerThread, OpenLoop, SaveBookmark, Protocol.AddProcessor;
      if sim.snapshot.Some? {
        SaveReproBookmarkIfNeeded();
        pc := Running;
        return Ok(());
      }
      r := StartFuzzerThread();
      if r.Ok? {
        r := AddProcessor(cpu, true);
      }
      if r.Ok? {
        r := OpenFuzzingLoop(None, now);
      }
    }

    method ReachLimit(now: nat) returns (r: Result<(), Error>)
      modifies this, sim, link
      ensures Did(r, AtLimit(config, old(View()), now))
    {
      hide Protocol.SendShutdown;
      if startTime.None? {
        return Err(NoStartTime);
      }
      if now < startTime.value {
        return Err(ClockWentBackwards);
      }
      r := SendShutdown();
      if r.Ok? {
        link.hist := link.hist.(limitStops := link.hist.limitStops + 1);
        pc := if config.quitOnLimit then Quit else Stopped;
      }
    }

    method CountStatus(exit: ExitKind)
      modifies this
      ensures View() == old(View()).(counters := Count(old(View()).counters, exit))
    {
      match exit {
        case ExitOk =>
        case ExitTimeout => timeouts := timeouts + 1;
        case ExitCrash => solutions := solutions + 1;
      }
    }

    method RewindIteration(exit: ExitKind) returns (r: Result<(), Error>)
      modifies this, sim, link
      ensures Did(r, Rewind(config, old(View()), exit))
    {
      hide Protocol.Send, Restore, Count;
      CountStatus(exit);
      r := SendStatus(exit);
      if r.Ok? {
        r := RestoreInitialSnapshot();
        if r.Ok? {
          coveragePrevLoc := 0;
          current := None;
        }
      }
    }

    method ReportStatus(exit: ExitKind) returns (r: Result<(), Error>)
      modifies this, sim, link
      ensures Did(r, Report(config, old(View()), exit))
    {
      hide Rewind, Request, Post;
      r := RewindIteration(exit);
      if r.Ok? {
        if startInfo.Some? {
          r := RequestTestcase(Restarting);
        } else {
          r := PostTimeoutEvent();
          if r.Ok? {
            pc := Running;
          }
        }
      }
    }

    /** The normal-stop, manual-stop and solution handlers: the same text but for the status. */
    method OnSimulationStoppedFinish(exit: ExitKind, now: nat) returns (r: Result<(), Error>)
      modifies this, sim, link
      ensures Did(r, FinishIteration(config, old(View()), exit, now))
    {
      hide Cancel, Conclude, Inv;
      if sim.snapshot.None? {
        pc := Running;
        return Ok(());
      }
      CancelTimeoutEvent();
      r := ConcludeIteration(exit, now);
    }

    method ConcludeIteration(exit: ExitKind, now: nat) returns (r: Result<(), Error>)
      modifies this, sim, link
      ensures Did(r, Conclude(config, old(View()), exit, now))
    {
      hide AtLimit, Report, Inv;
      if reproBookmarkSet {
        stoppedForRepro := true;
        pc := Stopped;
        return Ok(());
      }
      iterations := iterations + 1;
      if config.iterationLimit != 0 && iterations >= config.iterationLimit {
        r := ReachLimit(now);
      } else {
        r := ReportStatus(exit);
      }
    }

    method OnSimulationStoppedWithoutReason(now: nat) returns (r: Result<(), Error>)
      modifies this, sim, link
      ensures Did(r, OnStoppedWithoutReason(config, old(View()), now))
    {
      hide Cancel, Protocol.Send, Protocol.SendShutdown;
      if sim.snapshot.None? {
        pc := Stopped;
        return Ok(());
      }
      CancelTimeoutEvent();
      r := SendStatus(ExitOk);
      if r.Ok? {
        if startTime.None? {
          return Err(NoStartTime);
        }
        if now < startTime.value {
          return Err(ClockWentBackwards);
        }
        if config.shutdownOnStop {
          r := SendShutdown();
        }
        if r.Ok? {
          link.hist := link.hist.(bareStops := link.hist.bareStops + 1);
          pc := Stopped;
        }
      }
    }

    method OnSimulationStoppedWithReason(reason: StopReason, view: CpuView, now: nat) returns (r: Result<(), Error>)
      modifies this, sim, link
      ensures Did(r, OnStoppedWithReason(config, old(View()), reason, view, now))
    {
      hide OnMagicStart, OnManualStart, OnManualStartWithoutBuffer, FinishIteration;
      match reason {
        case Magic(number) =>
          if number.IsStart() {
            r := OnSimulationStoppedMagicStart(number, view, now);
          } else {
            r := OnSimulationStoppedFinish(if number.StopNormal? then ExitOk else ExitCrash, now);
          }
        case ManualStartReason(cpu, info) =>
          r := OnSimulationStoppedManualStart(cpu, info, view, now);
        case ManualStartWithoutBuffer(cpu) =>
          r := OnSimulationStoppedManualStartWithoutBuffer(cpu, now);
        case ManualStop =>
          r := OnSimulationStoppedFinish(ExitOk, now);
        case Solution(kind) =>
          r := OnSimulationStoppedFinish(if kind.Timeout? then ExitTimeout else ExitCrash, now);
      }
    }

    /** The stop notification: one status exactly when one is due, with the exit of the stop's reason and the testcase
        in memory; it fails only for reasons outside the fuzzer. */
    method OnSimulationStopped(view: CpuView, now: nat) returns (r: Result<(), Error>)
      requires Valid() && pc.Running?
      modifies this, sim, link
      ensures Did(r, Protocol.OnSimulationStopped(config, old(View()), view, now))
      ensures r.Ok? ==> Valid()
      ensures r.Ok? ==> link.hist.reported == old(link.hist.reported)
                          + (if StatusDue(config, old(View()))
                             then [Verdict(old(current), ReasonExit(old(stopReason)))] else [])
      ensures r.Err? ==> Tolerable(old(View()), r.error)
    {
      StopPromises(config, View(), view, now);
      hide OnStoppedWithReason, OnStoppedWithoutReason, Inv, StatusDue, Tolerable;
      if stoppedForRepro {
        pc := Stopped;
        return Ok(());
      }
      if stopReason.Some? {
        var reason := stopReason.value;
        stopReason := None;
        r := OnSimulationStoppedWithReason(reason, view, now);
      } else {
        r := OnSimulationStoppedWithoutReason(now);
      }
    }

    method OnMagicInstruction(cpu: Cpu, number: MagicNumber, index: nat) returns (r: Result<(), Error>)
      requires Valid() && pc.Running?
      modifies this, sim, link
      ensures r.Ok? && View() == Protocol.OnMagicInstruction(config, old(View()), cpu, number, index)
      ensures Valid() && cpu.number in processors
      ensures number.IsStart() ==>
                stopReason == if config.startOnHarness && index == config.startIndex then Some(Magic(number))
                              else old(stopReason)
      ensures number.StopNormal? ==>
                stopReason == if config.stopOnHarness && index in config.stopIndices then Some(Magic(number))
                              else old(stopReason)
      ensures number.StopAssert? ==>
                stopReason == if config.stopOnHarness && index in config.assertIndices then Some(Magic(number))
                              else old(stopReason)
      ensures startProcessorNumber ==
                if number.IsStart() && config.startOnHarness && index == config.startIndex
                   && old(startProcessorNumber).None?
                then Some(cpu.number) else old(startProcessorNumber)
    {
      MagicKeeps(config, View(), cpu, number, index);
      MagicPromises(config, View(), cpu, number, index);
      hide Inv, Protocol.OnMagicInstruction;
      r := RecordMagic(cpu, number, index);
    }

    method RecordMagic(cpu: Cpu, number: MagicNumber, index: nat) returns (r: Result<(), Error>)
      modifies this, sim, link
      ensures r.Ok? && View() == Protocol.OnMagicInstruction(config, old(View()), cpu, number, index)
    {
      hide MagicAccepted;
      r := AddProcessor(cpu, false);
      if MagicAccepted(config, number, index) {
        if number.IsStart() && startProcessorNumber.None? {
          startProcessorNumber := Some(cpu.number);
        }
        StopSimulation(Magic(number));
      }
    }

    /** The testcase is set; after an iteration it runs at once. The bookmark is never touched. */
    method Repro(bytes: Buffer) returns (r: Result<(), Error>)
      requires Valid() && (pc.Running? || pc.Stopped?)
      modifies this, sim, link
      ensures Did(r, Protocol.Repro(config, old(View()), bytes))
      ensures r.Ok? ==> Valid() && reproTestcase == Some(bytes) && reproBookmarkSet == old(reproBookmarkSet)
      ensures r.Ok? && old(iterations) > 0 ==> pc.Running? && current == Some(Testcase(bytes, false))
    {
      ReproPromises(config, View(), bytes);
      hide Protocol.Repro, Inv;
      r := SetRepro(bytes);
    }

    method SetRepro(bytes: Buffer) returns (r: Result<(), Error>)
      modifies this, sim, link
      ensures Did(r, Protocol.Repro(config, old(View()), bytes))
    {
      hide Restore, Begin;
      reproTestcase := Some(bytes);
      link.hist := link.hist.(scripted := true);
      r := Ok(());
      if iterations > 0 {
        r := RestoreInitialSnapshot();
        if r.Ok? {
          r := BeginIteration(Testcase(bytes, false), Restarting);
        }
      }
    }

    /** Always succeeds: the channel it needs exists or is created. */
    method StartWithoutBuffer(cpu: Cpu) returns (r: Result<(), Error>)
      requires Valid() && (pc.Running? || pc.Stopped?)
      modifies this, link
      ensures Did(r, Protocol.StartWithoutBuffer(old(View()), cpu))
      ensures r.Ok? && Valid() && fuzzThread
    {
      ScriptPromises(config, View(), cpu);
      hide Protocol.StartWithoutBuffer, Inv;
      r := AwaitTestcase(cpu);
    }

    method AwaitTestcase(cpu: Cpu) returns (r: Result<(), Error>)
      modifies this, link
      ensures Did(r, Protocol.StartWithoutBuffer(old(View()), cpu))
    {
      hide Protocol.StartFuzzerThread, Protocol.StopSimulation, Inv, Recordable;
      link.hist := link.hist.(scripted := true);
      if sim.snapshot.None? {
        r := StartFuzzerThread();
        if r.Err? {
          return r;
        }
      }
      r := TakeForScript(cpu);
    }

    /** The second half: use the repro testcase, or block on the channel. */
    method TakeForScript(cpu: Cpu) returns (r: Result<(), Error>)
      modifies this
      ensures Did(r, Handed(old(View()), cpu))
    {
      hide Protocol.StopSimulation, Inv, Recordable;
      if reproTestcase.Some? {
        cmplogEnabled := false;
        StopSimulation(ManualStartWithoutBuffer(cpu));
      } else if !fuzzerRx {
        return Err(NoFuzzerRx);
      } else {
        pc := Await(Script(cpu, pc.Running?));
      }
      return Ok(());
    }
  }

  /** Which harness instructions the configuration accepts. */
  /** Which magic instructions are accepted, by the configuration, and what accepting one records. */
  lemma MagicPromises(c: Config, s: State, cpu: Cpu, number: MagicNumber, index: nat)
    ensures var t := Protocol.OnMagicInstruction(c, s, cpu, number, index);
            && cpu.number in t.cells.processors
            && (number.IsStart() ==>
                  t.reason == if c.startOnHarness && index == c.startIndex then Some(Magic(number)) else s.reason)
            && (number.StopNormal? ==>
                  t.reason == if c.stopOnHarness && index in c.stopIndices then Some(Magic(number)) else s.reason)
            && (number.StopAssert? ==>
                  t.reason == if c.stopOnHarness && index in c.assertIndices then Some(Magic(number)) else s.reason)
            && t.cells.startProcessor ==
               if number.IsStart() && c.startOnHarness && index == c.startIndex && s.cells.startProcessor.None?
               then Some(cpu.number) else s.cells.startProcessor
  {
  }

  /** A reason a callback or a script may record in this state. */
  predicate Recordable(s: State, reason: StopReason) {
    && (s.pc.Running? || s.pc.Stopped?) && !reason.ManualStartWithoutBuffer?
    && (reason.Magic? && reason.number.IsStart() ==> s.cells.startProcessor.Some?)
  }

  /** What a stop notification promises, as facts about the protocol's function. */
  lemma StopPromises(c: Config, s: State, view: CpuView, now: nat)
    requires Inv(c, s) && s.pc.Running?
    ensures var r := Protocol.OnSimulationStopped(c, s, view, now);
            && (r.Ok? ==> Inv(c, r.value))
            && (r.Ok? ==> r.value.hist.reported == s.hist.reported +
                            if StatusDue(c, s) then [Verdict(s.current, ReasonExit(s.reason))] else [])
            && (r.Err? ==> Tolerable(s, r.error))
  {
    InvParts(c, s);
    StopKeeps(c, s, view, now);
    StopNoMissing(c, s, view, now);
    StopEffect(c, s, view, now);
    hide Protocol.OnSimulationStopped, Inv, StatusDue, StopResult, Tolerable;
    var r := Protocol.OnSimulationStopped(c, s, view, now);
    if r.Ok? {
      StopReports(c, s, r.value);
    }
  }

  /** The oldest testcase and its size land on mapped memory of the snapshot. */
  predicate Landing(s: State) {
    && s.chan.testcases != [] && s.cells.snapshot.Some? && s.cells.startInfo.Some?
    && Protocol.StartProcessor(s).Some?
    && Injectable(s.cells.snapshot.value.mem, s.chan.testcases[0].bytes, s.cells.startInfo.value,
                  Protocol.StartProcessor(s).value.addressBytes)
  }

  lemma DeliveryPromises(c: Config, s: State)
    requires Inv(c, s) && s.pc.Await? && s.chan.testcases != []
    ensures Deliver(s).Ok? ==> Inv(c, Deliver(s).value)
    ensures Blocked(s) ==> (Deliver(s).Ok? <==> Landing(s))
    ensures Blocked(s) && Deliver(s).Ok? ==> FreshIteration(Deliver(s).value, s.chan.testcases[0])
  {
    DeliverKeeps(c, s);
    if Blocked(s) {
      DeliveryStartsFresh(c, s);
      DeliveryRuns(s);
      hide Deliver, Inv, FreshIteration, Injectable, Protocol.StartProcessor;
    }
  }

  lemma ReproPromises(c: Config, s: State, bytes: Buffer)
    requires Inv(c, s) && (s.pc.Running? || s.pc.Stopped?)
    ensures var r := Protocol.Repro(c, s, bytes);
            r.Ok? ==> Inv(c, r.value) && r.value.repro == Some(bytes) && r.value.bookmark == s.bookmark
                      && (s.counters.iterations > 0 ==>
                            r.value.pc.Running? && r.value.current == Some(Testcase(bytes, false)))
  {
    ReproKeeps(c, s, bytes);
    hide Inv, Begin;
    var s1 := s.(repro := Some(bytes), hist := s.hist.(scripted := true));
    if s.counters.iterations > 0 && Restore(c, s1).Ok? {
      BeginEffect(Restore(c, s1).value, Testcase(bytes, false), Restarting);
    }
  }

  lemma ScriptPromises(c: Config, s: State, cpu: Cpu)
    requires Inv(c, s) && (s.pc.Running? || s.pc.Stopped?)
    ensures var r := Protocol.StartWithoutBuffer(s, cpu); r.Ok? && Inv(c, r.value) && r.value.cells.thread
  {
    InvParts(c, s);
    ScriptKeeps(c, s, cpu);
    hide Inv;
  }
}
