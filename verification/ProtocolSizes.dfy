/** Buffer and size variable over whole runs: where the first start puts them, and what the target reads there when an
    iteration starts. */
module ProtocolSizes {
  import opened Base
  import opened PhysicalMemory
  import opened Injection
  import opened Protocol
  import opened ProtocolSafety
  import opened ProtocolTheorems
  import opened ProtocolIterations
  import opened ProtocolFresh

  /** Bytes of a size variable read through a pointer on a processor. */
  function SizeBytes(cpu: Cpu): nat {
    if cpu.arch.I386? then 4 else cpu.addressBytes
  }

  predicate Fits(size: StartSize, bytes: nat) {
    size.SizePtr? ==> size.maximum < Pow2(8 * bytes)
  }

  /** A maximum that came through a size pointer fits the start processor's size variable. */
  predicate SizeInv(s: State) {
    s.cells.startInfo.Some? ==>
      StartProcessor(s).Some? && Fits(s.cells.startInfo.value.size, SizeBytes(StartProcessor(s).value))
  }

  /** Cells that only grow keep it, as long as the start information stays. */
  lemma GrowthKeeps(s: State, s': State)
    requires SizeInv(s) && Extends(s.cells, s'.cells) && s'.cells.startInfo == s.cells.startInfo
    ensures SizeInv(s')
  {
    hide Fits;
  }

  lemma OpenedCells(s: State, info: Option<StartInfo>, now: nat, s': State)
    requires Opened(s, info, now, s') && s.cells.startInfo.None?
    ensures s'.cells.startInfo == info && StartProcessor(s') == StartProcessor(s)
  {
  }

  lemma OpenSizes(s: State, info: Option<StartInfo>, now: nat)
    requires s.cells.startInfo.None? && StartProcessor(s).Some? && OpenLoop(s, info, now).Ok?
    requires info.Some? ==> Fits(info.value.size, SizeBytes(StartProcessor(s).value))
    ensures SizeInv(OpenLoop(s, info, now).value)
  {
    OpenEffect(s, info, now);
    hide OpenLoop, Opened, Fits, StartProcessor;
    OpenedCells(s, info, now, OpenLoop(s, info, now).value);
  }

  lemma MagicSizes(s: State, number: MagicNumber, view: CpuView, now: nat)
    requires CellsInv(s) && number.IsStart() && s.cells.snapshot.None? && OnMagicStart(s, number, view, now).Ok?
    requires StartProcessor(s).Some? && Sees(s, view)
    ensures SizeInv(OnMagicStart(s, number, view, now).value)
  {
    SizePtrMaximumFits(number, view, s.sim.mem);
    hide OpenLoop, MagicStartInfo, Pow2, SizeInv;
    var s1 := StartFuzzerThread(s).value;
    OpenSizes(s1, Some(MagicStartInfo(number, view, s1.sim.mem).value), now);
  }

  lemma ManualSizes(s: State, cpu: Cpu, info: ManualStartInfo, view: CpuView, now: nat)
    requires CellsInv(s) && s.cells.snapshot.None? && OnManualStart(s, cpu, info, view, now).Ok?
    requires Sees(s.(reason := Some(ManualStartReason(cpu, info))), view)
    ensures SizeInv(OnManualStart(s, cpu, info, view, now).value)
  {
    ManualSizePtrMaximumFits(info, view, s.sim.mem);
    hide OpenLoop, ManualStart, Pow2, SizeInv;
    var s2 := AddProcessor(StartFuzzerThread(s).value, cpu, true).value;
    OpenSizes(s2, Some(ManualStart(view, s2.sim.mem, info).value), now);
  }

  lemma BufferlessSizes(s: State, cpu: Cpu, now: nat)
    requires CellsInv(s) && s.cells.snapshot.None? && OnManualStartWithoutBuffer(s, cpu, now).Ok?
    ensures SizeInv(OnManualStartWithoutBuffer(s, cpu, now).value)
  {
    hide OpenLoop, SizeInv;
    OpenSizes(AddProcessor(StartFuzzerThread(s).value, cpu, true).value, None, now);
  }

  /** The first start. */
  lemma FirstStartSizes(c: Config, s: State, view: CpuView, now: nat)
    requires CellsInv(s) && Sees(s, view) && s.cells.snapshot.None? && !s.stoppedForRepro
    requires s.reason.Some? && IsStartReason(s.reason.value) && OnSimulationStopped(c, s, view, now).Ok?
    ensures SizeInv(OnSimulationStopped(c, s, view, now).value)
  {
    hide OnMagicStart, OnManualStart, OnManualStartWithoutBuffer, SizeInv;
    var s0 := s.(reason := None);
    match s.reason.value
    case Magic(number) => MagicSizes(s0, number, view, now);
    case ManualStartReason(cpu, info) => ManualSizes(s0, cpu, info, view, now);
    case ManualStartWithoutBuffer(cpu) => BufferlessSizes(s0, cpu, now);
  }

  /** Any other stop leaves the start information alone. */
  lemma LaterStop(c: Config, s: State, s': State)
    requires StopResult(c, s, s')
    requires s.cells.snapshot.Some? || s.stoppedForRepro || s.reason.None? || !IsStartReason(s.reason.value)
    ensures s'.cells == s.cells
  {
    hide Finished;
    if !s.stoppedForRepro && s.reason.Some? && !IsStartReason(s.reason.value) {
      FinishedFrame(c, s.(reason := None), ReasonExit(s.reason), s');
    }
  }

  lemma StepSizes(c: Config, s: State, l: Label)
    requires Inv(c, s) && SizeInv(s) && Enabled(s, l)
    ensures SizeInv(Apply(c, s, l))
  {
    hide SizeInv;
    if !l.StopNotified? {
      hide Apply, Inv;
      StepQuiet(c, s, l);
      GrowthKeeps(s, Apply(c, s, l));
    } else if Outcome(c, s, l).Err? {
      hide OnSimulationStopped;
      GrowthKeeps(s, Apply(c, s, l));
    } else if s.cells.snapshot.None? && !s.stoppedForRepro && s.reason.Some? && IsStartReason(s.reason.value) {
      hide OnSimulationStopped;
      FirstStartSizes(c, s, l.view, l.now);
    } else {
      hide OnSimulationStopped;
      StopEffect(c, s, l.view, l.now);
      hide StopResult;
      LaterStop(c, s, Apply(c, s, l));
      GrowthKeeps(s, Apply(c, s, l));
    }
  }

  lemma {:induction false} RunSizes(c: Config, mem: Memory, run: seq<Label>)
    requires After(c, mem, run).Some?
    ensures SizeInv(After(c, mem, run).value)
  {
    if run != [] {
      var front := run[..|run| - 1];
      RunSizes(c, mem, front);
      RunKeeps(c, mem, front);
      hide Inv, SizeInv, Apply;
      StepSizes(c, After(c, mem, front).value, run[|run| - 1]);
    }
  }

  /** At the start of every iteration of every run the target reads min(length, maximum) through its size pointer, at
      the width the variable was read with, whatever testcase was sent. */
  lemma TargetReadsLength(c: Config, mem: Memory, run: seq<Label>, t: Testcase)
    requires StartsIteration(c, mem, run, t)
    requires var s := After(c, mem, run).value;
             s.cells.startInfo.Some? && s.cells.startInfo.value.size.SizePtr? && StartProcessor(s).Some?
             && SizeBytes(StartProcessor(s).value) <= Min(8, StartProcessor(s).value.addressBytes)
    ensures var s := After(c, mem, run).value;
            var size := s.cells.startInfo.value.size;
            ReadInteger(s.sim.mem, size.address.address, SizeBytes(StartProcessor(s).value))
            == Ok(Min(|t.bytes|, size.maximum))
  {
    RunSizes(c, mem, run);
    IterationIsFresh(c, mem, run, t);
    hide After, Injected, Injectable, Pow2, ReadInteger, StartsClean, FreshIteration, StartsIteration;
    var s := After(c, mem, run).value;
    var info, cpu := s.cells.startInfo.value, StartProcessor(s).value;
    SizeRoundTrip(s.cells.snapshot.value.mem, t.bytes, info, cpu.addressBytes, SizeBytes(cpu));
    SmallerStillFits(|t.bytes|, info.size.maximum, SizeBytes(cpu));
  }

  lemma SmallerStillFits(n: nat, maximum: nat, bytes: nat)
    requires maximum < Pow2(8 * bytes)
    ensures Min(n, maximum) < Pow2(8 * bytes)
  {
  }

  // ---- the buffer ----

  /** What the first start reads. */
  function StartRead(s: State, view: CpuView): Result<StartInfo, AccessError>
    requires s.reason.Some? && IsStartReason(s.reason.value) && !s.reason.value.ManualStartWithoutBuffer?
  {
    match s.reason.value
    case Magic(number) => MagicStartInfo(number, view, s.sim.mem)
    case ManualStartReason(_, info) => ManualStart(view, s.sim.mem, info)
  }

  lemma OpenInfo(s: State, info: StartInfo, now: nat)
    requires s.cells.startInfo.None? && OpenLoop(s, Some(info), now).Ok?
    ensures OpenLoop(s, Some(info), now).value.cells.startInfo == Some(info)
  {
    OpenEffect(s, Some(info), now);
    hide OpenLoop, Opened;
    OpenedCells(s, Some(info), now, OpenLoop(s, Some(info), now).value);
  }

  /** The start information is set to exactly that. */
  lemma FirstStartInfo(c: Config, s: State, view: CpuView, now: nat)
    requires CellsInv(s) && FirstStart(s) && !s.stoppedForRepro && !s.reason.value.ManualStartWithoutBuffer?
    requires OnSimulationStopped(c, s, view, now).Ok?
    ensures StartRead(s, view).Ok?
    ensures OnSimulationStopped(c, s, view, now).value.cells.startInfo == Some(StartRead(s, view).value)
  {
    var s0 := s.(reason := None);
    ThreadCells(s0);
    hide OpenLoop, MagicStartInfo, ManualStart, Extends, StartFuzzerThread, AddProcessor;
    var s1 := StartFuzzerThread(s0).value;
    match s.reason.value
    case Magic(number) => OpenInfo(s1, MagicStartInfo(number, view, s.sim.mem).value, now);
    case ManualStartReason(cpu, info) =>
      PreparedCells(s0, cpu);
      OpenInfo(AddProcessor(s1, cpu, true).value, ManualStart(view, s.sim.mem, info).value, now);
  }

  /** Step `k` of the run is its first start with a buffer. */
  predicate OpensAt(c: Config, mem: Memory, run: seq<Label>, k: nat) {
    && k < |run| && run[k].StopNotified? && After(c, mem, run[..k]).Some?
    && (var s := After(c, mem, run[..k]).value;
        && FirstStart(s) && !s.stoppedForRepro && !s.reason.value.ManualStartWithoutBuffer?
        && Enabled(s, run[k]) && Outcome(c, s, run[k]).Ok?)
  }

  /** The start information of the rest of the run is what that step read. */
  lemma StartInfoStays(c: Config, mem: Memory, run: seq<Label>, k: nat)
    requires After(c, mem, run).Some? && OpensAt(c, mem, run, k)
    ensures StartRead(After(c, mem, run[..k]).value, run[k].view).Ok?
    ensures After(c, mem, run).value.cells.startInfo
         == Some(StartRead(After(c, mem, run[..k]).value, run[k].view).value)
  {
    var s := After(c, mem, run[..k]).value;
    RunKeeps(c, mem, run[..k]);
    InvParts(c, s);
    FirstStartInfo(c, s, run[k].view, run[k].now);
    CellsAreWriteOnce(c, mem, run, k + 1);
    assert run[..k + 1][..k] == run[..k];
    hide Inv, StartRead, OnSimulationStopped;
  }

  /** At the start of every iteration the truncated testcase stands at the translation of the first argument of the
      harness start that opened the run, unless the size variable lies inside the buffer. */
  lemma TestcaseAtFirstArgument(c: Config, mem: Memory, run: seq<Label>, k: nat, t: Testcase)
    requires OpensAt(c, mem, run, k) && After(c, mem, run[..k]).value.reason.value.Magic?
    requires StartsIteration(c, mem, run, t)
    requires var s := After(c, mem, run).value;
             s.cells.startInfo.Some? && StartProcessor(s).Some?
             && forall x :: InBuffer(t.bytes, s.cells.startInfo.value, x) ==>
                  !InCell(s.cells.startInfo.value, StartProcessor(s).value.addressBytes, x)
    ensures var s, view := After(c, mem, run).value, run[k].view;
            && view.arg0 in view.translate
            && (var n := Min(|t.bytes|, s.cells.startInfo.value.size.maximum);
                ReadBytes(s.sim.mem, view.translate[view.arg0], n) == Ok(t.bytes[..n]))
  {
    StartInfoStays(c, mem, run, k);
    IterationIsFresh(c, mem, run, t);
    var s0, s := After(c, mem, run[..k]).value, After(c, mem, run).value;
    MagicReads(s0.reason.value.number, run[k].view, s0.sim.mem);
    hide After, StartsClean, FreshIteration, StartsIteration, MagicStartInfo, BytesAt, IntegerAt;
    InjectedReadsBack(s, t);
  }

  lemma InjectedReadsBack(s: State, t: Testcase)
    requires InjectedIteration(s, t)
    requires forall x :: InBuffer(t.bytes, s.cells.startInfo.value, x) ==>
               !InCell(s.cells.startInfo.value, StartProcessor(s).value.addressBytes, x)
    ensures var info := s.cells.startInfo.value;
            var n := Min(|t.bytes|, info.size.maximum);
            ReadBytes(s.sim.mem, info.address.address, n) == Ok(t.bytes[..n])
  {
    var info := s.cells.startInfo.value;
    BufferReadBack(s.cells.snapshot.value.mem, t.bytes, info, StartProcessor(s).value.addressBytes);
    hide Injected, Injectable, ReadBytes, InBuffer, InCell;
    var n := Min(|t.bytes|, info.size.maximum);
    assert Truncated(t.bytes, info.size.maximum) == t.bytes[..n];
  }
}
