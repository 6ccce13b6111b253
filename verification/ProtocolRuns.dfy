/** Runs that reach the exceptional states. They start with a buffer that has no room, so that every write succeeds. */
module ProtocolRuns {
  import opened Base
  import opened PhysicalMemory
  import opened Injection
  import opened Protocol
  import opened ProtocolSafety
  import opened ProtocolTheorems
  import opened ProtocolIterations

  const CPU := Cpu(0, X86_64, 8)
  const VIEW := CpuView(X86_64, 0, 0, 0, map[0 := 0], 8)
  const INFO := StartInfo(WasPhysical(0), [], MaxSize(0))
  const EMPTY := Testcase([], false)
  const START := MagicInstruction(CPU, StartBufferPtrSizeVal, 0)
  const FINISH := MagicInstruction(CPU, StopNormal, 0)
  const STOP := StopNotified(VIEW, 0)

  /** Harness on, no solutions configured, a restore that keeps posted events. */
  function Settings(limit: nat): Config {
    Config(limit, false, false, true, true, 0, {0}, {0}, false, {}, false, {}, false)
  }

  predicate Moves(c: Config, s: State, l: Label, s': State) {
    Enabled(s, l) && Apply(c, s, l) == s'
  }

  lemma Extend(c: Config, run: seq<Label>, s: State, l: Label, s': State)
    requires After(c, map[], run) == Some(s) && Moves(c, s, l, s')
    ensures After(c, map[], run + [l]) == Some(s')
  {
    hide Apply;
    assert (run + [l])[..|run|] == run;
  }

  // ---- the first testcase ----

  const OPEN := Cells(map[0 := CPU], Some(0), true, true, true, true, true, Some(INFO), Some(0), Some(Snapshot(map[], 0)))

  const BOOT := Init(map[])
  const MARKED := BOOT.(cells := BOOT.cells.(processors := map[0 := CPU], startProcessor := Some(0)),
                        reason := Some(Magic(StartBufferPtrSizeVal)))
  const OPENED := BOOT.(cells := OPEN, coverageEnabled := true, pc := Await(Starting))
  const SENT := OPENED.(chan := Channels([EMPTY], [], 0, AwaitingStatus), hist := BOOT.hist.(sent := [EMPTY]))
  const RUNNING := OPENED.(chan := Channels([], [], 0, AwaitingStatus), sim := Sim(map[], 1),
                           hist := BOOT.hist.(sent := [EMPTY], taken := [EMPTY], posted := 1),
                           current := Some(EMPTY), pc := Running)

  lemma StartInfoRead()
    ensures MagicStartInfo(StartBufferPtrSizeVal, VIEW, map[]) == Ok(INFO)
  {
  }

  lemma NothingToWrite(mem: Memory)
    ensures WriteStart(mem, [], INFO, 8) == Ok(mem)
  {
  }

  lemma Marks(limit: nat)
    ensures Moves(Settings(limit), BOOT, START, MARKED)
  {
  }

  lemma Opens(limit: nat)
    ensures Moves(Settings(limit), MARKED, STOP, OPENED)
  {
    StartInfoRead();
    hide MagicStartInfo;
  }

  lemma Queues(limit: nat)
    ensures Moves(Settings(limit), OPENED, FuzzerSend(EMPTY), SENT)
  {
  }

  lemma Delivers(limit: nat)
    ensures Moves(Settings(limit), SENT, TestcaseDelivered, RUNNING)
  {
    NothingToWrite(map[]);
    hide WriteStart;
  }

  const FIRST: seq<Label> := [START, STOP, FuzzerSend(EMPTY), TestcaseDelivered]

  /** From boot to a running testcase, with one timeout pending. */
  lemma ReachesFirst(limit: nat)
    ensures After(Settings(limit), map[], FIRST) == Some(RUNNING)
  {
    var c := Settings(limit);
    assert After(c, map[], []) == Some(BOOT);
    hide After, Moves, Settings;
    Marks(limit);
    Extend(c, [], BOOT, START, MARKED);
    assert [] + [START] == [START];
    Opens(limit);
    Extend(c, [START], MARKED, STOP, OPENED);
    assert [START] + [STOP] == [START, STOP];
    Queues(limit);
    Extend(c, [START, STOP], OPENED, FuzzerSend(EMPTY), SENT);
    assert [START, STOP] + [FuzzerSend(EMPTY)] == [START, STOP, FuzzerSend(EMPTY)];
    Delivers(limit);
    Extend(c, [START, STOP, FuzzerSend(EMPTY)], SENT, TestcaseDelivered, RUNNING);
    assert [START, STOP, FuzzerSend(EMPTY)] + [TestcaseDelivered] == FIRST;
  }

  // ---- leaving it ----

  const BARED := RUNNING.(sim := Sim(map[], 0), chan := RUNNING.chan.(statuses := [Verdict(Some(EMPTY), ExitOk)]),
                          hist := RUNNING.hist.(reported := [Verdict(Some(EMPTY), ExitOk)], removed := 1, bareStops := 1),
                          pc := Stopped)

  lemma Bares()
    ensures Moves(Settings(0), RUNNING, STOP, BARED)
  {
  }

  /** A reason-less stop really makes a second token. */
  lemma ReachesTwoTokens()
    ensures exists run :: After(Settings(0), map[], run).Some?
                          && !After(Settings(0), map[], run).value.hist.scripted
                          && Tokens(After(Settings(0), map[], run).value) == 2
  {
    ReachesFirst(0);
    Bares();
    hide After, Moves;
    Extend(Settings(0), FIRST, RUNNING, STOP, BARED);
    assert Tokens(BARED) == 2;
    assert After(Settings(0), map[], FIRST + [STOP]) == Some(BARED);
  }

  const ASKED := RUNNING.(reason := Some(ManualStop))

  lemma Asks(limit: nat)
    ensures Moves(Settings(limit), RUNNING, ScriptStop, ASKED)
  {
  }

  const LIMITED := RUNNING.(sim := Sim(map[], 0), chan := RUNNING.chan.(shutdowns := 1), counters := Counters(1, 0, 0),
                            hist := RUNNING.hist.(removed := 1, limitStops := 1), pc := Stopped)

  lemma Limits()
    ensures Moves(Settings(1), ASKED, STOP, LIMITED)
  {
  }

  /** With a limit of one the first normal stop really strands the fuzzer. */
  lemma ReachesLimit()
    ensures After(Settings(1), map[], FIRST + [ScriptStop] + [STOP]) == Some(LIMITED)
    ensures LIMITED.hist.limitStops > 0 && LIMITED.chan.fuzzer.AwaitingStatus? && !LIMITED.hist.scripted
  {
    ReachesFirst(1);
    Asks(1);
    Limits();
    hide After, Moves;
    Extend(Settings(1), FIRST, RUNNING, ScriptStop, ASKED);
    Extend(Settings(1), FIRST + [ScriptStop], ASKED, STOP, LIMITED);
  }

  /** The same after a reason-less stop, when its extra status has been answered with an extra testcase. */
  const TAKEN := BARED.(chan := Channels([], [], 0, InControl), hist := BARED.hist.(received := BARED.hist.reported))
  const EXTRA := TAKEN.(chan := Channels([EMPTY], [], 0, AwaitingStatus), hist := TAKEN.hist.(sent := [EMPTY, EMPTY]))
  const CONTINUED := EXTRA.(pc := Running)
  const ASKED_AGAIN := CONTINUED.(reason := Some(ManualStop))
  const STRANDED := CONTINUED.(chan := EXTRA.chan.(shutdowns := 1), counters := Counters(1, 0, 0),
                               hist := EXTRA.hist.(limitStops := 1), pc := Stopped)

  lemma BaresAtLimit()
    ensures Moves(Settings(1), RUNNING, STOP, BARED)
  {
  }

  lemma TakesAndSends()
    ensures Moves(Settings(1), BARED, FuzzerReceive, TAKEN) && Moves(Settings(1), TAKEN, FuzzerSend(EMPTY), EXTRA)
  {
  }

  lemma ContinuesAndAsks()
    ensures Moves(Settings(1), EXTRA, UserContinue, CONTINUED) && Moves(Settings(1), CONTINUED, ScriptStop, ASKED_AGAIN)
  {
  }

  lemma LimitsAgain()
    ensures Moves(Settings(1), ASKED_AGAIN, STOP, STRANDED)
  {
  }

  const ANSWERED_STOP: seq<Label> := FIRST + [STOP] + [FuzzerReceive] + [FuzzerSend(EMPTY)]

  lemma ReachesAnsweredStop()
    ensures After(Settings(1), map[], ANSWERED_STOP) == Some(EXTRA)
  {
    ReachesFirst(1);
    BaresAtLimit();
    TakesAndSends();
    hide After, Moves;
    Extend(Settings(1), FIRST, RUNNING, STOP, BARED);
    Extend(Settings(1), FIRST + [STOP], BARED, FuzzerReceive, TAKEN);
    Extend(Settings(1), FIRST + [STOP] + [FuzzerReceive], TAKEN, FuzzerSend(EMPTY), EXTRA);
  }

  /** A run that strands the fuzzer although it contains a reason-less stop. */
  lemma ReachesStrandedAfterBareStop()
    ensures After(Settings(1), map[], ANSWERED_STOP + [UserContinue] + [ScriptStop] + [STOP]) == Some(STRANDED)
    ensures STRANDED.hist.bareStops == 1 && STRANDED.hist.limitStops == 1 && !STRANDED.hist.scripted
    ensures forall l :: FuzzerLabel(l) ==> !Enabled(STRANDED, l)
  {
    ReachesAnsweredStop();
    ContinuesAndAsks();
    LimitsAgain();
    hide After, Moves;
    Extend(Settings(1), ANSWERED_STOP, EXTRA, UserContinue, CONTINUED);
    Extend(Settings(1), ANSWERED_STOP + [UserContinue], CONTINUED, ScriptStop, ASKED_AGAIN);
    Extend(Settings(1), ANSWERED_STOP + [UserContinue] + [ScriptStop], ASKED_AGAIN, STOP, STRANDED);
  }

  // ---- timeouts that are not reported ----

  const FIRED := RUNNING.(sim := Sim(map[], 0), hist := RUNNING.hist.(fired := 1), reason := Some(Solution(Timeout)))
  const OVERRIDDEN := FIRED.(reason := Some(Magic(StartBufferPtrSizeVal)))
  const RESUMED := FIRED.(reason := None)
  const FINISHED := FIRED.(reason := Some(Magic(StopNormal)))
  const RESTARTED := FIRED.(reason := None, chan := RUNNING.chan.(statuses := [Verdict(Some(EMPTY), ExitOk)]),
                            hist := FIRED.hist.(reported := [Verdict(Some(EMPTY), ExitOk)]),
                            counters := Counters(1, 0, 0), current := None, pc := Await(Restarting))

  lemma Fires()
    ensures Moves(Settings(0), RUNNING, TimeoutFires, FIRED)
    ensures Moves(Settings(0), FIRED, START, OVERRIDDEN) && Moves(Settings(0), FIRED, FINISH, FINISHED)
  {
  }

  lemma Resumes()
    ensures Moves(Settings(0), OVERRIDDEN, STOP, RESUMED)
  {
  }

  lemma Restarts()
    ensures Moves(Settings(0), FINISHED, STOP, RESTARTED)
  {
  }

  /** A start harness hit after the timeout: no status, no timeout pending, still running. */
  lemma ReachesSwallowedTimeout()
    ensures After(Settings(0), map[], FIRST + [TimeoutFires] + [START] + [STOP]) == Some(RESUMED)
    ensures RESUMED.pc.Running? && RESUMED.sim.pending == 0 && RESUMED.hist.reported == []
  {
    ReachesFirst(0);
    Fires();
    Resumes();
    hide After, Moves;
    Extend(Settings(0), FIRST, RUNNING, TimeoutFires, FIRED);
    Extend(Settings(0), FIRST + [TimeoutFires], FIRED, START, OVERRIDDEN);
    Extend(Settings(0), FIRST + [TimeoutFires] + [START], OVERRIDDEN, STOP, RESUMED);
  }

  /** A stop harness hit after the timeout: a normal status instead, and no timeout counted. */
  lemma ReachesMaskedTimeout()
    ensures After(Settings(0), map[], FIRST + [TimeoutFires] + [FINISH] + [STOP]) == Some(RESTARTED)
    ensures RESTARTED.hist.reported == [Verdict(Some(EMPTY), ExitOk)] && RESTARTED.counters.timeouts == 0
  {
    ReachesFirst(0);
    Fires();
    Restarts();
    hide After, Moves;
    Extend(Settings(0), FIRST, RUNNING, TimeoutFires, FIRED);
    Extend(Settings(0), FIRST + [TimeoutFires], FIRED, FINISH, FINISHED);
    Extend(Settings(0), FIRST + [TimeoutFires] + [FINISH], FINISHED, STOP, RESTARTED);
  }

  // ---- repro after an iteration ----

  const OK := Verdict(Some(EMPTY), ExitOk)
  const WAITING := RUNNING.(sim := Sim(map[], 0), chan := RUNNING.chan.(statuses := [OK]), counters := Counters(1, 0, 0),
                            hist := RUNNING.hist.(reported := [OK], removed := 1), current := None, pc := Await(Restarting))
  const ANSWERED := WAITING.(chan := Channels([], [], 0, InControl), hist := WAITING.hist.(received := [OK]))
  const RESENT := ANSWERED.(chan := Channels([EMPTY], [], 0, AwaitingStatus),
                            hist := ANSWERED.hist.(sent := [EMPTY, EMPTY]))
  const AGAIN := RESENT.(chan := Channels([], [], 0, AwaitingStatus), sim := Sim(map[], 1),
                         hist := RESENT.hist.(taken := [EMPTY, EMPTY], posted := 2), current := Some(EMPTY), pc := Running)
  const REPRO := AGAIN.(repro := Some([]), sim := Sim(map[], 2),
                        hist := AGAIN.hist.(posted := 3, overlaps := 1, scripted := true))

  lemma FinishesFirst()
    ensures Moves(Settings(0), ASKED, STOP, WAITING)
  {
  }

  lemma Answers()
    ensures Moves(Settings(0), WAITING, FuzzerReceive, ANSWERED)
    ensures Moves(Settings(0), ANSWERED, FuzzerSend(EMPTY), RESENT)
  {
  }

  lemma Redelivers()
    ensures Moves(Settings(0), RESENT, TestcaseDelivered, AGAIN)
  {
    NothingToWrite(map[]);
    hide WriteStart;
  }

  lemma Repros()
    ensures Moves(Settings(0), AGAIN, ScriptRepro([]), REPRO)
  {
    NothingToWrite(map[]);
    hide WriteStart;
  }

  const SECOND: seq<Label> := FIRST + [ScriptStop] + [STOP] + [FuzzerReceive] + [FuzzerSend(EMPTY)] + [TestcaseDelivered]

  lemma ReachesSecond()
    ensures After(Settings(0), map[], SECOND) == Some(AGAIN)
  {
    ReachesFirst(0);
    Asks(0);
    FinishesFirst();
    Answers();
    Redelivers();
    hide After, Moves;
    var c, r1 := Settings(0), FIRST + [ScriptStop];
    Extend(c, FIRST, RUNNING, ScriptStop, ASKED);
    Extend(c, r1, ASKED, STOP, WAITING);
    Extend(c, r1 + [STOP], WAITING, FuzzerReceive, ANSWERED);
    Extend(c, r1 + [STOP] + [FuzzerReceive], ANSWERED, FuzzerSend(EMPTY), RESENT);
    Extend(c, r1 + [STOP] + [FuzzerReceive] + [FuzzerSend(EMPTY)], RESENT, TestcaseDelivered, AGAIN);
  }

  /** A repro request in the middle of the second iteration: two timeouts pending and no bookmark. */
  lemma ReachesRepro()
    ensures After(Settings(0), map[], SECOND + [ScriptRepro([])]) == Some(REPRO)
    ensures REPRO.sim.pending == 2 && REPRO.hist.overlaps == 1 && REPRO.repro.Some? && !REPRO.bookmark
  {
    ReachesSecond();
    Repros();
    hide After, Moves;
    Extend(Settings(0), SECOND, AGAIN, ScriptRepro([]), REPRO);
  }

  const MOVED := AGAIN.(prevLoc := 5)
  const STALE := REPRO.(prevLoc := 5)

  lemma MovesOn()
    ensures Moves(Settings(0), AGAIN, GuestRun(map[], 5), MOVED)
  {
  }

  lemma ReprosStale()
    ensures Moves(Settings(0), MOVED, ScriptRepro([]), STALE)
  {
    NothingToWrite(map[]);
    hide WriteStart;
  }

  /** A repro request after the target has moved: its iteration begins with the old edge location. */
  lemma ReachesStaleRepro()
    ensures After(Settings(0), map[], SECOND + [GuestRun(map[], 5)] + [ScriptRepro([])]) == Some(STALE)
    ensures STALE.pc.Running? && STALE.current == Some(EMPTY) && STALE.prevLoc == 5 && !FreshIteration(STALE, EMPTY)
  {
    ReachesSecond();
    MovesOn();
    ReprosStale();
    hide After, Moves;
    Extend(Settings(0), SECOND, AGAIN, GuestRun(map[], 5), MOVED);
    Extend(Settings(0), SECOND + [GuestRun(map[], 5)], MOVED, ScriptRepro([]), STALE);
  }
}
