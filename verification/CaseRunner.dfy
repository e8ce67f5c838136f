/** Running one test case: the program under the judge, then its output against the expected
    one. */
module CaseRunners {
  import opened Submissions
  import opened OutputCompare
  import opened ParentMonitors
  import opened Sjudgers
  import opened JudgeTraces

  /** The judge's codes as verdicts; the infrastructure codes never get here. */
  function MapJudgeResultToVerdict(code: int): (v: Verdict)
    ensures v != Pending
    ensures v == AC <==> code == SUCCESS
    ensures v == SystemError <==> code == SYSTEM_ERROR
    ensures v == TLE <==> code == CPU_TIME_LIMIT_EXCEEDED || code == REAL_TIME_LIMIT_EXCEEDED
    ensures v == MLE <==> code == MEMORY_LIMIT_EXCEEDED
    ensures v == RE <==> code == RUNTIME_ERROR
    ensures v == Unknown <==> code < 0 || code > SYSTEM_ERROR
  {
    match code
    case 0 => AC
    case 1 => TLE
    case 2 => TLE
    case 3 => MLE
    case 4 => RE
    case 5 => SystemError
    case _ => Unknown
  }

  /** A test case and its limits; a limit that is not positive means none. */
  datatype CaseInput = CaseInput(seqId: int, cpuLimitMs: int, realLimitMs: int, memoryLimitKb: nat)

  /** What a case meets: the files there are, what `fork` returns, the child's world, and the
      contents of the two outputs. */
  datatype CaseWorld = CaseWorld(
    executable: string, filesExist: bool, pid: int, child: World, checker: Checker, expected: seq<int>, output: seq<int>,
    outputPath: string)

  function ConfigFor(input: CaseInput, executable: string): JudgeConfig {
    JudgeConfig(
      executable,
      if input.cpuLimitMs > 0 then input.cpuLimitMs % 0x1_0000_0000 else 0,
      if input.realLimitMs > 0 then input.realLimitMs % 0x1_0000_0000 else 0,
      if input.memoryLimitKb > 0 then input.memoryLimitKb * 1024 % 0x1_0000_0000_0000_0000 else 0)
  }

  /** The program of this case was started and left cleanly within its limits. */
  ghost predicate RanCleanly(input: CaseInput, w: CaseWorld) {
    var config := ConfigFor(input, w.executable);
    && w.executable != "" && w.pid > 0
    && exists k: nat ::
         FirstEnd(w.child, config.maxRealTimeMs, k) && w.child.poll(k).Reaped? && CleanExit(config, w.child.poll(k).death)
  }

  /** Whatever of this case is reached comes to an end: `fork` answers the parent, the monitor
      stops, and the comparison of a clean run does. */
  ghost predicate Judgeable(input: CaseInput, w: CaseWorld) {
    w.filesExist ==>
      && (w.executable != "" ==> w.pid != 0)
      && (w.executable != "" && w.pid > 0 ==> exists k: nat :: EndsAt(w.child, ConfigFor(input, w.executable).maxRealTimeMs, k))
      && (RanCleanly(input, w) ==> Compares(w.checker, w.expected, w.output))
  }

  /** The program was right on this case: it ran cleanly and its output compared equal. */
  ghost predicate Passed(input: CaseInput, w: CaseWorld) {
    w.filesExist && RanCleanly(input, w) && CompareVerdict(w.checker, w.expected, w.output) == AC
  }

  // ---------- In the units of the test case ----------

  predicate Started(w: CaseWorld) {
    w.filesExist && w.executable != "" && w.pid > 0
  }

  /** Limits as large as the source's own types make them. */
  predicate LimitsFit(input: CaseInput) {
    input.cpuLimitMs <= INT_MAX && input.realLimitMs <= INT_MAX && input.memoryLimitKb * 1024 <= 0x7FFF_FFFF_FFFF_FFFF
  }

  /** The real time the parent reads after this poll is over the limit. */
  predicate SawOver(input: CaseInput, w: CaseWorld, j: nat) {
    w.child.poll(j).StillRunning? && input.realLimitMs > 0 && AsInt(w.child.elapsed(j)) > input.realLimitMs
  }

  /** The first poll that finds the child ended, fails, or sees it over its real time. */
  ghost predicate EndedAt(input: CaseInput, w: CaseWorld, k: nat) {
    && (!w.child.poll(k).StillRunning? || SawOver(input, w, k))
    && (forall j: nat :: j < k ==> w.child.poll(j).StillRunning? && !SawOver(input, w, j))
  }

  predicate OverMemoryLimit(input: CaseInput, death: Death) {
    input.memoryLimitKb > 0 && death.usage.maxRssKb > input.memoryLimitKb
  }

  predicate OverCpuLimit(input: CaseInput, death: Death) {
    input.cpuLimitMs > 0 && CpuMicroseconds(death.usage) / 1000 > input.cpuLimitMs
  }

  /** The exit codes taken for a failed setup of the child. */
  predicate SetupCode(status: ExitStatus) {
    status in {Exited(5), Exited(6), Exited(7), Exited(8), Exited(11), Exited(12), Exited(13), Exited(14), Exited(15), Exited(16)}
  }

  /** With a memory limit, aborts, kills, segmentation faults and a missing program count
      as memory. */
  predicate MemoryLike(input: CaseInput, status: ExitStatus) {
    input.memoryLimitKb > 0 && status in {Signaled(6), Signaled(9), Signaled(11), Exited(127)}
  }

  predicate Clean(status: ExitStatus) {
    status == Exited(0) || status == Signaled(0)
  }

  /** The verdict on a child that ended by itself. */
  ghost predicate OwnEnd(input: CaseInput, w: CaseWorld, death: Death, v: Verdict) {
    var mem, cpu, status := OverMemoryLimit(input, death), OverCpuLimit(input, death), death.status;
    && (v == SystemError <==> SetupCode(status))
    && (v == MLE <==> !SetupCode(status) && (mem || (!cpu && MemoryLike(input, status))))
    && (v == TLE <==> !SetupCode(status) && !mem && cpu)
    && (v == RE <==> !SetupCode(status) && !mem && !cpu && !MemoryLike(input, status) && !Clean(status))
    && (v == AC <==> !mem && !cpu && Clean(status) && CompareVerdict(w.checker, w.expected, w.output) == AC)
    && (v == WA <==> !mem && !cpu && Clean(status) && CompareVerdict(w.checker, w.expected, w.output) != AC)
  }

  /** What is reported of the child: whole milliseconds of CPU time, its peak memory, its exit
      code and signal, and the time the parent read. */
  predicate MeasuresReported(r: CaseResult, death: Death, elapsed: int, standIn: int) {
    && r.cpuTimeMs * 1000 <= CpuMicroseconds(death.usage) < r.cpuTimeMs * 1000 + 1000
    && r.memoryKb == death.usage.maxRssKb && r.realTimeMs == AsInt(elapsed)
    && r.exitCode == (if death.status.Exited? then death.status.code else 0)
    && r.signal == if death.status.Signaled? && death.status.signal != 0 then death.status.signal else standIn
  }

  predicate CpuFits(death: Death) {
    CpuMicroseconds(death.usage) / 1000 <= INT_MAX
  }

  /** The case result, given the poll that ended the child: over its real time is TLE. */
  ghost predicate Explained(input: CaseInput, w: CaseWorld, k: nat, r: CaseResult) {
    match w.child.poll(k)
    case WaitError => r.verdict == SystemError
    case StillRunning =>
      if w.child.killed.None? then r.verdict == SystemError
      else r.verdict == TLE && (CpuFits(w.child.killed.value) ==> MeasuresReported(r, w.child.killed.value, w.child.elapsedAtKill, 9))
    case Reaped(death) => CpuFits(death) ==> OwnEnd(input, w, death, r.verdict) && MeasuresReported(r, death, w.child.elapsed(k), 0)
  }

  lemma LimitsInUnits(input: CaseInput, w: CaseWorld, death: Death)
    requires LimitsFit(input) && CpuFits(death)
    ensures
      var config := ConfigFor(input, w.executable);
      && (WithinMemory(config, death) <==> !OverMemoryLimit(input, death))
      && (WithinCpu(config, death) <==> !OverCpuLimit(input, death))
      && (config.maxMemoryBytes > 0 <==> input.memoryLimitKb > 0)
  {
  }

  lemma EndsInUnits(input: CaseInput, w: CaseWorld, k: nat)
    ensures LimitsFit(input) ==> (FirstEnd(w.child, ConfigFor(input, w.executable).maxRealTimeMs, k) <==> EndedAt(input, w, k))
  {
    var limit := ConfigFor(input, w.executable).maxRealTimeMs;
    if LimitsFit(input) {
      forall j: nat
        ensures EndsAt(w.child, limit, j) <==> !w.child.poll(j).StillRunning? || SawOver(input, w, j)
      {
      }
      if EndedAt(input, w, k) {
        assert forall j: nat :: j < k ==> !EndsAt(w.child, limit, j);
      }
      if FirstEnd(w.child, limit, k) {
        assert forall j: nat :: j < k ==> !EndsAt(w.child, limit, j) && w.child.poll(j).StillRunning? && !SawOver(input, w, j);
      }
    }
  }

  lemma ExplainedByUnits(input: CaseInput, w: CaseWorld, k: nat, judged: JudgeResult, r: CaseResult)
    requires LimitsFit(input) && EndedAt(input, w, k) && Classified(ConfigFor(input, w.executable), w.child, k, judged)
    requires r.cpuTimeMs == judged.cpuTimeMs && r.realTimeMs == judged.realTimeMs && r.signal == judged.signal && r.exitCode == judged.exitCode
    requires r.memoryKb == if judged.memoryBytes > 0 then judged.memoryBytes / 1024 else 0
    requires r.verdict == if judged.result == SUCCESS then CompareVerdict(w.checker, w.expected, w.output) else MapJudgeResultToVerdict(judged.result)
    ensures Explained(input, w, k, r)
  {
    match w.child.poll(k)
    case Reaped(death) =>
      if CpuFits(death) {
        LimitsInUnits(input, w, death);
        assert death.status.Exited? && IsChildSetupError(death.status.code) <==> SetupCode(death.status);
      }
    case _ =>
  }

  /** `run_executable_case`. A case is accepted exactly when its files exist, the program ran
      cleanly and its output compares equal; it is never left pending. */
  method RunExecutableCase(input: CaseInput, w: CaseWorld) returns (r: CaseRun)
    requires Judgeable(input, w)
    ensures r.result.seqId == input.seqId && r.result.verdict != Pending
    ensures r.result.verdict == AC <==> Passed(input, w)
    ensures r.result.verdict == WA <==> w.filesExist && RanCleanly(input, w) && !Passed(input, w)
    ensures r.result.errorCode != 0 ==> r.result.verdict == SystemError
    ensures !Started(w) ==> r.result.verdict == SystemError && r.result.cpuTimeMs == r.result.realTimeMs == r.result.memoryKb == 0
    ensures Started(w) && LimitsFit(input) ==> exists k: nat :: EndedAt(input, w, k) && Explained(input, w, k, r.result)
  {
    r := CaseRun(CaseResult(input.seqId, Pending, 0, 0, 0, 0, 0, 0), "");
    if !w.filesExist {
      return CaseRun(r.result.(verdict := SystemError), "missing executable or case files");
    }
    var config := ConfigFor(input, w.executable);
    var judged := RunSjudger(config, w.pid, w.child);
    CleanlyMeansSuccess(input, w, judged);
    ghost var k: nat := 0;
    if Started(w) {
      k :| FirstEnd(w.child, config.maxRealTimeMs, k) && Classified(config, w.child, k, judged);
      EndsInUnits(input, w, k);
    }
    var verdict := MapJudgeResultToVerdict(judged.result);
    r := r.(result := CaseResult(
      input.seqId, verdict, judged.cpuTimeMs, judged.realTimeMs, if judged.memoryBytes > 0 then judged.memoryBytes / 1024 else 0,
      judged.signal, judged.exitCode, judged.error));
    if judged.result == SYSTEM_ERROR {
      r := r.(message := "failed to execute in-process sjudger");
    } else if verdict == AC {
      verdict := CompareCaseOutput(w.checker, w.expected, w.output);
      r := CaseRun(r.result.(verdict := verdict), if verdict == AC then w.outputPath else "output mismatch");
    }
    if Started(w) && LimitsFit(input) {
      ExplainedByUnits(input, w, k, judged, r.result);
    }
  }

  lemma CleanlyMeansSuccess(input: CaseInput, w: CaseWorld, judged: JudgeResult)
    requires w.executable != "" ==> w.pid != 0
    requires w.executable == "" || w.pid < 0 ==> judged.result == SYSTEM_ERROR
    requires
      var config := ConfigFor(input, w.executable);
      w.executable != "" && w.pid > 0 ==>
        exists k: nat :: FirstEnd(w.child, config.maxRealTimeMs, k) && Classified(config, w.child, k, judged)
    ensures judged.result == SUCCESS <==> RanCleanly(input, w)
  {
  }

  /** Running cleanly, in those units. */
  ghost predicate LeftCleanly(input: CaseInput, w: CaseWorld, k: nat) {
    && EndedAt(input, w, k) && w.child.poll(k).Reaped? && Clean(w.child.poll(k).death.status)
    && !OverMemoryLimit(input, w.child.poll(k).death) && !OverCpuLimit(input, w.child.poll(k).death)
  }

  lemma RanCleanlyInUnits(input: CaseInput, w: CaseWorld)
    requires LimitsFit(input) && forall k: nat :: w.child.poll(k).Reaped? ==> CpuFits(w.child.poll(k).death)
    ensures RanCleanly(input, w) <==> w.executable != "" && w.pid > 0 && exists k: nat :: LeftCleanly(input, w, k)
  {
    var config := ConfigFor(input, w.executable);
    forall k: nat
      ensures LeftCleanly(input, w, k) <==>
              FirstEnd(w.child, config.maxRealTimeMs, k) && w.child.poll(k).Reaped? && CleanExit(config, w.child.poll(k).death)
    {
      EndsInUnits(input, w, k);
      if w.child.poll(k).Reaped? {
        LimitsInUnits(input, w, w.child.poll(k).death);
      }
    }
    if k: nat :| LeftCleanly(input, w, k) {
      assert FirstEnd(w.child, config.maxRealTimeMs, k);
    }
  }

  // ---------- A whole submission ----------

  /** What the runner reports for each case. */
  ghost predicate Reported(inputs: seq<CaseInput>, worlds: seq<CaseWorld>, runs: seq<Outcome<CaseRun>>) {
    && |inputs| == |worlds| == |runs|
    && forall k :: 0 <= k < |runs| ==> ReportedAt(inputs[k], worlds[k], runs[k])
  }

  ghost predicate ReportedAt(input: CaseInput, w: CaseWorld, run: Outcome<CaseRun>) {
    run.Returned? && run.value.result.verdict != Pending && (run.value.result.verdict == AC <==> Passed(input, w))
  }

  method RunAllCases(inputs: seq<CaseInput>, worlds: seq<CaseWorld>) returns (runs: seq<Outcome<CaseRun>>)
    requires |inputs| == |worlds| && forall k :: 0 <= k < |inputs| ==> Judgeable(inputs[k], worlds[k])
    ensures Reported(inputs, worlds, runs)
  {
    runs := [];
    for i := 0 to |inputs|
      invariant Reported(inputs[..i], worlds[..i], runs)
    {
      assert Judgeable(inputs[i], worlds[i]);
      var run := RunCase(inputs[i], worlds[i]);
      ReportedMore(inputs[..i + 1], worlds[..i + 1], runs, run);
      runs := runs + [run];
    }
    assert inputs[..|inputs|] == inputs && worlds[..|inputs|] == worlds;
  }

  lemma ReportedMore(inputs: seq<CaseInput>, worlds: seq<CaseWorld>, runs: seq<Outcome<CaseRun>>, run: Outcome<CaseRun>)
    requires |inputs| == |worlds| == |runs| + 1
    requires Reported(inputs[..|runs|], worlds[..|runs|], runs) && ReportedAt(inputs[|runs|], worlds[|runs|], run)
    ensures Reported(inputs, worlds, runs + [run])
  {
    forall k | 0 <= k < |runs|
      ensures ReportedAt(inputs[k], worlds[k], runs[k])
    {
      assert ReportedAt(inputs[..|runs|][k], worlds[..|runs|][k], runs[k]);
    }
  }

  method RunCase(input: CaseInput, w: CaseWorld) returns (run: Outcome<CaseRun>)
    requires Judgeable(input, w)
    ensures ReportedAt(input, w, run)
  {
    var r := RunExecutableCase(input, w);
    run := Returned(r);
  }

  /** A failed compilation is reported as CE or as a system error. */
  predicate HonestCompiler(script: Script) {
    script.compile.Returned? && !script.compile.value.ok ==> script.compile.value.verdict in {CE, SystemError}
  }

  /** End to end: a submission finishes with AC exactly when its language has a runner, it was
      prepared and compiled, there was a case, and it passed every one. */
  lemma AcceptedEndToEnd(id: int, script: Script, inputs: seq<CaseInput>, worlds: seq<CaseWorld>)
    requires HonestCompiler(script) && script.cases.Returned? && Reported(inputs, worlds, script.cases.value)
    ensures Trace(id, script) != []
    ensures
      var last := Last(Trace(id, script));
      last.status == Finished && last.verdict == AC <==>
        && Ready(script) && script.compile.value.ok && inputs != []
        && (forall k :: 0 <= k < |inputs| ==> Passed(inputs[k], worlds[k]))
  {
    AcceptedExactlyWhen(id, script);
    if inputs != [] {
      AllPassed(inputs, worlds, script.cases.value);
    }
  }

  lemma AllPassed(inputs: seq<CaseInput>, worlds: seq<CaseWorld>, runs: seq<Outcome<CaseRun>>)
    requires Reported(inputs, worlds, runs) && runs != []
    ensures CasesAccepted(Returned(runs)) <==> forall k :: 0 <= k < |inputs| ==> Passed(inputs[k], worlds[k])
  {
    assert forall k :: 0 <= k < |runs| ==> ReportedAt(inputs[k], worlds[k], runs[k]);
    assert AllReturned(runs);
    var r := Results(runs);
    forall k | 0 <= k < |runs|
      ensures r[k].verdict == AC <==> Passed(inputs[k], worlds[k])
      ensures r[k].verdict != Pending
    {
    }
    if forall k :: 0 <= k < |inputs| ==> Passed(inputs[k], worlds[k]) {
      assert r[0].verdict == AC;
    }
  }

  /** On plain files passing does not depend on the checker: the output agrees with the
      expected one line by line after trimming. */
  lemma PassedByLines(input: CaseInput, w: CaseWorld)
    requires Plain(w.expected) && Plain(w.output)
    ensures Passed(input, w) <==>
            w.filesExist && RanCleanly(input, w) && forall k: nat :: LineAt(w.expected, k) == LineAt(w.output, k)
  {
    VerdictIndependentOfChecker(w.checker, w.expected, w.output);
  }
}
