/** Running one program under limits and classifying how it ended. */
module Sjudgers {
  import opened ParentMonitors

  // The result codes; the error codes follow them in the same enumeration.
  const SUCCESS := 0
  const CPU_TIME_LIMIT_EXCEEDED := 1
  const REAL_TIME_LIMIT_EXCEEDED := 2
  const MEMORY_LIMIT_EXCEEDED := 3
  const RUNTIME_ERROR := 4
  const SYSTEM_ERROR := 5
  const INVALID_CONFIG := 7
  const FORK_FAILED := 8
  const LOAD_SECCOMP_FAILED := 11
  const SETRLIMIT_FAILED := 12
  const CGROUP_FAILED := 13
  const DUP2_FAILED := 14
  const SETUID_FAILED := 15
  const EXECVE_FAILED := 16

  const SHELL_NOT_FOUND := 127

  type uint64 = x: int | 0 <= x < 0x1_0000_0000_0000_0000

  /** A conversion to a 64-bit `long long`. */
  function AsLongLong(x: int): int {
    (x + 0x8000_0000_0000_0000) % 0x1_0000_0000_0000_0000 - 0x8000_0000_0000_0000
  }

  datatype JudgeConfig = JudgeConfig(exePath: string, maxCpuTimeMs: uint32, maxRealTimeMs: uint32, maxMemoryBytes: uint64)

  datatype JudgeResult = JudgeResult(
    cpuTimeMs: int, realTimeMs: int, memoryBytes: int, signal: int, exitCode: int, error: int, result: int)

  const UNSET := JudgeResult(0, 0, 0, 0, 0, 0, SYSTEM_ERROR)

  predicate IsChildSetupError(exitCode: int) {
    exitCode in {
      SYSTEM_ERROR, WAIT_FAILED, INVALID_CONFIG, FORK_FAILED, LOAD_SECCOMP_FAILED, SETRLIMIT_FAILED, CGROUP_FAILED,
      DUP2_FAILED, SETUID_FAILED, EXECVE_FAILED
    }
  }

  predicate OverMemory(config: JudgeConfig, m: MonitorResult) {
    config.maxMemoryBytes > 0 && m.memoryBytes > AsLongLong(config.maxMemoryBytes)
  }

  predicate OverCpu(config: JudgeConfig, m: MonitorResult) {
    config.maxCpuTimeMs > 0 && m.cpuTimeMs > AsInt(config.maxCpuTimeMs)
  }

  /** `map_monitor_result_to_judge_code`: the verdict codes, in order of precedence. */
  function MapMonitorResult(config: JudgeConfig, m: MonitorResult): (code: int)
    ensures SUCCESS <= code <= RUNTIME_ERROR
    ensures code == REAL_TIME_LIMIT_EXCEEDED <==> m.timedOut
    ensures code == SUCCESS <==>
              !m.timedOut && !OverMemory(config, m) && !OverCpu(config, m) && m.signal == 0 && m.exitCode == 0
    ensures code == CPU_TIME_LIMIT_EXCEEDED <==> !m.timedOut && !OverMemory(config, m) && OverCpu(config, m)
  {
    if m.timedOut then REAL_TIME_LIMIT_EXCEEDED
    else if OverMemory(config, m) then MEMORY_LIMIT_EXCEEDED
    else if OverCpu(config, m) then CPU_TIME_LIMIT_EXCEEDED
    else if config.maxMemoryBytes > 0 && (m.signal == SIGSEGV || m.signal == SIGABRT || m.signal == SIGKILL) then MEMORY_LIMIT_EXCEEDED
    else if config.maxMemoryBytes > 0 && m.exitCode == SHELL_NOT_FOUND then MEMORY_LIMIT_EXCEEDED
    else if m.signal != 0 || m.exitCode != 0 then RUNTIME_ERROR
    else SUCCESS
  }

  predicate WithinMemory(config: JudgeConfig, death: Death) {
    config.maxMemoryBytes > 0 ==> death.usage.maxRssKb * 1024 <= AsLongLong(config.maxMemoryBytes)
  }

  predicate WithinCpu(config: JudgeConfig, death: Death) {
    config.maxCpuTimeMs > 0 ==> TimevalToMs(death.usage) <= AsInt(config.maxCpuTimeMs)
  }

  /** The child ended by itself with code 0, within its CPU time and its memory. */
  predicate CleanExit(config: JudgeConfig, death: Death) {
    (death.status == Exited(0) || death.status == Signaled(0)) && WithinMemory(config, death) && WithinCpu(config, death)
  }

  /** With a memory limit set, these ends are put down to memory even below it. */
  predicate LooksLikeMemory(config: JudgeConfig, death: Death) {
    config.maxMemoryBytes > 0 && death.status in {Signaled(SIGSEGV), Signaled(SIGABRT), Signaled(SIGKILL), Exited(SHELL_NOT_FOUND)}
  }

  /** The judge has itself to blame: waiting failed, or the program left by itself with one of
      the setup codes - which a submitted program may also return of its own. */
  predicate OwnFault(world: World, k: nat) {
    match world.poll(k)
    case Reaped(death) => death.status.Exited? && IsChildSetupError(death.status.code)
    case WaitError => true
    case StillRunning => world.killed.None?
  }

  /** What the result says about a child whose monitoring ended at poll `k`. A child killed on
      timeout and reaped is over its real time whatever exit code it left. */
  ghost predicate Classified(config: JudgeConfig, world: World, k: nat, r: JudgeResult) {
    && (r.result == SUCCESS <==> world.poll(k).Reaped? && CleanExit(config, world.poll(k).death))
    && (r.result == SYSTEM_ERROR <==> OwnFault(world, k))
    && (r.result == REAL_TIME_LIMIT_EXCEEDED <==> world.poll(k).StillRunning? && world.killed.Some?)
    && (r.result == MEMORY_LIMIT_EXCEEDED <==>
          && world.poll(k).Reaped? && !OwnFault(world, k)
          && (!WithinMemory(config, world.poll(k).death)
              || (WithinCpu(config, world.poll(k).death) && LooksLikeMemory(config, world.poll(k).death))))
    && (r.result == CPU_TIME_LIMIT_EXCEEDED <==>
          && world.poll(k).Reaped? && !OwnFault(world, k)
          && WithinMemory(config, world.poll(k).death) && !WithinCpu(config, world.poll(k).death))
    && SUCCESS <= r.result <= SYSTEM_ERROR
    && (world.poll(k).WaitError? || (world.poll(k).StillRunning? && world.killed.None?) ==> r.error == WAIT_FAILED)
    && (world.poll(k).Reaped? && OwnFault(world, k) ==> r.error == world.poll(k).death.status.code)
    && (world.poll(k).Reaped? ==> Measures(r, world.poll(k).death, world.elapsed(k), 0))
    && (world.poll(k).StillRunning? && world.killed.Some? ==> Measures(r, world.killed.value, world.elapsedAtKill, SIGKILL))
  }

  /** What is passed on: `standIn` is the signal of a child that left none. */
  predicate Measures(r: JudgeResult, death: Death, elapsed: int, standIn: int) {
    && r.cpuTimeMs == TimevalToMs(death.usage) && r.memoryBytes == death.usage.maxRssKb * 1024 && r.realTimeMs == AsInt(elapsed)
    && r.exitCode == (if death.status.Exited? then death.status.code else 0)
    && r.signal == if death.status.Signaled? && death.status.signal != 0 then death.status.signal else standIn
  }

  /** `run_sjudger`, given what `fork` returned and the world the child runs in. */
  method RunSjudger(config: JudgeConfig, pid: int, world: World) returns (r: JudgeResult)
    requires config.exePath != "" ==> pid != 0
    requires config.exePath != "" && pid > 0 ==> exists k: nat :: EndsAt(world, config.maxRealTimeMs, k)
    ensures r.result == SYSTEM_ERROR <==> r.error != 0
    ensures config.exePath == "" ==> r == UNSET.(error := INVALID_CONFIG)
    ensures config.exePath != "" && pid < 0 ==> r == UNSET.(error := FORK_FAILED)
    ensures config.exePath != "" && pid > 0 ==>
              exists k: nat :: FirstEnd(world, config.maxRealTimeMs, k) && Classified(config, world, k, r)
  {
    r := UNSET;
    if config.exePath == "" {
      return r.(error := INVALID_CONFIG);
    }
    if pid < 0 {
      return r.(error := FORK_FAILED);
    }
    var m, reaps := MonitorChildProcess(world, config.maxRealTimeMs);
    ghost var k: nat :| FirstEnd(world, config.maxRealTimeMs, k) && Observed(world, config.maxRealTimeMs, k, m, reaps);
    r := r.(cpuTimeMs := m.cpuTimeMs, realTimeMs := m.realTimeMs, memoryBytes := m.memoryBytes, signal := m.signal, exitCode := m.exitCode);
    if m.error != 0 {
      r := r.(error := m.error);
    } else if r.signal == 0 && r.exitCode != 0 && IsChildSetupError(r.exitCode) {
      r := r.(error := r.exitCode);
    } else {
      r := r.(result := MapMonitorResult(config, m));
    }
    ClassifiedBy(config, world, k, m, reaps, r);
  }

  lemma ClassifiedBy(config: JudgeConfig, world: World, k: nat, m: MonitorResult, reaps: nat, r: JudgeResult)
    requires FirstEnd(world, config.maxRealTimeMs, k) && Observed(world, config.maxRealTimeMs, k, m, reaps)
    requires r.cpuTimeMs == m.cpuTimeMs && r.realTimeMs == m.realTimeMs && r.memoryBytes == m.memoryBytes
    requires r.signal == m.signal && r.exitCode == m.exitCode
    requires
      if m.error != 0 then r.error == m.error && r.result == SYSTEM_ERROR
      else if m.signal == 0 && m.exitCode != 0 && IsChildSetupError(m.exitCode) then r.error == m.exitCode && r.result == SYSTEM_ERROR
      else r.error == 0 && r.result == MapMonitorResult(config, m)
    ensures Classified(config, world, k, r) && (r.result == SYSTEM_ERROR <==> r.error != 0)
  {
    match world.poll(k)
    case Reaped(death) =>
      assert OverMemory(config, m) <==> !WithinMemory(config, death);
      assert OverCpu(config, m) <==> !WithinCpu(config, death);
    case _ =>
  }
}
