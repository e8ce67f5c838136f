/** Watching a child process: polling for its end, killing it when its real time is over. */
module ParentMonitors {
  import opened Wrappers

  const INT_MIN := -0x8000_0000
  const INT_MAX := 0x7FFF_FFFF
  const SIGABRT := 6
  const SIGKILL := 9
  const SIGSEGV := 11
  const WAIT_FAILED := 6

  /** A conversion to a 32-bit `int`. */
  function AsInt(x: int): (r: int)
    ensures INT_MIN <= r <= INT_MAX
    ensures INT_MIN <= x <= INT_MAX ==> r == x
  {
    (x + 0x8000_0000) % 0x1_0000_0000 - 0x8000_0000
  }

  type uint32 = x: int | 0 <= x < 0x1_0000_0000

  /** How the child ended, and what it used. */
  datatype ExitStatus = Exited(code: int) | Signaled(signal: int)
  datatype Usage = Usage(seconds: nat, microseconds: nat, maxRssKb: nat)
  datatype Death = Death(status: ExitStatus, usage: Usage)

  /** One non-blocking `wait4`. */
  datatype Poll = StillRunning | Reaped(death: Death) | WaitError

  /** The world the monitor runs in: the outcome of each poll, the milliseconds since the start
      at the clock reading that follows it, and what waiting for a killed child gives. */
  datatype World = World(poll: nat -> Poll, elapsed: nat -> int, killed: Option<Death>, elapsedAtKill: int)

  datatype MonitorResult = MonitorResult(
    status: Option<ExitStatus>, signal: int, exitCode: int, cpuTimeMs: int, realTimeMs: int, memoryBytes: int, timedOut: bool, error: int)

  const BLANK := MonitorResult(None, 0, 0, 0, 0, 0, false, 0)

  function CpuMicroseconds(u: Usage): nat {
    u.seconds * 1_000_000 + u.microseconds
  }

  function TimevalToMs(u: Usage): (ms: int)
    ensures CpuMicroseconds(u) / 1000 <= INT_MAX ==> ms * 1000 <= CpuMicroseconds(u) < ms * 1000 + 1000
  {
    AsInt(u.seconds * 1000 + u.microseconds / 1000)
  }

  function Filled(result: MonitorResult, death: Death, elapsed: int): MonitorResult {
    result.(
      status := Some(death.status),
      signal := if death.status.Signaled? then death.status.signal else 0,
      exitCode := if death.status.Exited? then death.status.code else 0,
      cpuTimeMs := TimevalToMs(death.usage), realTimeMs := AsInt(elapsed), memoryBytes := death.usage.maxRssKb * 1024)
  }

  /** The comparison is made on `int`, so the limit wraps as well. */
  predicate RealTimeLimitExceeded(elapsedMs: int, limit: uint32) {
    limit > 0 && elapsedMs > AsInt(limit)
  }

  // ---------- What one run of the monitor comes to ----------

  predicate TimesOutAt(world: World, limit: uint32, k: nat) {
    world.poll(k).StillRunning? && RealTimeLimitExceeded(AsInt(world.elapsed(k)), limit)
  }

  predicate EndsAt(world: World, limit: uint32, k: nat) {
    !world.poll(k).StillRunning? || TimesOutAt(world, limit, k)
  }

  ghost predicate FirstEnd(world: World, limit: uint32, k: nat) {
    EndsAt(world, limit, k) && forall j: nat :: j < k ==> !EndsAt(world, limit, j)
  }

  /** The facts about the result, given the poll the loop ended at. */
  ghost predicate Observed(world: World, limit: uint32, k: nat, r: MonitorResult, reaps: nat) {
    && r.timedOut == TimesOutAt(world, limit, k)
    && (r.error == 0 || r.error == WAIT_FAILED)
    && (r.error == 0 <==> world.poll(k).Reaped? || (r.timedOut && world.killed.Some?))
    && reaps == (if r.error == 0 then 1 else 0)
    && (r.error == 0 ==>
          var death := if r.timedOut then world.killed.value else world.poll(k).death;
          && Describes(r, death) && r.realTimeMs == AsInt(if r.timedOut then world.elapsedAtKill else world.elapsed(k))
          && (death.status.Exited? || death.status.signal == 0 ==> r.signal == if r.timedOut then SIGKILL else 0))
  }

  /** The fields that come from how the child ended and what it used. */
  predicate Describes(r: MonitorResult, death: Death) {
    && r.status == Some(death.status)
    && (death.status.Exited? ==> r.exitCode == death.status.code)
    && (death.status.Signaled? ==> r.exitCode == 0 && (death.status.signal != 0 ==> r.signal == death.status.signal))
    && r.cpuTimeMs == TimevalToMs(death.usage) && r.memoryBytes == death.usage.maxRssKb * 1024
  }

  /** `collect_killed_child`: once reaped the child always carries a signal, its own or SIGKILL,
      beside the exit code and the measures it left; otherwise only the error is set. */
  method CollectKilledChild(world: World, result: MonitorResult) returns (ok: bool, r: MonitorResult)
    ensures ok <==> world.killed.Some?
    ensures r.timedOut == result.timedOut
    ensures ok ==> r.error == result.error && r.signal != 0 && Describes(r, world.killed.value)
    ensures ok ==> r.realTimeMs == AsInt(world.elapsedAtKill)
    ensures ok && (world.killed.value.status.Exited? || world.killed.value.status.signal == 0) ==> r.signal == SIGKILL
    ensures !ok ==> r.error == WAIT_FAILED && r.status == result.status && r.signal == result.signal
  {
    if world.killed.None? {
      return false, result.(error := WAIT_FAILED);
    }
    r := Filled(result, world.killed.value, world.elapsedAtKill);
    if r.signal == 0 {
      r := r.(signal := SIGKILL);
    }
    ok := true;
  }

  /** `monitor_child_process`. It ends exactly when some poll finds the child ended, fails, or
      sees the time exceeded, and then reflects the first such poll. `reaps` counts the
      successful waits. */
  method MonitorChildProcess(world: World, limit: uint32) returns (result: MonitorResult, reaps: nat)
    requires exists k: nat :: EndsAt(world, limit, k)
    ensures exists k: nat :: FirstEnd(world, limit, k) && Observed(world, limit, k, result, reaps)
  {
    ghost var last: nat :| EndsAt(world, limit, last);
    result, reaps := BLANK, 0;
    var k := 0;
    while true
      invariant k <= last && forall j: nat :: j < k ==> !EndsAt(world, limit, j)
      invariant result == BLANK.(realTimeMs := result.realTimeMs) && reaps == 0
      decreases last - k
    {
      match world.poll(k) {
        case Reaped(death) =>
          result, reaps := Filled(result, death, world.elapsed(k)), 1;
          break;
        case WaitError =>
          result := result.(error := WAIT_FAILED);
          break;
        case StillRunning =>
          result := result.(realTimeMs := AsInt(world.elapsed(k)));
          if RealTimeLimitExceeded(result.realTimeMs, limit) {
            var ok;
            ok, result := CollectKilledChild(world, result.(timedOut := true));
            reaps := if ok then 1 else 0;
            break;
          }
          k := k + 1;
      }
    }
    assert FirstEnd(world, limit, k) && Observed(world, limit, k, result, reaps);
  }

  // ---------- When it ends ----------

  /** A clock that moves on at every poll, by at most `gap` milliseconds. */
  ghost predicate Advancing(world: World, gap: nat) {
    0 <= world.elapsed(0) <= gap && forall k: nat :: world.elapsed(k) < world.elapsed(k + 1) <= world.elapsed(k) + gap
  }

  lemma {:induction false} ElapsedGrows(world: World, gap: nat, k: nat)
    requires Advancing(world, gap)
    ensures world.elapsed(k) >= k
  {
    if k > 0 {
      ElapsedGrows(world, gap, k - 1);
      assert world.elapsed(k - 1) < world.elapsed(k - 1 + 1);
    }
  }

  /** The first reading past the limit is within one gap of it. */
  lemma {:induction false} CrossesLimit(world: World, gap: nat, limit: nat, k: nat) returns (j: nat)
    requires Advancing(world, gap) && world.elapsed(k) > limit
    ensures limit < world.elapsed(j) <= limit + gap
  {
    if k == 0 || world.elapsed(k - 1) <= limit {
      j := k;
      assert k > 0 ==> world.elapsed(k - 1 + 1) <= world.elapsed(k - 1) + gap;
    } else {
      j := CrossesLimit(world, gap, limit, k - 1);
    }
  }

  lemma MonitorEnds(world: World, limit: uint32, gap: nat)
    requires Advancing(world, gap) && limit >= 1 && limit + gap <= INT_MAX
    ensures exists k: nat :: EndsAt(world, limit, k)
  {
    ElapsedGrows(world, gap, limit + 1);
    var j := CrossesLimit(world, gap, limit, limit + 1);
    assert world.poll(j).StillRunning? ==> TimesOutAt(world, limit, j);
    assert EndsAt(world, limit, j);
  }

  /** A clock that steps from the limit straight past the largest `int`, cycle after cycle. */
  function Skipping(limit: nat, k: nat): nat {
    if k == 0 then 0
    else
      var before := Skipping(limit, k - 1);
      if AsInt(before) == limit then before + (INT_MAX + 1 - limit) else before + 1
  }

  lemma {:induction false} SkippingStaysBelow(limit: nat, k: nat)
    requires limit <= INT_MAX
    ensures AsInt(Skipping(limit, k)) <= limit
  {
    if k > 0 {
      SkippingStaysBelow(limit, k - 1);
      AsIntSteps(Skipping(limit, k - 1));
    }
  }

  lemma AsIntSteps(x: int)
    ensures AsInt(x) < INT_MAX ==> AsInt(x + 1) == AsInt(x) + 1
    ensures AsInt(x + (INT_MAX + 1 - AsInt(x))) == INT_MIN
  {
    var q := (x + 0x8000_0000) / 0x1_0000_0000;
    assert x == q * 0x1_0000_0000 + AsInt(x);
  }

  /** A child that never ends, watched by that clock. */
  lemma NeverEnds(limit: uint32, gap: nat) returns (world: World)
    requires gap >= 1 && limit <= INT_MAX && !(limit >= 1 && limit + gap <= INT_MAX)
    ensures Advancing(world, gap) && forall k: nat :: !EndsAt(world, limit, k)
  {
    var top: nat := if limit == 0 then INT_MAX else limit;
    world := World(_ => StillRunning, (k: nat) => Skipping(top, k), None, 0);
    forall k: nat
      ensures world.elapsed(k) < world.elapsed(k + 1) <= world.elapsed(k) + gap
    {
      assert Skipping(top, k + 1) > Skipping(top, k);
    }
    forall k: nat
      ensures !EndsAt(world, limit, k)
    {
      SkippingStaysBelow(top, k);
    }
  }

  /** For limits an `int` holds, every clock that advances by at most `gap` at each poll ends
      the monitor, whatever the child does, if and only if there is a limit and it lies at
      least one gap below 2^31 - 1. */
  lemma MonitorEndsExactly(limit: uint32, gap: nat)
    requires gap >= 1 && limit <= INT_MAX
    ensures (forall world: World :: Advancing(world, gap) ==> exists k: nat :: EndsAt(world, limit, k)) <==>
            limit >= 1 && limit + gap <= INT_MAX
  {
    if limit >= 1 && limit + gap <= INT_MAX {
      forall world: World | Advancing(world, gap)
        ensures exists k: nat :: EndsAt(world, limit, k)
      {
        MonitorEnds(world, limit, gap);
      }
    } else {
      var world := NeverEnds(limit, gap);
    }
  }

  /** A limit can be exceeded at all exactly when it is neither 0, which means unlimited, nor
      the largest `int`, which no `int` exceeds. */
  lemma TimeoutPossibleExactly(limit: uint32)
    ensures (exists ms: int :: RealTimeLimitExceeded(AsInt(ms), limit)) <==> limit != 0 && limit != INT_MAX
  {
    if limit != 0 && limit != INT_MAX {
      assert AsInt(limit) != INT_MAX;
      assert RealTimeLimitExceeded(AsInt(INT_MAX), limit);
    }
  }

  /** With such a limit the monitor ends exactly when the child does or waiting fails. */
  lemma UnlimitedEndsWithChild(world: World, limit: uint32)
    requires limit == 0 || limit == INT_MAX
    ensures (exists k: nat :: EndsAt(world, limit, k)) <==> exists k: nat :: !world.poll(k).StillRunning?
  {
    if k: nat :| EndsAt(world, limit, k) {
      assert !TimesOutAt(world, limit, k);
    }
    if k: nat :| !world.poll(k).StillRunning? {
      assert EndsAt(world, limit, k);
    }
  }

  /** A limit of 2^31 or more turns negative and is exceeded at once. */
  lemma HugeLimitFiresAtOnce(world: World, limit: uint32)
    requires limit > INT_MAX && 0 <= world.elapsed(0) <= INT_MAX && world.poll(0).StillRunning?
    ensures FirstEnd(world, limit, 0) && TimesOutAt(world, limit, 0)
  {
    assert AsInt(limit) < 0;
  }
}
