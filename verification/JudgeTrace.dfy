/** What judging one submission writes: a snapshot after each stage of the runner, which may
    throw anywhere. */
module JudgeTraces {
  import opened Submissions
  import opened VerdictReducers

  // ---------- The runner ----------

  /** A call into the runner comes back or throws a `std::exception`. */
  datatype Outcome<T> = Returned(value: T) | Threw(what: string)

  datatype PrepareResult = PrepareResult(ok: bool, message: string)
  datatype CompileResult = CompileResult(ok: bool, verdict: Verdict, message: string)
  datatype CaseRun = CaseRun(result: CaseResult, message: string)

  /** Everything the runner does for one submission: whether the language has one, its
      stages, and the loaded cases with what running each gives. */
  datatype Script = Script(
    create: Outcome<bool>, prepare: Outcome<PrepareResult>, compile: Outcome<CompileResult>, cases: Outcome<seq<Outcome<CaseRun>>>)

  // ---------- What is written ----------

  function MakeResult(id: int, status: Status, verdict: Verdict, message: string): SubmissionResult {
    SubmissionResult(id, status, verdict, message, [])
  }

  function Failure(id: int, message: string): SubmissionResult {
    MakeResult(id, Failed, SystemError, message)
  }

  function Progress(id: int, status: Status): SubmissionResult {
    MakeResult(id, status, Pending, "")
  }

  /** The snapshots `processSubmission` writes, in order. */
  ghost function Trace(id: int, script: Script): seq<SubmissionResult> {
    [Progress(id, Preparing)] + PrepareTrace(id, script)
  }

  ghost function PrepareTrace(id: int, script: Script): seq<SubmissionResult> {
    match script.create
    case Threw(what) => [Failure(id, what)]
    case Returned(supported) =>
      if !supported then [Failure(id, "unsupported language")]
      else
        match script.prepare
        case Threw(what) => [Failure(id, what)]
        case Returned(p) =>
          if !p.ok then [Failure(id, p.message)]
          else [Progress(id, Compiling)] + CompileTrace(id, script)
  }

  ghost function CompileTrace(id: int, script: Script): seq<SubmissionResult> {
    match script.compile
    case Threw(what) => [Failure(id, what)]
    case Returned(c) =>
      if !c.ok then [MakeResult(id, Finished, c.verdict, c.message)]
      else [Progress(id, Running)] + LoadTrace(id, script)
  }

  ghost function LoadTrace(id: int, script: Script): seq<SubmissionResult> {
    match script.cases
    case Threw(what) => [Failure(id, what)]
    case Returned(cases) =>
      if cases == [] then [Failure(id, "failed to load problem cases")]
      else CaseTrace(cases, Progress(id, Running))
  }

  /** The snapshots from the remaining cases on, given the last RUNNING one. */
  ghost function CaseTrace(cases: seq<Outcome<CaseRun>>, running: SubmissionResult): seq<SubmissionResult> {
    if cases == [] then [running.(status := Finished, verdict := Summary(running.cases, Pending))]
    else
      match cases[0]
      case Threw(what) => [Failure(running.submissionId, what)]
      case Returned(run) => [WithCase(running, run)] + CaseTrace(cases[1..], WithCase(running, run))
  }

  function WithCase(running: SubmissionResult, run: CaseRun): SubmissionResult {
    running.(cases := running.cases + [run.result], message := run.message)
  }

  // ---------- Properties of the trace ----------

  /** The trace follows the transition graph from QUEUED and ends in a terminal status, for
      every behaviour of the runner. */
  ghost predicate GoodTrace(from: Status, trace: seq<SubmissionResult>, id: int) {
    && trace != [] && Terminal(Last(trace).status)
    && ValidTransition(from, trace[0].status)
    && (forall k :: 0 <= k < |trace| - 1 ==> ValidTransition(trace[k].status, trace[k + 1].status))
    && (forall k :: 0 <= k < |trace| ==> trace[k].submissionId == id)
  }

  lemma GoodCons(from: Status, head: SubmissionResult, rest: seq<SubmissionResult>, id: int)
    requires ValidTransition(from, head.status) && head.submissionId == id && GoodTrace(head.status, rest, id)
    ensures GoodTrace(from, [head] + rest, id)
  {
    var trace := [head] + rest;
    forall k | 0 <= k < |trace| - 1
      ensures ValidTransition(trace[k].status, trace[k + 1].status)
    {
      assert k > 0 ==> trace[k] == rest[k - 1];
      assert trace[k + 1] == rest[k];
    }
  }

  lemma {:induction false} CaseTraceGood(cases: seq<Outcome<CaseRun>>, running: SubmissionResult)
    requires running.status == Running
    ensures GoodTrace(Running, CaseTrace(cases, running), running.submissionId)
  {
    if cases != [] && cases[0].Returned? {
      var next := WithCase(running, cases[0].value);
      CaseTraceGood(cases[1..], next);
      GoodCons(Running, next, CaseTrace(cases[1..], next), running.submissionId);
    }
  }

  lemma TraceGood(id: int, script: Script)
    ensures GoodTrace(Queued, Trace(id, script), id)
  {
    if script.cases.Returned? {
      CaseTraceGood(script.cases.value, Progress(id, Running));
    }
    assert GoodTrace(Running, LoadTrace(id, script), id);
    GoodCons(Compiling, Progress(id, Running), LoadTrace(id, script), id);
    assert GoodTrace(Compiling, CompileTrace(id, script), id);
    GoodCons(Preparing, Progress(id, Compiling), CompileTrace(id, script), id);
    assert GoodTrace(Preparing, PrepareTrace(id, script), id);
    GoodCons(Queued, Progress(id, Preparing), PrepareTrace(id, script), id);
  }

  /** While a submission runs, its case lists only grow, one case at a time, and a FINISHED
      snapshot carries the last of them: each is a prefix of every later one that has not
      failed. */
  lemma {:induction false} CaseListsGrow(cases: seq<Outcome<CaseRun>>, running: SubmissionResult, i: nat, j: nat)
    requires running.status == Running && i <= j < |CaseTrace(cases, running)| && CaseTrace(cases, running)[j].status != Failed
    ensures running.cases <= CaseTrace(cases, running)[i].cases <= CaseTrace(cases, running)[j].cases
    ensures CaseTrace(cases, running)[i].status == Running ==> |CaseTrace(cases, running)[i].cases| == |running.cases| + i + 1
  {
    if cases != [] && cases[0].Returned? {
      var next := WithCase(running, cases[0].value);
      if j > 0 {
        CaseListsGrow(cases[1..], next, if i > 0 then i - 1 else 0, j - 1);
      }
    }
  }

  predicate Ready(script: Script) {
    && script.create == Returned(true) && script.prepare.Returned? && script.prepare.value.ok
    && script.compile.Returned?
  }

  /** Only after a successful compilation are there cases. */
  lemma TraceShape(id: int, script: Script)
    ensures Ready(script) && script.compile.value.ok ==>
              Trace(id, script) == [Progress(id, Preparing), Progress(id, Compiling), Progress(id, Running)] + LoadTrace(id, script)
    ensures !(Ready(script) && script.compile.value.ok) ==> Caseless(Trace(id, script))
  {
    if Ready(script) && script.compile.value.ok {
      assert PrepareTrace(id, script) == [Progress(id, Compiling)] + CompileTrace(id, script);
      assert CompileTrace(id, script) == [Progress(id, Running)] + LoadTrace(id, script);
    } else if Ready(script) {
      assert CompileTrace(id, script) == [MakeResult(id, Finished, script.compile.value.verdict, script.compile.value.message)];
      assert PrepareTrace(id, script) == [Progress(id, Compiling)] + CompileTrace(id, script);
    } else {
      assert Caseless(PrepareTrace(id, script));
    }
  }

  predicate Caseless(trace: seq<SubmissionResult>) {
    forall k :: 0 <= k < |trace| ==> trace[k].cases == [] && trace[k].status != Running
  }

  lemma LoadedCasesGrow(id: int, script: Script, i: nat, j: nat)
    requires i <= j < |LoadTrace(id, script)| && LoadTrace(id, script)[j].status != Failed
    ensures LoadTrace(id, script)[i].cases <= LoadTrace(id, script)[j].cases
    ensures LoadTrace(id, script)[i].status == Running ==> |LoadTrace(id, script)[i].cases| == i + 1
  {
    if script.cases.Returned? && script.cases.value != [] {
      CaseListsGrow(script.cases.value, Progress(id, Running), i, j);
    }
  }

  /** The same over the whole trace. */
  lemma SnapshotsGrow(id: int, script: Script, trace: seq<SubmissionResult>, i: nat, j: nat)
    requires trace == Trace(id, script) && i <= j < |trace| && trace[j].status != Failed
    ensures trace[i].cases <= trace[j].cases
    ensures trace[i].status == Running ==> |trace[i].cases| == i - 2
  {
    TraceShape(id, script);
    if Ready(script) && script.compile.value.ok {
      var head := [Progress(id, Preparing), Progress(id, Compiling), Progress(id, Running)];
      var tail := LoadTrace(id, script);
      assert forall k :: 0 <= k < |trace| ==> trace[k] == if k < 3 then head[k] else tail[k - 3];
      if i >= 3 {
        LoadedCasesGrow(id, script, i - 3, j - 3);
      }
    }
  }

  // ---------- The final answer ----------

  /** Some stage fails the submission, with this message. */
  predicate FailsWith(script: Script, message: string) {
    || script.create == Threw(message)
    || (script.create == Returned(false) && message == "unsupported language")
    || (script.create == Returned(true) && PrepareFailsWith(script, message))
  }

  predicate PrepareFailsWith(script: Script, message: string) {
    || script.prepare == Threw(message)
    || (script.prepare.Returned? && !script.prepare.value.ok && message == script.prepare.value.message)
    || (script.prepare.Returned? && script.prepare.value.ok && script.compile == Threw(message))
    || (Ready(script) && script.compile.value.ok && CasesFailWith(script.cases, message))
  }

  predicate CasesFailWith(cases: Outcome<seq<Outcome<CaseRun>>>, message: string) {
    || cases == Threw(message)
    || (cases == Returned([]) && message == "failed to load problem cases")
    || (cases.Returned? && ThrowsFirst(cases.value, message))
  }

  /** The first case that throws throws this. */
  predicate ThrowsFirst(cases: seq<Outcome<CaseRun>>, message: string) {
    exists k :: 0 <= k < |cases| && cases[k] == Threw(message) && forall j :: 0 <= j < k ==> cases[j].Returned?
  }

  lemma ThrowsTail(cases: seq<Outcome<CaseRun>>, message: string)
    requires cases != [] && cases[0].Returned?
    ensures ThrowsFirst(cases, message) <==> ThrowsFirst(cases[1..], message)
  {
    var rest := cases[1..];
    assert forall k :: 0 < k < |cases| ==> cases[k] == rest[k - 1];
    if ThrowsFirst(rest, message) {
      var k :| 0 <= k < |rest| && rest[k] == Threw(message) && forall j :: 0 <= j < k ==> rest[j].Returned?;
      assert cases[k + 1] == Threw(message) && forall j :: 0 <= j < k + 1 ==> cases[j].Returned?;
    }
    if ThrowsFirst(cases, message) {
      var k :| 0 <= k < |cases| && cases[k] == Threw(message) && forall j :: 0 <= j < k ==> cases[j].Returned?;
      assert rest[k - 1] == Threw(message) && forall j :: 0 <= j < k - 1 ==> rest[j] == cases[j + 1];
    }
  }

  /** A failed submission: FAILED, a system error, no cases, and the message of what failed. */
  predicate IsFailure(r: SubmissionResult, message: string) {
    r.status == Failed && r.verdict == SystemError && r.cases == [] && r.message == message
  }

  lemma {:induction false} CaseFailure(cases: seq<Outcome<CaseRun>>, running: SubmissionResult)
    requires running.status == Running
    ensures CaseTrace(cases, running) != []
    ensures
      var last := Last(CaseTrace(cases, running));
      if AllReturned(cases) then last.status == Finished && last.message == (if cases == [] then running.message else LastRun(cases).value.message)
      else ThrowsFirst(cases, last.message) && IsFailure(last, last.message)
  {
    if cases != [] && cases[0].Returned? {
      var next := WithCase(running, cases[0].value);
      CaseFailure(cases[1..], next);
      assert Last(CaseTrace(cases, running)) == Last(CaseTrace(cases[1..], next));
      AllReturnedTail(cases);
      ThrowsTail(cases, Last(CaseTrace(cases, running)).message);
    } else if cases != [] {
      assert cases[0] == Threw(cases[0].what);
      assert ThrowsFirst(cases, cases[0].what);
    }
  }

  function LastRun(cases: seq<Outcome<CaseRun>>): Outcome<CaseRun>
    requires cases != []
  {
    cases[|cases| - 1]
  }

  // ---------- The final verdict ----------

  predicate AllReturned(cases: seq<Outcome<CaseRun>>) {
    forall k :: 0 <= k < |cases| ==> cases[k].Returned?
  }

  function Results(cases: seq<Outcome<CaseRun>>): (r: seq<CaseResult>)
    requires AllReturned(cases)
    ensures |r| == |cases| && forall k :: 0 <= k < |r| ==> r[k] == cases[k].value.result
  {
    seq(|cases|, k requires 0 <= k < |cases| => cases[k].value.result)
  }

  /** The loop ends FINISHED with every case result exactly when no case throws. */
  lemma {:induction false} LastOfCases(cases: seq<Outcome<CaseRun>>, running: SubmissionResult)
    requires running.status == Running
    ensures CaseTrace(cases, running) != []
    ensures AllReturned(cases) ==> EndsWith(Last(CaseTrace(cases, running)), running.cases + Results(cases))
    ensures !AllReturned(cases) ==> Last(CaseTrace(cases, running)).status == Failed
  {
    if cases == [] {
      assert running.cases + Results(cases) == running.cases;
    } else if cases[0].Returned? {
      var rest, next := cases[1..], WithCase(running, cases[0].value);
      LastOfCases(rest, next);
      assert Last(CaseTrace(cases, running)) == Last(CaseTrace(rest, next));
      AllReturnedTail(cases);
      if AllReturned(cases) {
        ResultsTail(cases, running.cases);
      }
    }
  }

  lemma ResultsTail(cases: seq<Outcome<CaseRun>>, before: seq<CaseResult>)
    requires cases != [] && AllReturned(cases) && AllReturned(cases[1..])
    ensures before + Results(cases) == before + [cases[0].value.result] + Results(cases[1..])
  {
    var rest := cases[1..];
    assert Results(cases) == [cases[0].value.result] + Results(rest);
  }

  ghost predicate EndsWith(last: SubmissionResult, cases: seq<CaseResult>) {
    last.status == Finished && last.cases == cases && last.verdict == Summary(cases, Pending)
  }

  lemma AllReturnedTail(cases: seq<Outcome<CaseRun>>)
    requires cases != [] && cases[0].Returned?
    ensures AllReturned(cases) <==> AllReturned(cases[1..])
  {
    var rest := cases[1..];
    assert forall k :: 0 < k < |cases| ==> cases[k] == rest[k - 1];
    assert forall k :: 0 <= k < |rest| ==> rest[k] == cases[k + 1];
  }

  ghost predicate CasesAccepted(cases: Outcome<seq<Outcome<CaseRun>>>) {
    && cases.Returned? && cases.value != [] && AllReturned(cases.value)
    && SomeAccepted(Results(cases.value)) && NoneRejected(Results(cases.value))
  }

  /** A submission ends FINISHED with AC exactly when the runner was found and prepared, and
      either compiled and had every case accepted (a PENDING case does not stop it, as long
      as one is accepted), or reported a failed compilation under the verdict AC. */
  lemma AcceptedExactlyWhen(id: int, script: Script)
    ensures Trace(id, script) != []
    ensures
      var last := Last(Trace(id, script));
      last.status == Finished && last.verdict == AC <==>
        Ready(script) && if script.compile.value.ok then CasesAccepted(script.cases) else script.compile.value.verdict == AC
  {
    if Ready(script) && script.compile.value.ok {
      LoadedAcceptedExactly(id, script);
      TraceShape(id, script);
      assert Last(Trace(id, script)) == Last(LoadTrace(id, script));
    }
  }

  lemma LoadedAcceptedExactly(id: int, script: Script)
    ensures LoadTrace(id, script) != []
    ensures
      var last := Last(LoadTrace(id, script));
      last.status == Finished && last.verdict == AC <==> CasesAccepted(script.cases)
  {
    if script.cases.Returned? && script.cases.value != [] {
      var cases := script.cases.value;
      LastOfCases(cases, Progress(id, Running));
      if AllReturned(cases) {
        assert Progress(id, Running).cases + Results(cases) == Results(cases);
        AcceptedExactly(Results(cases), Pending);
      }
    }
  }

  // ---------- The answer, from the script ----------

  /** No stage fails: every loaded case came back. */
  predicate RunsThrough(script: Script) {
    && Ready(script) && script.compile.value.ok && script.cases.Returned? && script.cases.value != []
    && AllReturned(script.cases.value)
  }

  lemma ThrowsExactly(cases: seq<Outcome<CaseRun>>)
    ensures (exists message :: ThrowsFirst(cases, message)) <==> !AllReturned(cases)
  {
    if !AllReturned(cases) {
      var k := FirstThrow(cases);
      assert ThrowsFirst(cases, cases[k].what);
    }
  }

  lemma {:induction false} FirstThrow(cases: seq<Outcome<CaseRun>>) returns (k: nat)
    requires !AllReturned(cases)
    ensures k < |cases| && cases[k].Threw? && forall j :: 0 <= j < k ==> cases[j].Returned?
  {
    if cases[0].Threw? {
      k := 0;
    } else {
      AllReturnedTail(cases);
      var j := FirstThrow(cases[1..]);
      k := j + 1;
      assert forall i :: 0 < i < k ==> cases[i] == cases[1..][i - 1];
    }
  }

  /** Every script fails with a message, or fails to compile, or runs through - one of them. */
  lemma FailsExactly(script: Script)
    ensures (exists message :: FailsWith(script, message)) <==>
            !RunsThrough(script) && !(Ready(script) && !script.compile.value.ok)
  {
    if Ready(script) && script.compile.value.ok {
      CasesFailExactly(script.cases);
      if message :| CasesFailWith(script.cases, message) {
        assert FailsWith(script, message);
      }
    } else if script.create.Threw? {
      assert FailsWith(script, script.create.what);
    } else if !script.create.value {
      assert FailsWith(script, "unsupported language");
    } else if script.prepare.Threw? {
      assert FailsWith(script, script.prepare.what);
    } else if !script.prepare.value.ok {
      assert FailsWith(script, script.prepare.value.message);
    } else if script.compile.Threw? {
      assert FailsWith(script, script.compile.what);
    }
  }

  lemma CasesFailExactly(cases: Outcome<seq<Outcome<CaseRun>>>)
    ensures (exists message :: CasesFailWith(cases, message)) <==>
            !(cases.Returned? && cases.value != [] && AllReturned(cases.value))
  {
    if cases.Threw? {
      assert CasesFailWith(cases, cases.what);
    } else if cases.value == [] {
      assert CasesFailWith(cases, "failed to load problem cases");
    } else {
      ThrowsExactly(cases.value);
      if message :| ThrowsFirst(cases.value, message) {
        assert CasesFailWith(cases, message);
      }
    }
  }

  /** How a submission ends, read off the runner's behaviour alone. FAILED exactly when a stage
      threw, the language is unsupported, preparing failed or there were no cases: then with a
      system error, that stage's message and no cases. A failed compilation ends FINISHED with
      the compiler's verdict and message, anything else FINISHED with all case results, their
      summary and the last case's message. */
  lemma FinalAnswer(id: int, script: Script)
    ensures Trace(id, script) != []
    ensures
      var last := Last(Trace(id, script));
      && (last.status == Failed <==> exists message :: FailsWith(script, message))
      && (last.status == Failed ==> FailsWith(script, last.message) && IsFailure(last, last.message))
      && (Ready(script) && !script.compile.value.ok ==>
            last == SubmissionResult(id, Finished, script.compile.value.verdict, script.compile.value.message, []))
      && (RunsThrough(script) ==>
            var cases := script.cases.value;
            last == SubmissionResult(id, Finished, Summary(Results(cases), Pending), LastRun(cases).value.message, Results(cases)))
  {
    FailsExactly(script);
    TraceGood(id, script);
    if Ready(script) && script.compile.value.ok {
      LoadedAnswer(id, script);
      TraceShape(id, script);
      assert Last(Trace(id, script)) == Last(LoadTrace(id, script));
    }
  }

  lemma LoadedAnswer(id: int, script: Script)
    requires Ready(script) && script.compile.value.ok
    ensures LoadTrace(id, script) != []
    ensures
      var last := Last(LoadTrace(id, script));
      if RunsThrough(script) then
        var cases := script.cases.value;
        last.status == Finished && last.cases == Results(cases) && last.verdict == Summary(Results(cases), Pending)
        && last.message == LastRun(cases).value.message
      else CasesFailWith(script.cases, last.message) && IsFailure(last, last.message)
  {
    if script.cases.Returned? && script.cases.value != [] {
      var cases := script.cases.value;
      CaseFailure(cases, Progress(id, Running));
      LastOfCases(cases, Progress(id, Running));
      if AllReturned(cases) {
        assert Progress(id, Running).cases + Results(cases) == Results(cases);
      }
    }
  }

  /** No snapshot before the end carries a verdict, and a failed one carries no other. */
  predicate VerdictFits(r: SubmissionResult) {
    && (!Terminal(r.status) ==> r.verdict == Pending)
    && (r.status == Failed ==> r.verdict == SystemError)
  }

  lemma {:induction false} CaseVerdicts(cases: seq<Outcome<CaseRun>>, running: SubmissionResult)
    requires running.status == Running && running.verdict == Pending
    ensures forall k :: 0 <= k < |CaseTrace(cases, running)| ==> VerdictFits(CaseTrace(cases, running)[k])
  {
    if cases != [] && cases[0].Returned? {
      CaseVerdicts(cases[1..], WithCase(running, cases[0].value));
    }
  }

  /** So AC is in no snapshot that is not FINISHED. */
  lemma SnapshotVerdicts(id: int, script: Script)
    ensures forall k :: 0 <= k < |Trace(id, script)| ==> VerdictFits(Trace(id, script)[k])
  {
    if script.cases.Returned? {
      CaseVerdicts(script.cases.value, Progress(id, Running));
    }
    assert forall k :: 0 <= k < |LoadTrace(id, script)| ==> VerdictFits(LoadTrace(id, script)[k]);
    assert forall k :: 0 <= k < |CompileTrace(id, script)| ==> VerdictFits(CompileTrace(id, script)[k]);
    assert forall k :: 0 <= k < |PrepareTrace(id, script)| ==> VerdictFits(PrepareTrace(id, script)[k]);
  }

  lemma {:induction false} RunningAt(cases: seq<Outcome<CaseRun>>, running: SubmissionResult, k: nat)
    requires running.status == Running && k < |CaseTrace(cases, running)| && CaseTrace(cases, running)[k].status == Running
    ensures k < |cases| && AllReturned(cases[..k + 1])
    ensures CaseTrace(cases, running)[k] ==
            running.(cases := running.cases + Results(cases[..k + 1]), message := LastRun(cases[..k + 1]).value.message)
    decreases k
  {
    var next := WithCase(running, cases[0].value);
    if k == 0 {
      assert cases[..1] == [cases[0]];
      assert Results(cases[..1]) == [cases[0].value.result];
    } else {
      var rest := cases[1..];
      RunningAt(rest, next, k - 1);
      assert cases[..k + 1] == [cases[0]] + rest[..k];
      AllReturnedTail(cases[..k + 1]);
      assert cases[..k + 1][1..] == rest[..k];
      ResultsTail(cases[..k + 1], running.cases);
    }
  }

  /** The snapshot after the k-th case: RUNNING, no verdict yet, the results so far and that
      case's message. */
  lemma RunningSnapshot(id: int, script: Script, k: nat)
    requires 3 <= k < |Trace(id, script)| && Trace(id, script)[k].status == Running
    ensures script.cases.Returned? && k - 3 < |script.cases.value| && AllReturned(script.cases.value[..k - 2])
    ensures Trace(id, script)[k] ==
            SubmissionResult(id, Running, Pending, LastRun(script.cases.value[..k - 2]).value.message, Results(script.cases.value[..k - 2]))
  {
    TraceShape(id, script);
    assert Trace(id, script)[k] == LoadTrace(id, script)[k - 3];
    LoadedSnapshot(id, script, k - 3);
  }

  lemma LoadedSnapshot(id: int, script: Script, k: nat)
    requires k < |LoadTrace(id, script)| && LoadTrace(id, script)[k].status == Running
    ensures script.cases.Returned? && k < |script.cases.value| && AllReturned(script.cases.value[..k + 1])
    ensures LoadTrace(id, script)[k] ==
            SubmissionResult(id, Running, Pending, LastRun(script.cases.value[..k + 1]).value.message, Results(script.cases.value[..k + 1]))
  {
    var cases := script.cases.value;
    RunningAt(cases, Progress(id, Running), k);
    assert [] + Results(cases[..k + 1]) == Results(cases[..k + 1]);
  }
}
