/** Judging one submission: the worker drives a runner through its stages and writes a
    snapshot after each, while other threads use the same store. */
module SubmissionServices {
  import opened Submissions
  import opened Wrappers
  import opened ResultCleanup
  import opened ResultStores
  import opened ResultStoreRuns
  import opened VerdictReducers
  import opened JudgeTraces

  // ---------- Other threads ----------

  /** A call some other thread makes on the store. */
  datatype Call =
    | CreateCall(now: int, stamp: int, cfg: Config)
    | UpdateCall(id: int, result: SubmissionResult, now: int, cfg: Config)
    | GetCall(id: int, now: int, cfg: Config)

  /** What other threads do before this worker's next write, and the clock and settings that
      write sees. */
  datatype Slice = Slice(calls: seq<Call>, now: int, cfg: Config)

  ghost predicate Leaves(calls: seq<Call>, id: int) {
    forall k :: 0 <= k < |calls| && calls[k].UpdateCall? ==> calls[k].id != id
  }

  /** The id was handed out and no other thread updates it. */
  ghost predicate Owned(id: int, nextId: int, schedule: nat -> Slice) {
    1 <= id < nextId && forall n :: Leaves(schedule(n).calls, id)
  }

  /** The record of `id` as other threads leave it: unchanged, and there unless finished. */
  ghost predicate Quiet(s: Store, t: Store, id: int) {
    && s.nextId <= t.nextId
    && (id in t.results ==> id in s.results && t.results[id].result == s.results[id].result)
    && (id in s.results && !Terminal(s.results[id].result.status) ==> id in t.results)
  }

  lemma QuietStep(s: Store, t: Store, op: Op, id: int)
    requires StoreInv(s) && StoreStep(s, t, op) && !Writes(op, id) && 1 <= id < s.nextId
    ensures Quiet(s, t, id) && Gained(op, id) == []
  {
    RecordStep(s, t, op, id);
  }

  /** How many updates of `id` the store has refused. */
  function Refusals(ops: seq<Op>, id: int): nat {
    if ops == [] then 0
    else
      var op := ops[|ops| - 1];
      Refusals(ops[..|ops| - 1], id) + if op.Update? && op.id == id && !op.accepted then 1 else 0
  }

  // ---------- The worker ----------

  class SubmissionService {
    const store: ResultStore

    constructor (store: ResultStore)
      ensures this.store == store
    {
      this.store := store;
    }

    ghost predicate At(id: int, status: Status)
      reads this, store
    {
      id in store.results && store.results[id].result.status == status
    }

    method Perform(call: Call, ghost id: int)
      requires store.Valid()
      modifies store
      ensures store.Valid() && store.nextId >= old(store.nextId)
      ensures 1 <= id < old(store.nextId) && !(call.UpdateCall? && call.id == id) ==>
                && Quiet(old(store.Value()), store.Value(), id)
                && Accepted(store.ops, id) == old(Accepted(store.ops, id))
                && Refusals(store.ops, id) == old(Refusals(store.ops, id))
    {
      ghost var s, n := store.Value(), |store.ops|;
      InvRun(store.states, store.ops, n);
      match call {
        case CreateCall(now, stamp, cfg) => var _ := store.CreateSubmission(now, stamp, cfg);
        case UpdateCall(other, result, now, cfg) => var _ := store.UpdateResult(other, result, now, cfg);
        case GetCall(other, now, cfg) => var _ := store.GetResult(other, now, cfg);
      }
      ghost var op := store.ops[n];
      assert StoreStep(store.states[n], store.states[n + 1], op);
      assert store.ops[..n] == old(store.ops);
      RecordStep(s, store.Value(), op, id);
      if 1 <= id < s.nextId && !(call.UpdateCall? && call.id == id) {
        QuietStep(s, store.Value(), op, id);
      }
    }

    /** What other threads do between two writes. */
    method Others(calls: seq<Call>, ghost id: int)
      requires store.Valid()
      modifies store
      ensures store.Valid() && store.nextId >= old(store.nextId)
      ensures 1 <= id < old(store.nextId) && Leaves(calls, id) ==>
                && Quiet(old(store.Value()), store.Value(), id)
                && Accepted(store.ops, id) == old(Accepted(store.ops, id))
                && Refusals(store.ops, id) == old(Refusals(store.ops, id))
    {
      for i := 0 to |calls|
        invariant store.Valid() && store.nextId >= old(store.nextId)
        invariant 1 <= id < old(store.nextId) && Leaves(calls, id) ==>
            && Quiet(old(store.Value()), store.Value(), id)
            && Accepted(store.ops, id) == old(Accepted(store.ops, id))
            && Refusals(store.ops, id) == old(Refusals(store.ops, id))
      {
        Perform(calls[i], id);
      }
    }

    /** `persist_result`, after whatever the other threads did since the last one. */
    method Persist(id: int, result: SubmissionResult, slice: Slice) returns (ok: bool)
      requires store.Valid()
      modifies store
      ensures store.Valid() && store.nextId >= old(store.nextId)
      ensures 1 <= id < old(store.nextId) && Leaves(slice.calls, id) ==>
                && ok == old(Accepts(store.results, id, result.status))
                && Accepted(store.ops, id) == old(Accepted(store.ops, id)) + (if ok then [result.(submissionId := id)] else [])
                && (ok && !Terminal(result.status) ==> At(id, result.status))
                && (ok ==> Refusals(store.ops, id) == old(Refusals(store.ops, id)))
    {
      Others(slice.calls, id);
      ghost var s, n := store.Value(), |store.ops|;
      InvRun(store.states, store.ops, n);
      ok := store.UpdateResult(id, result, slice.now, slice.cfg);
      ghost var op := store.ops[n];
      assert StoreStep(store.states[n], store.states[n + 1], op);
      assert store.ops[..n] == store.ops[..|store.ops| - 1];
      RecordStep(s, store.Value(), op, id);
      UpdateAnswers(s, store.Value(), op);
    }

    /** The rest of a run of cases. `thrown` is the exception that ended it, if any. */
    method RunCases(id: int, cases: seq<Outcome<CaseRun>>, schedule: nat -> Slice, start: nat)
      returns (thrown: Option<string>, n: nat)
      requires store.Valid()
      modifies store
      ensures store.Valid() && store.nextId >= old(store.nextId)
      ensures Owned(id, old(store.nextId), schedule) && old(At(id, Running)) ==>
                && Wrote(old(Accepted(store.ops, id)), store, id, thrown, CaseTrace(cases, Progress(id, Running)))
                && Refusals(store.ops, id) == old(Refusals(store.ops, id))
    {
      var running := Progress(id, Running);
      n := start;
      ghost var good := Owned(id, store.nextId, schedule) && At(id, Running);
      ghost var was, trace := Accepted(store.ops, id), CaseTrace(cases, running);
      ghost var left := trace;
      assert cases[0..] == cases;
      for i := 0 to |cases|
        invariant store.Valid() && store.nextId >= old(store.nextId)
        invariant running.submissionId == id && running.status == Running && running.verdict == Pending
        invariant left == CaseTrace(cases[i..], running)
        invariant good ==>
            && At(id, Running) && Refusals(store.ops, id) == old(Refusals(store.ops, id))
            && Accepted(store.ops, id) + left == was + trace
      {
        TraceOfRest(id, cases, i, running, left);
        if cases[i].Threw? {
          if good {
            WroteFailure(was, store, id, cases[i].what, left, trace);
          }
          return Some(cases[i].what), n;
        }
        running := WithCase(running, cases[i].value);
        left := CaseTrace(cases[i + 1..], running);
        Prepend(Accepted(store.ops, id), running, left);
        var ok := Persist(id, running, schedule(n));
        n := n + 1;
        if !ok {
          return None, n;
        }
      }
      assert cases[|cases|..] == [];
      FinishRun(id, running, schedule(n));
      n := n + 1;
      thrown := None;
      if good {
        WroteAll(was, store, id, trace);
      }
    }

    method FinishRun(id: int, running: SubmissionResult, slice: Slice)
      requires store.Valid() && running.submissionId == id
      modifies store
      ensures store.Valid() && store.nextId >= old(store.nextId)
      ensures 1 <= id < old(store.nextId) && Leaves(slice.calls, id) && old(At(id, Running)) ==>
                && Accepted(store.ops, id) == old(Accepted(store.ops, id)) + CaseTrace([], running)
                && Refusals(store.ops, id) == old(Refusals(store.ops, id))
    {
      var verdict := Summarize(running.cases, Pending);
      var _ := Persist(id, running.(status := Finished, verdict := verdict), slice);
    }

    /** The `try` block. */
    method Attempt(id: int, script: Script, schedule: nat -> Slice) returns (thrown: Option<string>, n: nat)
      requires store.Valid()
      modifies store
      ensures store.Valid() && store.nextId >= old(store.nextId)
      ensures Owned(id, old(store.nextId), schedule) && old(Accepts(store.results, id, Preparing)) ==>
                && Wrote(old(Accepted(store.ops, id)), store, id, thrown, Trace(id, script))
                && Refusals(store.ops, id) == old(Refusals(store.ops, id))
      ensures Owned(id, old(store.nextId), schedule) && !old(Accepts(store.results, id, Preparing)) ==>
                thrown.None? && Accepted(store.ops, id) == old(Accepted(store.ops, id))
    {
      var ok := Persist(id, Progress(id, Preparing), schedule(0));
      if !ok {
        return None, 1;
      }
      ghost var was := old(Accepted(store.ops, id));
      thrown, n := PrepareStage(id, script, schedule);
      Prepend(was, Progress(id, Preparing), PrepareTrace(id, script));
    }

    method PrepareStage(id: int, script: Script, schedule: nat -> Slice) returns (thrown: Option<string>, n: nat)
      requires store.Valid()
      modifies store
      ensures store.Valid() && store.nextId >= old(store.nextId)
      ensures Owned(id, old(store.nextId), schedule) && old(At(id, Preparing)) ==>
                && Wrote(old(Accepted(store.ops, id)), store, id, thrown, PrepareTrace(id, script))
                && Refusals(store.ops, id) == old(Refusals(store.ops, id))
    {
      thrown, n := None, 2;
      if script.create.Threw? {
        return Some(script.create.what), 1;
      }
      if !script.create.value {
        var _ := Persist(id, Failure(id, "unsupported language"), schedule(1));
        return;
      }
      if script.prepare.Threw? {
        return Some(script.prepare.what), 1;
      }
      if !script.prepare.value.ok {
        var _ := Persist(id, Failure(id, script.prepare.value.message), schedule(1));
        return;
      }
      var ok := Persist(id, Progress(id, Compiling), schedule(1));
      if !ok {
        return;
      }
      ghost var was := old(Accepted(store.ops, id));
      thrown, n := CompileStage(id, script, schedule);
      Prepend(was, Progress(id, Compiling), CompileTrace(id, script));
    }

    method CompileStage(id: int, script: Script, schedule: nat -> Slice) returns (thrown: Option<string>, n: nat)
      requires store.Valid()
      modifies store
      ensures store.Valid() && store.nextId >= old(store.nextId)
      ensures Owned(id, old(store.nextId), schedule) && old(At(id, Compiling)) ==>
                && Wrote(old(Accepted(store.ops, id)), store, id, thrown, CompileTrace(id, script))
                && Refusals(store.ops, id) == old(Refusals(store.ops, id))
    {
      thrown, n := None, 3;
      if script.compile.Threw? {
        return Some(script.compile.what), 2;
      }
      var compiled := script.compile.value;
      if !compiled.ok {
        var _ := Persist(id, MakeResult(id, Finished, compiled.verdict, compiled.message), schedule(2));
        return;
      }
      var ok := Persist(id, Progress(id, Running), schedule(2));
      if !ok {
        return;
      }
      ghost var was := old(Accepted(store.ops, id));
      thrown, n := LoadStage(id, script, schedule);
      Prepend(was, Progress(id, Running), LoadTrace(id, script));
    }

    method LoadStage(id: int, script: Script, schedule: nat -> Slice) returns (thrown: Option<string>, n: nat)
      requires store.Valid()
      modifies store
      ensures store.Valid() && store.nextId >= old(store.nextId)
      ensures Owned(id, old(store.nextId), schedule) && old(At(id, Running)) ==>
                && Wrote(old(Accepted(store.ops, id)), store, id, thrown, LoadTrace(id, script))
                && Refusals(store.ops, id) == old(Refusals(store.ops, id))
    {
      thrown, n := None, 4;
      if script.cases.Threw? {
        return Some(script.cases.what), 3;
      }
      if script.cases.value == [] {
        var _ := Persist(id, Failure(id, "failed to load problem cases"), schedule(3));
        return;
      }
      thrown, n := RunCases(id, script.cases.value, schedule, 3);
    }

    /** `processSubmission`. While no other thread updates the id, exactly the trace of the
        runner's behaviour is accepted and nothing is refused, if the record is QUEUED (or
        PREPARING); otherwise nothing is accepted. */
    method ProcessSubmission(id: int, script: Script, schedule: nat -> Slice)
      requires store.Valid()
      modifies store
      ensures store.Valid() && store.nextId >= old(store.nextId)
      ensures id <= 0 ==> store.ops == old(store.ops) && store.Value() == old(store.Value())
      ensures Owned(id, old(store.nextId), schedule) && old(Accepts(store.results, id, Preparing)) ==>
                && Accepted(store.ops, id) == old(Accepted(store.ops, id)) + Trace(id, script)
                && Refusals(store.ops, id) == old(Refusals(store.ops, id))
                && Trace(id, script) != [] && Terminal(Last(Trace(id, script)).status)
                && (id in store.results ==> store.results[id].result == Last(Trace(id, script)))
                && (id in store.results && store.results[id].result.status == Failed ==>
                      IsFailure(store.results[id].result, store.results[id].result.message)
                      && FailsWith(script, store.results[id].result.message))
      ensures Owned(id, old(store.nextId), schedule) && !old(Accepts(store.results, id, Preparing)) ==>
                Accepted(store.ops, id) == old(Accepted(store.ops, id))
    {
      if id <= 0 {
        return;
      }
      var thrown, n := Attempt(id, script, schedule);
      if thrown.Some? {
        var _ := Persist(id, Failure(id, thrown.value), schedule(n));
      }
      TraceGood(id, script);
      FinalAnswer(id, script);
      if Owned(id, old(store.nextId), schedule) && old(Accepts(store.results, id, Preparing)) {
        AlwaysTerminal(store.states, store.ops, old(Accepted(store.ops, id)), id, script);
      }
    }
  }

  lemma Prepend(was: seq<SubmissionResult>, first: SubmissionResult, rest: seq<SubmissionResult>)
    ensures was + [first] + rest == was + ([first] + rest)
  {
  }

  lemma TraceOfRest(id: int, cases: seq<Outcome<CaseRun>>, i: nat, running: SubmissionResult, left: seq<SubmissionResult>)
    requires i < |cases| && left == CaseTrace(cases[i..], running) && running.submissionId == id
    ensures cases[i].Threw? ==> left == [Failure(id, cases[i].what)]
    ensures cases[i].Returned? ==>
              var next := WithCase(running, cases[i].value);
              left == [next] + CaseTrace(cases[i + 1..], next)
  {
    assert cases[i..][1..] == cases[i + 1..];
  }

  /** What has been accepted since `was`, with the failure an exception is about to add,
      makes up the trace; and with an exception pending the record is still open. */
  ghost predicate Wrote(was: seq<SubmissionResult>, store: ResultStore, id: int, thrown: Option<string>, trace: seq<SubmissionResult>)
    reads store
  {
    && Accepted(store.ops, id) + (if thrown.Some? then [Failure(id, thrown.value)] else []) == was + trace
    && (thrown.Some? ==> Accepts(store.results, id, Failed))
  }

  lemma WroteAll(was: seq<SubmissionResult>, store: ResultStore, id: int, trace: seq<SubmissionResult>)
    requires Accepted(store.ops, id) == was + trace
    ensures Wrote(was, store, id, None, trace)
  {
  }

  lemma WroteFailure(was: seq<SubmissionResult>, store: ResultStore, id: int, what: string, left: seq<SubmissionResult>, trace: seq<SubmissionResult>)
    requires Accepted(store.ops, id) + left == was + trace && left == [Failure(id, what)]
    requires id in store.results && store.results[id].result.status == Running
    ensures Wrote(was, store, id, Some(what), trace)
  {
  }

  /** After `processSubmission` of a queued record the last thing accepted is terminal,
      whatever the runner did, and the record holds it or has been cleaned up since. */
  lemma AlwaysTerminal(states: seq<Store>, ops: seq<Op>, was: seq<SubmissionResult>, id: int, script: Script)
    requires Run(states, ops) && Accepted(ops, id) == was + Trace(id, script)
    ensures Accepted(ops, id) != [] && Terminal(Last(Accepted(ops, id)).status)
    ensures id in states[|ops|].results ==>
              states[|ops|].results[id].result == Last(Trace(id, script)) && Terminal(states[|ops|].results[id].result.status)
  {
    TraceGood(id, script);
    assert ops[..|ops|] == ops;
    AcceptedFormAPath(states, ops, |ops|, id);
  }
}
