/** What holds of the judge over every run of its steps. */
module JudgeTheorems {
  import opened Submissions
  import opened ResultStores
  import opened ResultStoreRuns
  import opened JudgeTraces
  import opened SubmissionQueues
  import opened JudgeSystems

  ghost predicate Legal(s: System, steps: seq<Step>)
    requires Tidy(s)
    decreases |steps|
  {
    steps != [] ==>
      Enabled(s, steps[0]) && Tidy(Next(s, steps[0])) && Legal(Next(s, steps[0]), steps[1..])
  }

  ghost function Exec(s: System, steps: seq<Step>): (t: System)
    requires Tidy(s) && Legal(s, steps)
    ensures Tidy(t)
    decreases |steps|
  {
    if steps == [] then s else Exec(Next(s, steps[0]), steps[1..])
  }

  lemma {:induction false} InvRun(s: System, steps: seq<Step>)
    requires Inv(s) && Tidy(s) && Legal(s, steps)
    ensures Inv(Exec(s, steps))
    decreases |steps|
  {
    if steps != [] {
      InvStep(s, steps[0]);
      InvRun(Next(s, steps[0]), steps[1..]);
    }
  }

  /** In every run, what was accepted is popped in order, and every popped task is being
      judged by one worker or has been processed, once. */
  lemma FifoExactlyOnce(workers: nat, steps: seq<Step>)
    requires Legal(Initial(workers), steps)
    ensures
      var s := Exec(Initial(workers), steps);
      && s.accepted == s.popped + s.queue
      && (forall i, j :: 0 <= i < j < |s.accepted| ==> s.accepted[i].id != s.accepted[j].id)
      && Positions(s.workers, |s.popped|, s.processed)
  {
    InvInitial(workers);
    InvRun(Initial(workers), steps);
  }

  /** What the store holds for a task whose processing is over: its snapshots were its trace,
      the last of them terminal, and the record still has that one unless it was removed. */
  ghost predicate Settled(s: System, task: Task)
    requires |s.stores| == |s.ops| + 1
  {
    var trace := Trace(task.id, task.script);
    && trace != [] && Terminal(Last(trace).status)
    && Accepted(s.ops, task.id) == [Fresh(task.id, 0).result] + trace
    && (task.id in s.Now().results ==> s.Now().results[task.id].result == Last(trace))
  }

  ghost predicate AllExited(s: System) {
    forall w :: 0 <= w < |s.workers| ==> s.workers[w].Exited?
  }

  /** Once all workers are gone the queue is closed and empty, every accepted submission has
      been processed once, and each is settled. */
  lemma DrainedWhenGone(workers: nat, steps: seq<Step>)
    requires workers > 0 && Legal(Initial(workers), steps) && AllExited(Exec(Initial(workers), steps))
    ensures
      var s := Exec(Initial(workers), steps);
      && s.closed && s.queue == [] && s.popped == s.accepted
      && (forall i, j :: 0 <= i < j < |s.processed| ==> s.processed[i] != s.processed[j])
      && (forall p :: 0 <= p < |s.accepted| ==> p in s.processed && Settled(s, s.accepted[p]))
  {
    var s := Exec(Initial(workers), steps);
    InvInitial(workers);
    InvRun(Initial(workers), steps);
    WorkersStay(Initial(workers), steps);
    assert s.workers[0].Exited?;
    forall p | 0 <= p < |s.accepted|
      ensures p in s.processed && Settled(s, s.accepted[p])
    {
      assert p in s.processed || Held(s.workers, p);
      ProcessedSettled(s, p);
    }
  }

  lemma {:induction false} WorkersStay(s: System, steps: seq<Step>)
    requires Tidy(s) && Legal(s, steps)
    ensures |Exec(s, steps).workers| == |s.workers|
    decreases |steps|
  {
    if steps != [] {
      WorkersStay(Next(s, steps[0]), steps[1..]);
    }
  }

  lemma ProcessedSettled(s: System, p: nat)
    requires Inv(s) && p in s.processed && p < |s.popped|
    ensures Settled(s, s.popped[p])
  {
    var i :| 0 <= i < |s.processed| && s.processed[i] == p;
    var task := s.popped[p];
    assert JudgedFully(s, s.ops, p);
    TraceGood(task.id, task.script);
    WholeTrace(s.ops, task.id, Trace(task.id, task.script));
    RecordHasLast(s.stores, s.ops, task.id);
  }

  lemma WholeTrace(ops: seq<Op>, id: int, trace: seq<SubmissionResult>)
    requires Reached(Accepted(ops, id), id, trace, |trace|)
    ensures Accepted(ops, id) == [Fresh(id, 0).result] + trace
  {
    assert trace[..|trace|] == trace;
  }

  lemma RecordHasLast(states: seq<Store>, ops: seq<Op>, id: int)
    requires Run(states, ops)
    ensures id in states[|ops|].results ==>
              Accepted(ops, id) != [] && states[|ops|].results[id].result == Last(Accepted(ops, id))
  {
    assert ops[..|ops|] == ops;
    AcceptedFormAPath(states, ops, |ops|, id);
  }

  // ---------- Stopping ----------

  /** Which of the stopping calls came first. */
  datatype Stopper = Nobody | ByStop | ByGraceful

  function FirstStopper(steps: seq<Step>): Stopper {
    if steps == [] then Nobody
    else match steps[0]
      case Stop => ByStop
      case GracefulShutdown => ByGraceful
      case _ => FirstStopper(steps[1..])
  }

  /** The queue is closed, or about to be, exactly when `stop` was called before any
      `graceful_shutdown`: the latter sets the flag first, so the `stop` it calls, and every
      later one, returns without closing anything. */
  lemma {:induction false} ClosingExactly(s: System, steps: seq<Step>)
    requires Tidy(s) && Legal(s, steps) && !s.stopped && !s.closed && s.closers == 0
    ensures
      var t := Exec(s, steps);
      && (t.closed || t.closers > 0 <==> FirstStopper(steps).ByStop?)
      && (t.stopped <==> !FirstStopper(steps).Nobody?)
    decreases |steps|
  {
    if steps != [] {
      var t := Next(s, steps[0]);
      if steps[0].Stop? || steps[0].GracefulShutdown? {
        StoppedStays(t, steps[1..]);
      } else {
        ClosingExactly(t, steps[1..]);
      }
    }
  }

  lemma {:induction false} StoppedStays(s: System, steps: seq<Step>)
    requires Tidy(s) && Legal(s, steps) && s.stopped
    ensures Exec(s, steps).stopped
    ensures Exec(s, steps).closed || Exec(s, steps).closers > 0 <==> s.closed || s.closers > 0
    decreases |steps|
  {
    if steps != [] {
      StoppedStays(Next(s, steps[0]), steps[1..]);
    }
  }

  /** A worker can have left only if `stop` came first: after a `graceful_shutdown` the pool
      never drains. */
  lemma WorkersLeaveOnlyAfterStop(workers: nat, steps: seq<Step>, w: nat)
    requires Legal(Initial(workers), steps) && w < |Exec(Initial(workers), steps).workers|
    requires Exec(Initial(workers), steps).workers[w].Exited?
    ensures FirstStopper(steps).ByStop?
  {
    InvInitial(workers);
    InvRun(Initial(workers), steps);
    ClosingExactly(Initial(workers), steps);
  }
}
