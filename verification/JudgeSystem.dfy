/** The judge as a whole: submitters, the queue, the workers, the store and the ways of
    stopping, interleaved one lock-protected call at a time. */
module JudgeSystems {
  import opened Submissions
  import opened ResultCleanup
  import opened ResultStores
  import opened ResultStoreRuns
  import opened JudgeTraces
  import opened SubmissionQueues

  /** A worker waits in `pop`, judges the task popped at a position with some snapshots
      written, or has left its loop. */
  datatype Worker = Waiting | Judging(pos: nat, written: nat) | Exited

  /** `stopped` is the pool's flag; `closers` counts calls of `stop` between setting it and
      closing the queue. `accepted`, `popped` and `processed` (positions of popped tasks whose
      `processSubmission` returned) are logs. */
  datatype System = System(
    ops: seq<Op>, stores: seq<Store>, inFlight: seq<Task>, queue: seq<Task>, closed: bool, stopped: bool, closers: nat,
    workers: seq<Worker>, accepted: seq<Task>, popped: seq<Task>, processed: seq<nat>)
  {
    function Now(): Store
      requires |stores| == |ops| + 1
    {
      stores[|ops|]
    }
  }

  datatype Step =
    | CreateRecord(op: Op, after: Store, script: Script)
    | Push(i: nat)
    | Pop(w: nat)
    | Write(w: nat, now: int, cfg: Config, ok: bool, after: Store)
    | Query(op: Op, after: Store)
    | Stop
    | CloseQueue
    | GracefulShutdown

  function Initial(workers: nat): System {
    System([], [EMPTY], [], [], false, false, 0, seq(workers, _ => Waiting), [], [], [])
  }

  ghost predicate Tidy(s: System) {
    && |s.stores| == |s.ops| + 1
    && (forall w :: 0 <= w < |s.workers| && s.workers[w].Judging? ==>
          s.workers[w].pos < |s.popped| && s.workers[w].written < |TraceAt(s, s.workers[w].pos)|)
  }

  ghost function TraceAt(s: System, pos: nat): seq<SubmissionResult>
    requires pos < |s.popped|
  {
    Trace(s.popped[pos].id, s.popped[pos].script)
  }

  /** The next snapshot of a judging worker, as an update of the store. */
  ghost function NextWrite(s: System, w: nat, now: int, cfg: Config, ok: bool): Op
    requires Tidy(s) && w < |s.workers| && s.workers[w].Judging?
  {
    var Judging(pos, written) := s.workers[w];
    Update(s.popped[pos].id, TraceAt(s, pos)[written], now, cfg, ok)
  }

  ghost predicate Enabled(s: System, step: Step)
    requires Tidy(s)
  {
    match step
    case CreateRecord(op, after, _) => op.Create? && StoreStep(s.Now(), after, op)
    case Push(i) => i < |s.inFlight|
    case Pop(w) => w < |s.workers| && s.workers[w].Waiting? && (s.closed || s.queue != [])
    case Write(w, now, cfg, ok, after) =>
      w < |s.workers| && s.workers[w].Judging? && StoreStep(s.Now(), after, NextWrite(s, w, now, cfg, ok))
    case Query(op, after) => op.Get? && StoreStep(s.Now(), after, op)
    case Stop => true
    case CloseQueue => s.closers > 0
    case GracefulShutdown => true
  }

  function Logged(s: System, op: Op, after: Store): System {
    s.(ops := s.ops + [op], stores := s.stores + [after])
  }

  ghost function Next(s: System, step: Step): System
    requires Tidy(s) && Enabled(s, step)
  {
    match step
    case CreateRecord(op, after, script) =>
      Logged(s, op, after).(inFlight := s.inFlight + [Task(op.id, script)])
    case Push(i) =>
      var task := s.inFlight[i];
      var s' := s.(inFlight := s.inFlight[..i] + s.inFlight[i + 1..]);
      if s.closed then s' else s'.(queue := s.queue + [task], accepted := s.accepted + [task])
    case Pop(w) =>
      if s.queue == [] then s.(workers := s.workers[w := Exited])
      else s.(workers := s.workers[w := Judging(|s.popped|, 0)], popped := s.popped + [s.queue[0]], queue := s.queue[1..])
    case Write(w, now, cfg, ok, after) =>
      var Judging(pos, written) := s.workers[w];
      var s' := Logged(s, NextWrite(s, w, now, cfg, ok), after);
      if ok && written + 1 < |TraceAt(s, pos)| then s'.(workers := s.workers[w := Judging(pos, written + 1)])
      else s'.(workers := s.workers[w := Waiting], processed := s.processed + [pos])
    case Query(op, after) => Logged(s, op, after)
    case Stop => if s.stopped then s else s.(stopped := true, closers := s.closers + 1)
    case CloseQueue => s.(closed := true, closers := s.closers - 1)
    case GracefulShutdown => s.(stopped := true)
  }

  // ---------- Invariants ----------

  /** FIFO: what was accepted is what was popped followed by what waits, and a worker leaves
      only when the queue is closed and drained. */
  ghost predicate QueueInv(s: System) {
    && s.accepted == s.popped + s.queue
    && (forall w :: 0 <= w < |s.workers| && s.workers[w].Exited? ==> s.closed && s.queue == [])
  }

  /** Every one of the `n` popped tasks is either done or in the hands of a worker, and no
      task is twice in either. */
  ghost predicate Positions(workers: seq<Worker>, n: nat, processed: seq<nat>) {
    && (forall i :: 0 <= i < |processed| ==> processed[i] < n)
    && (forall i, j :: 0 <= i < j < |processed| ==> processed[i] != processed[j])
    && (forall w, v :: 0 <= w < v < |workers| && workers[w].Judging? && workers[v].Judging? ==> workers[w].pos != workers[v].pos)
    && (forall w :: 0 <= w < |workers| && workers[w].Judging? ==> workers[w].pos < n && workers[w].pos !in processed)
    && (forall p :: 0 <= p < n ==> p in processed || Held(workers, p))
  }

  ghost predicate Held(workers: seq<Worker>, p: int) {
    exists w :: 0 <= w < |workers| && workers[w].Judging? && workers[w].pos == p
  }

  ghost predicate LogInv(s: System) {
    Run(s.stores, s.ops)
  }

  ghost predicate FreshIds(tasks: seq<Task>, nextId: int) {
    && (forall i :: 0 <= i < |tasks| ==> 1 <= tasks[i].id < nextId)
    && (forall i, j :: 0 <= i < j < |tasks| ==> tasks[i].id != tasks[j].id)
  }

  /** No two tasks share an id, and the store handed each of them out. */
  ghost predicate TaskInv(accepted: seq<Task>, inFlight: seq<Task>, nextId: int) {
    && FreshIds(accepted, nextId) && FreshIds(inFlight, nextId)
    && (forall i, j :: 0 <= i < |accepted| && 0 <= j < |inFlight| ==> accepted[i].id != inFlight[j].id)
  }

  /** The store has accepted, for this task, its creation and `n` snapshots. */
  ghost predicate Written(ops: seq<Op>, task: Task, n: nat) {
    Reached(Accepted(ops, task.id), task.id, Trace(task.id, task.script), n)
  }

  ghost predicate Reached(accepted: seq<SubmissionResult>, id: int, trace: seq<SubmissionResult>, n: nat) {
    n <= |trace| && accepted == [Fresh(id, 0).result] + trace[..n]
  }

  /** How far the store has got with each task, leaving out the one popped at `skip`. */
  ghost predicate WrittenBut(s: System, ops: seq<Op>, skip: int) {
    && (forall i :: 0 <= i < |s.inFlight| ==> Written(ops, s.inFlight[i], 0))
    && (forall i :: 0 <= i < |s.queue| ==> Written(ops, s.queue[i], 0))
    && (forall w :: 0 <= w < |s.workers| && s.workers[w].Judging? && s.workers[w].pos != skip ==> JudgedTo(s, ops, s.workers[w]))
    && (forall i :: 0 <= i < |s.processed| && s.processed[i] != skip ==> JudgedFully(s, ops, s.processed[i]))
  }

  ghost predicate JudgedTo(s: System, ops: seq<Op>, worker: Worker)
    requires worker.Judging?
  {
    && worker.pos < |s.popped| && worker.written < |TraceAt(s, worker.pos)|
    && Written(ops, s.popped[worker.pos], worker.written)
  }

  ghost predicate JudgedFully(s: System, ops: seq<Op>, pos: nat) {
    pos < |s.popped| && Written(ops, s.popped[pos], |TraceAt(s, pos)|)
  }

  ghost predicate WrittenInv(s: System) {
    WrittenBut(s, s.ops, -1)
  }

  ghost predicate Inv(s: System) {
    && LogInv(s) && QueueInv(s) && Positions(s.workers, |s.popped|, s.processed)
    && TaskInv(s.accepted, s.inFlight, s.Now().nextId) && WrittenInv(s)
  }

  lemma InvInitial(workers: nat)
    ensures Inv(Initial(workers)) && Tidy(Initial(workers))
  {
    var s := Initial(workers);
    assert forall w :: 0 <= w < |s.workers| ==> s.workers[w] == Waiting;
    assert LogInv(s) && QueueInv(s);
    assert Positions(s.workers, 0, []);
    assert WrittenInv(s);
    assert TaskInv([], [], 1);
  }

  lemma InvIsTidy(s: System)
    requires Inv(s)
    ensures Tidy(s)
  {
  }

  // ---------- Steps ----------

  lemma QueueStep(s: System, step: Step)
    requires Tidy(s) && Enabled(s, step) && QueueInv(s)
    ensures QueueInv(Next(s, step))
  {
  }

  lemma HeldElsewhere(workers: seq<Worker>, w: nat, next: Worker, p: int)
    requires w < |workers| && Held(workers, p) && !(workers[w].Judging? && workers[w].pos == p)
    ensures Held(workers[w := next], p)
  {
    var v :| 0 <= v < |workers| && workers[v].Judging? && workers[v].pos == p;
    assert workers[w := next][v] == workers[v];
  }

  lemma Taken(workers: seq<Worker>, w: nat, n: nat, processed: seq<nat>)
    requires Positions(workers, n, processed) && w < |workers| && workers[w].Waiting?
    ensures Positions(workers[w := Judging(n, 0)], n + 1, processed)
  {
    var after := workers[w := Judging(n, 0)];
    forall p | 0 <= p < n + 1
      ensures p in processed || Held(after, p)
    {
      if p == n {
        assert after[w].pos == p;
      } else if p !in processed {
        HeldElsewhere(workers, w, Judging(n, 0), p);
      }
    }
  }

  lemma Done(workers: seq<Worker>, w: nat, n: nat, processed: seq<nat>)
    requires Positions(workers, n, processed) && w < |workers| && workers[w].Judging?
    ensures Positions(workers[w := Waiting], n, processed + [workers[w].pos])
  {
    var after := processed + [workers[w].pos];
    forall p | 0 <= p < n
      ensures p in after || Held(workers[w := Waiting], p)
    {
      if p == workers[w].pos {
        assert after[|processed|] == p;
      } else if p in processed {
        var i :| 0 <= i < |processed| && processed[i] == p;
        assert after[i] == p;
      } else {
        HeldElsewhere(workers, w, Waiting, p);
      }
    }
  }

  lemma Carried(workers: seq<Worker>, w: nat, next: Worker, n: nat, processed: seq<nat>)
    requires Positions(workers, n, processed) && w < |workers|
    requires if workers[w].Judging? then next.Judging? && next.pos == workers[w].pos else !next.Judging?
    ensures Positions(workers[w := next], n, processed)
  {
    forall p | 0 <= p < n
      ensures p in processed || Held(workers[w := next], p)
    {
      if p !in processed {
        var v :| 0 <= v < |workers| && workers[v].Judging? && workers[v].pos == p;
        assert workers[w := next][v].pos == p;
      }
    }
  }

  lemma PositionStep(s: System, step: Step)
    requires Tidy(s) && Enabled(s, step) && Positions(s.workers, |s.popped|, s.processed)
    ensures Positions(Next(s, step).workers, |Next(s, step).popped|, Next(s, step).processed)
  {
    match step {
      case Pop(w) =>
        if s.queue == [] {
          Carried(s.workers, w, Exited, |s.popped|, s.processed);
        } else {
          Taken(s.workers, w, |s.popped|, s.processed);
        }
      case Write(w, now, cfg, ok, after) =>
        var next := Next(s, step).workers[w];
        if next.Judging? {
          Carried(s.workers, w, next, |s.popped|, s.processed);
        } else {
          Done(s.workers, w, |s.popped|, s.processed);
        }
      case _ =>
    }
  }

  lemma LogStep(s: System, step: Step)
    requires Tidy(s) && Enabled(s, step) && LogInv(s)
    ensures LogInv(Next(s, step))
  {
    match step {
      case CreateRecord(op, after, _) => RunExtends(s.stores, s.ops, after, op);
      case Write(w, now, cfg, ok, after) => RunExtends(s.stores, s.ops, after, NextWrite(s, w, now, cfg, ok));
      case Query(op, after) => RunExtends(s.stores, s.ops, after, op);
      case _ =>
    }
  }

  // ---------- Ids ----------

  lemma CounterMoves(s: System, after: Store, op: Op)
    requires LogInv(s) && StoreStep(s.Now(), after, op)
    ensures CounterStep(s.Now(), after, op) && s.Now().nextId >= 1
  {
    InvRun(s.stores, s.ops, |s.ops|);
    RecordStep(s.Now(), after, op, 0);
  }

  lemma PushedIds(accepted: seq<Task>, inFlight: seq<Task>, i: nat, nextId: int)
    requires TaskInv(accepted, inFlight, nextId) && i < |inFlight|
    ensures TaskInv(accepted, inFlight[..i] + inFlight[i + 1..], nextId)
    ensures TaskInv(accepted + [inFlight[i]], inFlight[..i] + inFlight[i + 1..], nextId)
  {
    var rest := inFlight[..i] + inFlight[i + 1..];
    assert forall k :: 0 <= k < |rest| ==> rest[k] == inFlight[if k < i then k else k + 1];
  }

  lemma TaskStep(s: System, step: Step)
    requires Tidy(s) && Enabled(s, step) && LogInv(s) && TaskInv(s.accepted, s.inFlight, s.Now().nextId)
    ensures TaskInv(Next(s, step).accepted, Next(s, step).inFlight, Next(s, step).Now().nextId)
  {
    match step {
      case CreateRecord(op, after, _) => CounterMoves(s, after, op);
      case Push(i) => PushedIds(s.accepted, s.inFlight, i, s.Now().nextId);
      case Write(w, now, cfg, ok, after) => CounterMoves(s, after, NextWrite(s, w, now, cfg, ok));
      case Query(op, after) => CounterMoves(s, after, op);
      case _ =>
    }
  }

  // ---------- Snapshots ----------

  lemma AcceptedSnoc(ops: seq<Op>, op: Op, id: int)
    ensures Accepted(ops + [op], id) == Accepted(ops, id) + Gained(op, id)
  {
    assert (ops + [op])[..|ops|] == ops;
  }

  lemma KeptWritten(ops: seq<Op>, op: Op, task: Task, n: nat)
    requires Written(ops, task, n) && Gained(op, task.id) == []
    ensures Written(ops + [op], task, n)
  {
    AcceptedSnoc(ops, op, task.id);
  }

  /** A call that gives nothing to any task but the one popped at `skip`. */
  ghost predicate Spares(s: System, op: Op, skip: int) {
    && (forall i :: 0 <= i < |s.inFlight| ==> Gained(op, s.inFlight[i].id) == [])
    && (forall i :: 0 <= i < |s.accepted| && i != skip ==> Gained(op, s.accepted[i].id) == [])
  }

  lemma KeptPopped(s: System, op: Op, skip: int, pos: nat, n: nat)
    requires s.accepted == s.popped + s.queue && Spares(s, op, skip) && pos < |s.popped| && pos != skip
    requires Written(s.ops, s.popped[pos], n)
    ensures Written(s.ops + [op], s.popped[pos], n)
  {
    assert s.accepted[pos] == s.popped[pos];
    KeptWritten(s.ops, op, s.popped[pos], n);
  }

  lemma KeptWaiting(s: System, op: Op, skip: int)
    requires s.accepted == s.popped + s.queue && Spares(s, op, skip) && skip < |s.popped|
    requires forall i :: 0 <= i < |s.inFlight| ==> Written(s.ops, s.inFlight[i], 0)
    requires forall i :: 0 <= i < |s.queue| ==> Written(s.ops, s.queue[i], 0)
    ensures forall i :: 0 <= i < |s.inFlight| ==> Written(s.ops + [op], s.inFlight[i], 0)
    ensures forall i :: 0 <= i < |s.queue| ==> Written(s.ops + [op], s.queue[i], 0)
  {
    forall i | 0 <= i < |s.inFlight|
      ensures Written(s.ops + [op], s.inFlight[i], 0)
    {
      KeptWritten(s.ops, op, s.inFlight[i], 0);
    }
    forall i | 0 <= i < |s.queue|
      ensures Written(s.ops + [op], s.queue[i], 0)
    {
      assert s.accepted[|s.popped| + i] == s.queue[i];
      KeptWritten(s.ops, op, s.queue[i], 0);
    }
  }

  lemma LoggedKeeps(s: System, op: Op, skip: int)
    requires WrittenInv(s) && s.accepted == s.popped + s.queue && Spares(s, op, skip) && skip < |s.popped|
    ensures WrittenBut(s, s.ops + [op], skip)
  {
    var ops := s.ops + [op];
    KeptWaiting(s, op, skip);
    forall w | 0 <= w < |s.workers| && s.workers[w].Judging? && s.workers[w].pos != skip
      ensures JudgedTo(s, ops, s.workers[w])
    {
      assert JudgedTo(s, s.ops, s.workers[w]);
      KeptPopped(s, op, skip, s.workers[w].pos, s.workers[w].written);
    }
    forall i | 0 <= i < |s.processed| && s.processed[i] != skip
      ensures JudgedFully(s, ops, s.processed[i])
    {
      assert JudgedFully(s, s.ops, s.processed[i]);
      KeptPopped(s, op, skip, s.processed[i], |TraceAt(s, s.processed[i])|);
    }
  }

  /** No snapshot of a task is refused: its record is open, at the status written last. */
  lemma NeverRefused(s: System, w: nat, now: int, cfg: Config, ok: bool, after: Store)
    requires Inv(s) && Tidy(s) && Enabled(s, Write(w, now, cfg, ok, after))
    ensures ok
  {
    var Judging(pos, written) := s.workers[w];
    var task, op := s.popped[pos], NextWrite(s, w, now, cfg, ok);
    assert JudgedTo(s, s.ops, s.workers[w]);
    assert s.accepted[pos] == task;
    assert s.ops[..|s.ops|] == s.ops;
    AcceptedFormAPath(s.stores, s.ops, |s.ops|, task.id);
    InvRun(s.stores, s.ops, |s.ops|);
    UpdateAnswers(s.Now(), after, op);
    OpenForNext(task, written, Accepted(s.ops, task.id));
  }

  lemma OpenForNext(task: Task, n: nat, accepted: seq<SubmissionResult>)
    requires n < |Trace(task.id, task.script)| && Reached(accepted, task.id, Trace(task.id, task.script), n)
    ensures ValidTransition(Last(accepted).status, Trace(task.id, task.script)[n].status)
  {
    TraceGood(task.id, task.script);
    OpenAlong(accepted, task.id, Trace(task.id, task.script), n);
  }

  lemma OpenAlong(accepted: seq<SubmissionResult>, id: int, trace: seq<SubmissionResult>, n: nat)
    requires n < |trace| && Reached(accepted, id, trace, n) && GoodTrace(Queued, trace, id)
    ensures ValidTransition(Last(accepted).status, trace[n].status)
  {
    if n > 0 {
      assert Last(accepted) == trace[n - 1];
      assert ValidTransition(trace[n - 1].status, trace[n - 1 + 1].status);
    }
  }

  lemma ReachedNext(accepted: seq<SubmissionResult>, id: int, trace: seq<SubmissionResult>, n: nat)
    requires n < |trace| && Reached(accepted, id, trace, n)
    ensures Reached(accepted + [trace[n]], id, trace, n + 1)
  {
    assert trace[..n + 1] == trace[..n] + [trace[n]];
  }

  lemma IdForced(id: int, trace: seq<SubmissionResult>, n: nat)
    requires n < |trace| && GoodTrace(Queued, trace, id)
    ensures trace[n].(submissionId := id) == trace[n]
  {
  }

  /** An accepted write takes the written task one snapshot further and spares the others. */
  lemma WriteAdvances(s: System, w: nat, now: int, cfg: Config)
    requires Inv(s) && Tidy(s) && w < |s.workers| && s.workers[w].Judging?
    ensures
      var op := NextWrite(s, w, now, cfg, true);
      && WrittenBut(s, s.ops + [op], s.workers[w].pos)
      && Written(s.ops + [op], s.popped[s.workers[w].pos], s.workers[w].written + 1)
  {
    var Judging(pos, written) := s.workers[w];
    var task, op, trace := s.popped[pos], NextWrite(s, w, now, cfg, true), TraceAt(s, pos);
    assert JudgedTo(s, s.ops, s.workers[w]);
    assert s.accepted[pos] == task;
    assert Spares(s, op, pos);
    LoggedKeeps(s, op, pos);
    TraceGood(task.id, task.script);
    IdForced(task.id, trace, written);
    AcceptedSnoc(s.ops, op, task.id);
    ReachedNext(Accepted(s.ops, task.id), task.id, trace, written);
  }

  /** The step's effect on the workers and the log, once the store has moved on. */
  lemma WorkerAdvances(s: System, t: System, w: nat)
    requires Positions(s.workers, |s.popped|, s.processed) && w < |s.workers| && s.workers[w].Judging?
    requires s.workers[w].written < |TraceAt(s, s.workers[w].pos)|
    requires WrittenBut(s, t.ops, s.workers[w].pos) && Written(t.ops, s.popped[s.workers[w].pos], s.workers[w].written + 1)
    requires t.popped == s.popped && t.inFlight == s.inFlight && t.queue == s.queue
    requires
      var Judging(pos, written) := s.workers[w];
      if written + 1 < |TraceAt(s, pos)| then t.workers == s.workers[w := Judging(pos, written + 1)] && t.processed == s.processed
      else t.workers == s.workers[w := Waiting] && t.processed == s.processed + [pos]
    ensures WrittenInv(t)
  {
    forall v | 0 <= v < |t.workers| && t.workers[v].Judging?
      ensures JudgedTo(t, t.ops, t.workers[v])
    {
      if v != w {
        assert JudgedTo(s, t.ops, s.workers[v]);
      }
    }
    forall i | 0 <= i < |t.processed|
      ensures JudgedFully(t, t.ops, t.processed[i])
    {
      if i < |s.processed| {
        assert s.processed[i] in s.processed;
        assert JudgedFully(s, t.ops, s.processed[i]);
      }
    }
  }

  lemma WriteStep(s: System, w: nat, now: int, cfg: Config, ok: bool, after: Store)
    requires Inv(s) && Tidy(s) && Enabled(s, Write(w, now, cfg, ok, after))
    ensures WrittenInv(Next(s, Write(w, now, cfg, ok, after)))
  {
    NeverRefused(s, w, now, cfg, ok, after);
    WriteAdvances(s, w, now, cfg);
    WorkerAdvances(s, Next(s, Write(w, now, cfg, ok, after)), w);
  }

  lemma WrittenStep(s: System, step: Step)
    requires Inv(s) && Tidy(s) && Enabled(s, step)
    ensures WrittenInv(Next(s, step))
  {
    match step {
      case CreateRecord(op, after, script) => CreateStep(s, op, after, script);
      case Push(i) => PushStep(s, i);
      case Pop(w) => PopStep(s, w);
      case Write(w, now, cfg, ok, after) => WriteStep(s, w, now, cfg, ok, after);
      case Query(op, after) => QueryStep(s, op, after);
      case _ => SameProgress(s, Next(s, step));
    }
  }

  lemma QueryStep(s: System, op: Op, after: Store)
    requires Inv(s) && Tidy(s) && Enabled(s, Query(op, after))
    ensures WrittenInv(Next(s, Query(op, after)))
  {
    assert Spares(s, op, -1);
    LoggedKeeps(s, op, -1);
    SameProgress(s, Next(s, Query(op, after)));
  }

  lemma PushStep(s: System, i: nat)
    requires Inv(s) && Tidy(s) && Enabled(s, Push(i))
    ensures WrittenInv(Next(s, Push(i)))
  {
    LeftFlight(s, i);
    if !s.closed {
      TaskQueued(s.(inFlight := s.inFlight[..i] + s.inFlight[i + 1..]), s.inFlight[i]);
    }
  }

  lemma LeftFlight(s: System, i: nat)
    requires WrittenInv(s) && i < |s.inFlight|
    ensures WrittenInv(s.(inFlight := s.inFlight[..i] + s.inFlight[i + 1..]))
  {
    var rest := s.inFlight[..i] + s.inFlight[i + 1..];
    assert forall k :: 0 <= k < |rest| ==> rest[k] == s.inFlight[if k < i then k else k + 1];
    SameProgress(s, s.(inFlight := rest));
  }

  lemma TaskQueued(s: System, task: Task)
    requires WrittenInv(s) && Written(s.ops, task, 0)
    ensures WrittenInv(s.(queue := s.queue + [task], accepted := s.accepted + [task]))
  {
    var t := s.(queue := s.queue + [task], accepted := s.accepted + [task]);
    assert forall k :: 0 <= k < |s.queue| ==> t.queue[k] == s.queue[k];
    forall w | 0 <= w < |t.workers| && t.workers[w].Judging?
      ensures JudgedTo(t, t.ops, t.workers[w])
    {
      assert JudgedTo(s, s.ops, s.workers[w]);
    }
    forall k | 0 <= k < |t.processed|
      ensures JudgedFully(t, t.ops, t.processed[k])
    {
      assert JudgedFully(s, s.ops, s.processed[k]);
    }
  }

  lemma SameProgress(s: System, t: System)
    requires WrittenBut(s, t.ops, -1) && t.popped == s.popped && t.workers == s.workers && t.processed == s.processed
    requires t.queue == s.queue && forall i :: 0 <= i < |t.inFlight| ==> Written(t.ops, t.inFlight[i], 0)
    ensures WrittenInv(t)
  {
    forall w | 0 <= w < |t.workers| && t.workers[w].Judging?
      ensures JudgedTo(t, t.ops, t.workers[w])
    {
      assert JudgedTo(s, t.ops, s.workers[w]);
    }
    forall i | 0 <= i < |t.processed|
      ensures JudgedFully(t, t.ops, t.processed[i])
    {
      assert JudgedFully(s, t.ops, s.processed[i]);
    }
  }

  lemma NewWritten(s: System, op: Op, script: Script)
    requires LogInv(s) && op.Create? && op.id == s.Now().nextId
    ensures Written(s.ops + [op], Task(op.id, script), 0)
  {
    assert s.ops[..|s.ops|] == s.ops;
    AcceptedFormAPath(s.stores, s.ops, |s.ops|, op.id);
    AcceptedSnoc(s.ops, op, op.id);
  }

  lemma NewSpares(s: System, op: Op)
    requires TaskInv(s.accepted, s.inFlight, op.id) && op.Create?
    ensures Spares(s, op, -1)
  {
  }

  lemma CreateStep(s: System, op: Op, after: Store, script: Script)
    requires Inv(s) && Tidy(s) && Enabled(s, CreateRecord(op, after, script))
    ensures WrittenInv(Next(s, CreateRecord(op, after, script)))
  {
    CounterMoves(s, after, op);
    NewSpares(s, op);
    LoggedKeeps(s, op, -1);
    NewWritten(s, op, script);
    SameProgress(s, Next(s, CreateRecord(op, after, script)));
  }

  lemma PopStep(s: System, w: nat)
    requires Inv(s) && Tidy(s) && Enabled(s, Pop(w))
    ensures WrittenInv(Next(s, Pop(w)))
  {
    var t := Next(s, Pop(w));
    forall v | 0 <= v < |t.workers| && t.workers[v].Judging?
      ensures JudgedTo(t, t.ops, t.workers[v])
    {
      if v != w {
        assert JudgedTo(s, s.ops, s.workers[v]);
      } else {
        TraceGood(t.popped[|s.popped|].id, t.popped[|s.popped|].script);
      }
    }
    forall i | 0 <= i < |t.processed|
      ensures JudgedFully(t, t.ops, t.processed[i])
    {
      assert JudgedFully(s, s.ops, s.processed[i]);
    }
  }

  lemma InvStep(s: System, step: Step)
    requires Inv(s) && Tidy(s) && Enabled(s, step)
    ensures Inv(Next(s, step)) && Tidy(Next(s, step))
  {
    LogStep(s, step);
    QueueStep(s, step);
    PositionStep(s, step);
    TaskStep(s, step);
    WrittenStep(s, step);
    InvIsTidy(Next(s, step));
  }
}
