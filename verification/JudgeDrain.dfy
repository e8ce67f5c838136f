/** After `stop` the pool drains: a closed judge is never stuck, and the number of worker
    steps left is known. */
module JudgeDrain {
  import opened Submissions
  import opened ResultCleanup
  import opened ResultStores
  import opened JudgeTraces
  import opened SubmissionQueues
  import opened JudgeSystems
  import T = JudgeTheorems

  // ---------- A cleanup always has an outcome ----------

  lemma {:induction false} OldestFinished(results: Results, ids: set<int>) returns (oldest: int)
    requires exists id :: id in ids && id in results && results[id].finishedAt.Some?
    ensures oldest in ids && oldest in results && results[oldest].finishedAt.Some?
    ensures forall id :: id in ids && id in results && results[id].finishedAt.Some? ==>
              results[oldest].finishedAt.value <= results[id].finishedAt.value
    decreases |ids|
  {
    var x :| x in ids && x in results && results[x].finishedAt.Some?;
    var rest := ids - {x};
    if exists id :: id in rest && id in results && results[id].finishedAt.Some? {
      var y := OldestFinished(results, rest);
      oldest := if results[x].finishedAt.value <= results[y].finishedAt.value then x else y;
      assert forall id :: id in ids ==> id == x || id in rest;
    } else {
      oldest := x;
      assert forall id :: id in ids && id != x ==> id in rest;
    }
  }

  lemma {:induction false} EvictionExists(base: Results, cfg: Config) returns (after: Results)
    ensures Evicted(base, after, cfg)
    decreases |base|
  {
    if cfg.maxStored <= 0 || |base| <= cfg.maxStored || !AnyFinished(base) {
      return base;
    }
    var some :| some in base && base[some].finishedAt.Some?;
    assert some in base.Keys;
    var id := OldestFinished(base, base.Keys);
    var smaller := base - {id};
    RemovingOne(base, id);
    after := EvictionExists(smaller, cfg);
    EvictionCons(base, id, smaller, after, cfg);
  }

  lemma EvictionCons(base: Results, id: int, smaller: Results, after: Results, cfg: Config)
    requires id in base && base[id].finishedAt.Some? && smaller == base - {id} && Evicted(smaller, after, cfg)
    requires forall k :: k in base.Keys && k in base && base[k].finishedAt.Some? ==> base[id].finishedAt.value <= base[k].finishedAt.value
    requires 0 < cfg.maxStored <= |smaller|
    ensures Evicted(base, after, cfg)
  {
    forall k | Removed(base, after, k)
      ensures k == id || Removed(smaller, after, k)
    {
    }
    assert after == smaller ==> |after| >= cfg.maxStored;
  }

  lemma UpdateHasOutcome(s: Store, id: int, result: SubmissionResult, now: int, cfg: Config) returns (ok: bool, after: Store)
    ensures StoreStep(s, after, Update(id, result, now, cfg, ok))
  {
    var mid := EvictionExists(Unexpired(s.results, now, cfg), cfg);
    assert CleanedUp(s.results, mid, now, cfg);
    ok := Accepts(mid, id, result.status);
    after := Store(mid, s.nextId);
    if ok {
      var written := mid[id := ResultStores.Written(mid[id], id, result, now)];
      var t := EvictionExists(Unexpired(written, now, cfg), cfg);
      assert CleanedUp(written, t, now, cfg);
      after := Store(t, s.nextId);
    }
    var op := Update(id, result, now, cfg, ok);
    assert CleanedUp(s.results, mid, op.now, op.cfg) && Finishes(mid, after, s.nextId, op);
  }

  // ---------- The work left ----------

  ghost function QueueLoad(queue: seq<Task>): nat {
    if queue == [] then 0 else |Trace(queue[0].id, queue[0].script)| + 1 + QueueLoad(queue[1..])
  }

  /** One step to leave, and before it one per snapshot still to write. */
  ghost function WorkerLoad(popped: seq<Task>, worker: Worker): nat {
    match worker
    case Waiting => 1
    case Exited => 0
    case Judging(pos, written) =>
      if pos < |popped| && written <= |Trace(popped[pos].id, popped[pos].script)|
      then |Trace(popped[pos].id, popped[pos].script)| - written + 1 else 0
  }

  ghost function WorkersLoad(popped: seq<Task>, workers: seq<Worker>): nat {
    if workers == [] then 0 else WorkerLoad(popped, workers[0]) + WorkersLoad(popped, workers[1..])
  }

  ghost function Work(s: System): nat {
    QueueLoad(s.queue) + WorkersLoad(s.popped, s.workers)
  }

  lemma {:induction false} LoadOfUpdate(popped: seq<Task>, workers: seq<Worker>, w: nat, next: Worker)
    requires w < |workers|
    ensures WorkersLoad(popped, workers[w := next]) ==
            WorkersLoad(popped, workers) - WorkerLoad(popped, workers[w]) + WorkerLoad(popped, next)
  {
    if w == 0 {
      assert workers[w := next][1..] == workers[1..];
    } else {
      LoadOfUpdate(popped, workers[1..], w - 1, next);
      assert workers[w := next][1..] == workers[1..][w - 1 := next];
    }
  }

  lemma {:induction false} LoadOfLonger(popped: seq<Task>, task: Task, workers: seq<Worker>)
    requires forall w :: 0 <= w < |workers| && workers[w].Judging? ==> workers[w].pos < |popped|
    ensures WorkersLoad(popped + [task], workers) == WorkersLoad(popped, workers)
  {
    if workers != [] {
      LoadOfLonger(popped, task, workers[1..]);
    }
  }

  predicate ByWorker(step: Step) {
    step.Pop? || step.Write?
  }

  /** In a closed judge every worker step takes one off the work left, and no other step
      changes it. */
  lemma WorkStep(s: System, step: Step)
    requires Inv(s) && Tidy(s) && Enabled(s, step) && s.closed
    ensures Next(s, step).closed
    ensures Work(Next(s, step)) == Work(s) - if ByWorker(step) then 1 else 0
  {
    match step {
      case Pop(w) => PopWork(s, w);
      case Write(w, now, cfg, ok, after) => WriteWork(s, w, now, cfg, ok, after);
      case _ =>
    }
  }

  lemma PopWork(s: System, w: nat)
    requires Inv(s) && Tidy(s) && Enabled(s, Pop(w))
    ensures Work(Next(s, Pop(w))) == Work(s) - 1
  {
    if s.queue == [] {
      LoadOfUpdate(s.popped, s.workers, w, Exited);
    } else {
      var popped := s.popped + [s.queue[0]];
      LoadOfLonger(s.popped, s.queue[0], s.workers);
      LoadOfUpdate(popped, s.workers, w, Judging(|s.popped|, 0));
      assert popped[|s.popped|] == s.queue[0];
    }
  }

  lemma WriteWork(s: System, w: nat, now: int, cfg: Config, ok: bool, after: Store)
    requires Inv(s) && Tidy(s) && Enabled(s, Write(w, now, cfg, ok, after))
    ensures Work(Next(s, Write(w, now, cfg, ok, after))) == Work(s) - 1
  {
    NeverRefused(s, w, now, cfg, ok, after);
    OneSnapshotLess(s, Next(s, Write(w, now, cfg, true, after)), w);
  }

  lemma OneSnapshotLess(s: System, t: System, w: nat)
    requires w < |s.workers| && s.workers[w].Judging? && s.workers[w].pos < |s.popped|
    requires s.workers[w].written < |TraceAt(s, s.workers[w].pos)|
    requires t.queue == s.queue && t.popped == s.popped
    requires
      var Judging(pos, written) := s.workers[w];
      t.workers == s.workers[w := if written + 1 < |TraceAt(s, pos)| then Judging(pos, written + 1) else Waiting]
    ensures Work(t) == Work(s) - 1
  {
    LoadOfUpdate(s.popped, s.workers, w, t.workers[w]);
  }

  function WorkerSteps(steps: seq<Step>): nat {
    if steps == [] then 0 else (if ByWorker(steps[0]) then 1 else 0) + WorkerSteps(steps[1..])
  }

  lemma {:induction false} WorkRun(s: System, steps: seq<Step>)
    requires Inv(s) && Tidy(s) && T.Legal(s, steps) && s.closed
    ensures T.Exec(s, steps).closed && Inv(T.Exec(s, steps))
    ensures Work(T.Exec(s, steps)) + WorkerSteps(steps) == Work(s)
    ensures |T.Exec(s, steps).workers| == |s.workers|
    decreases |steps|
  {
    if steps != [] {
      WorkStep(s, steps[0]);
      InvStep(s, steps[0]);
      WorkRun(Next(s, steps[0]), steps[1..]);
    }
  }

  lemma {:induction false} NoWorkExactly(popped: seq<Task>, workers: seq<Worker>)
    requires forall w :: 0 <= w < |workers| && workers[w].Judging? ==> WorkerLoad(popped, workers[w]) > 0
    ensures WorkersLoad(popped, workers) == 0 <==> forall w :: 0 <= w < |workers| ==> workers[w].Exited?
  {
    if workers != [] {
      NoWorkExactly(popped, workers[1..]);
      assert forall w :: 0 < w < |workers| ==> workers[w] == workers[1..][w - 1];
      assert forall w :: 0 <= w < |workers[1..]| ==> workers[1..][w] == workers[w + 1];
    }
  }

  // ---------- The theorems ----------

  /** From any closed state the judge can reach, all workers have left after exactly as many
      worker steps as there was work, whatever submitters, queries and stoppers do between
      them; never after more. */
  lemma DrainsInExactly(workers: nat, before: seq<Step>, steps: seq<Step>)
    requires workers > 0 && T.Legal(Initial(workers), before)
    requires T.Exec(Initial(workers), before).closed && T.Legal(T.Exec(Initial(workers), before), steps)
    ensures
      var s := T.Exec(Initial(workers), before);
      && WorkerSteps(steps) <= Work(s)
      && (T.AllExited(T.Exec(s, steps)) <==> WorkerSteps(steps) == Work(s))
  {
    InvInitial(workers);
    T.InvRun(Initial(workers), before);
    T.WorkersStay(Initial(workers), before);
    var s := T.Exec(Initial(workers), before);
    WorkRun(s, steps);
    DoneExactly(T.Exec(s, steps));
  }

  lemma DoneExactly(t: System)
    requires Inv(t) && Tidy(t) && |t.workers| > 0
    ensures Work(t) == 0 <==> T.AllExited(t)
  {
    NoWorkExactly(t.popped, t.workers);
    if T.AllExited(t) {
      assert t.workers[0].Exited?;
    }
  }

  /** And until they have, some worker can take a step: a store call always has an outcome. */
  lemma NeverStuck(workers: nat, steps: seq<Step>, now: int, cfg: Config) returns (step: Step)
    requires T.Legal(Initial(workers), steps)
    requires T.Exec(Initial(workers), steps).closed && !T.AllExited(T.Exec(Initial(workers), steps))
    ensures ByWorker(step) && Enabled(T.Exec(Initial(workers), steps), step)
  {
    var s := T.Exec(Initial(workers), steps);
    var w :| 0 <= w < |s.workers| && !s.workers[w].Exited?;
    if s.workers[w].Waiting? {
      step := Pop(w);
    } else {
      var Judging(pos, written) := s.workers[w];
      var ok, after := UpdateHasOutcome(s.Now(), s.popped[pos].id, TraceAt(s, pos)[written], now, cfg);
      step := Write(w, now, cfg, ok, after);
    }
  }
}
