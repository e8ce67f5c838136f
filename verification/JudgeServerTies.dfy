/** What keeps the two halves of the server in step. */
module JudgeServerTies {
  import opened Submissions
  import opened Wrappers
  import opened ResultCleanup
  import opened ResultStores
  import opened ResultStoreRuns
  import opened JudgeTraces
  import opened SubmissionQueues
  import opened JudgeServers
  import P = ReplyProtocol
  import B = ReplyPosts
  import S = JudgeSystems
  import T = JudgeTheorems

  function IdAt(sys: S.System, pos: nat): int
    requires pos < |sys.popped|
  {
    sys.popped[pos].id
  }

  /** The last snapshot of the task's trace. */
  ghost function Final(task: Task): (r: SubmissionResult)
    ensures Terminal(r.status) && r.submissionId == task.id
  {
    TraceGood(task.id, task.script);
    Last(Trace(task.id, task.script))
  }

  predicate Holds(sys: S.System, worker: P.Worker, pos: nat) {
    pos < |sys.popped| && worker.Holding? && worker.task.id == IdAt(sys, pos)
  }

  predicate Done(sys: S.System, worker: S.Worker, pos: nat) {
    pos < |sys.popped| && pos in sys.processed && worker.Waiting?
  }

  predicate IsAbout(tellings: seq<nat>, n: nat, pos: nat) {
    n < |tellings| && tellings[n] == pos
  }

  /** A worker's stage against its two halves. No worker ever has an update to tell. */
  ghost predicate StageOk(sys: S.System, tellings: seq<nat>, stage: Stage, net: P.Worker, judge: S.Worker) {
    match stage
    case Off => net.Waiting? && !judge.Judging?
    case Begun(pos) => Holds(sys, net, pos) && judge == S.Judging(pos, 0)
    case TellingStart(_) => false
    case Judge(pos) => Holds(sys, net, pos) && judge.Judging? && judge.pos == pos
    case Judged(pos) => Holds(sys, net, pos) && Done(sys, judge, pos)
    case Telling(pos, result) => Holds(sys, net, pos) && Done(sys, judge, pos) && result == Final(sys.popped[pos])
    case Carried(pos, n) =>
      && Done(sys, judge, pos) && net.Carrying? && net.task.id == IdAt(sys, pos) && net.posted.serial == n && IsAbout(tellings, n, pos)
    case Leaving(pos, how) => Holds(sys, net, pos) && Done(sys, judge, pos) && (how.Told? ==> IsAbout(tellings, how.serial, pos))
  }

  ghost predicate Tied(j: Server)
    requires S.Tidy(j.sys)
  {
    && |j.stages| == |j.net.workers| == |j.sys.workers|
    && j.net.nextId == j.sys.Now().nextId
    && SameTasks(j.net.queue, j.sys.queue)
    && forall w :: 0 <= w < |j.stages| ==> StageOk(j.sys, j.tellings, j.stages[w], j.net.workers[w], j.sys.workers[w])
  }

  predicate SameTasks(net: seq<P.Task>, sys: seq<Task>) {
    |net| == |sys| && forall i :: 0 <= i < |net| ==> net[i].id == sys[i].id
  }

  // ---------- What one half does ----------

  lemma NetQueue(s: P.State, step: P.Step)
    requires P.Enabled(s, step)
    ensures
      var t := P.Next(s, step);
      && t.nextId == s.nextId + (if step.CreateSubmission? then 1 else 0)
      && (if step == P.PushTask(true) then |t.queue| == |s.queue| + 1 && t.queue[..|s.queue|] == s.queue && t.queue[|s.queue|].id == s.select.id
          else if step.Pop? then t.queue == s.queue[1..]
          else t.queue == s.queue)
  {
  }

  /** Logs only grow and the flag stays set. */
  ghost predicate SysGrows(s: S.System, t: S.System) {
    && s.popped <= t.popped && |t.workers| == |s.workers| && (s.stopped ==> t.stopped)
    && (forall p :: p in s.processed ==> p in t.processed)
  }

  lemma SysEffects(s: S.System, step: S.Step)
    requires S.Tidy(s) && S.Enabled(s, step)
    ensures SysGrows(s, S.Next(s, step))
    ensures
      var t := S.Next(s, step);
      match step
      case Pop(w) =>
        forall v :: 0 <= v < |s.workers| && v != w ==> t.workers[v] == s.workers[v]
      case Write(w, _, _, _, _) =>
        forall v :: 0 <= v < |s.workers| && v != w ==> t.workers[v] == s.workers[v]
      case _ => t.workers == s.workers && t.popped == s.popped
  {
  }

  lemma SysQueue(s: S.System, step: S.Step)
    requires S.Tidy(s) && S.Enabled(s, step)
    ensures
      var t := S.Next(s, step);
      match step
      case Push(i) => t.queue == if s.closed then s.queue else s.queue + [s.inFlight[i]]
      case Pop(w) => t.queue == if s.queue == [] then [] else s.queue[1..]
      case _ => t.queue == s.queue
  {
  }

  lemma SysCounter(s: S.System, step: S.Step)
    requires S.LogInv(s) && S.Tidy(s) && S.Enabled(s, step) && S.Tidy(S.Next(s, step))
    ensures S.Next(s, step).Now().nextId == s.Now().nextId + if step.CreateRecord? then 1 else 0
  {
    match step {
      case CreateRecord(op, after, _) => S.CounterMoves(s, after, op);
      case Write(w, now, cfg, ok, after) => S.CounterMoves(s, after, S.NextWrite(s, w, now, cfg, ok));
      case Query(op, after) => S.CounterMoves(s, after, op);
      case _ =>
    }
  }

  lemma StageKept(a: S.System, b: S.System, before: seq<nat>, after: seq<nat>, stage: Stage, net: P.Worker, judge: S.Worker)
    requires StageOk(a, before, stage, net, judge) && SysGrows(a, b) && before <= after
    ensures StageOk(b, after, stage, net, judge)
  {
  }

  // ---------- The counter and the queue ----------

  lemma NetSide(j: Server, m: Move)
    requires S.Tidy(j.sys) && Enabled(j, m)
    ensures NextNet(j, m).nextId == j.net.nextId + if m.Create? then 1 else 0
    ensures !m.Push? && !m.Pop? ==> NextNet(j, m).queue == j.net.queue
  {
    if NetMove(j, m).Some? {
      NetQueue(j.net, NetMove(j, m).value);
    }
  }

  lemma SysSide(j: Server, m: Move)
    requires S.Inv(j.sys) && S.Tidy(j.sys) && Enabled(j, m) && S.Tidy(NextSys(j, m))
    ensures NextSys(j, m).Now().nextId == j.sys.Now().nextId + if m.Create? then 1 else 0
    ensures !m.Push? && !m.Pop? ==> NextSys(j, m).queue == j.sys.queue
  {
    if SysMove(m).Some? {
      SysQueue(j.sys, SysMove(m).value);
      SysCounter(j.sys, SysMove(m).value);
    }
  }

  lemma PushTies(j: Server, i: nat)
    requires S.Tidy(j.sys) && Enabled(j, Push(i)) && SameTasks(j.net.queue, j.sys.queue)
    ensures SameTasks(NextNet(j, Push(i)).queue, NextSys(j, Push(i)).queue)
  {
    NetQueue(j.net, P.PushTask(!j.sys.closed));
    SysQueue(j.sys, S.Push(i));
    TasksGain(j.net.queue, NextNet(j, Push(i)).queue, j.sys.queue, j.sys.inFlight[i]);
  }

  lemma TasksGain(a: seq<P.Task>, b: seq<P.Task>, queue: seq<Task>, task: Task)
    requires SameTasks(a, queue)
    ensures |b| == |a| + 1 && b[..|a|] == a && b[|a|].id == task.id ==> SameTasks(b, queue + [task])
  {
    if |b| == |a| + 1 && b[..|a|] == a {
      assert forall i :: 0 <= i < |a| ==> b[i] == b[..|a|][i];
    }
  }

  lemma QueuesStep(j: Server, m: Move, t: Server)
    requires S.Inv(j.sys) && S.Tidy(j.sys) && Enabled(j, m) && S.Tidy(t.sys) && Tied(j) && t == Next(j, m)
    ensures t.net.nextId == t.sys.Now().nextId && SameTasks(t.net.queue, t.sys.queue)
  {
    NetSide(j, m);
    SysSide(j, m);
    if m.Push? {
      PushTies(j, m.i);
    } else if m.Pop? {
      NetQueue(j.net, P.Pop(m.w));
      SysQueue(j.sys, S.Pop(m.w));
    }
  }

  // ---------- The stages ----------

  /** The worker a move is about. */
  function Actor(m: Move): Option<nat> {
    match m
    case Pop(w) => Some(w)
    case Leave(w) => Some(w)
    case SkipStart(w) => Some(w)
    case QueryStart(w, _, _) => Some(w)
    case Write(w, _, _, _, _) => Some(w)
    case SkipFinish(w) => Some(w)
    case QueryFinish(w, _, _) => Some(w)
    case Tell(w) => Some(w)
    case Deliver(w) => Some(w)
    case Retire(w) => Some(w)
    case _ => None
  }

  lemma NetOthers(j: Server, m: Move, v: nat)
    requires S.Tidy(j.sys) && Enabled(j, m) && v < |j.net.workers| && Actor(m) != Some(v)
    ensures |NextNet(j, m).workers| == |j.net.workers| && NextNet(j, m).workers[v] == j.net.workers[v]
  {
    if NetMove(j, m).Some? {
      B.WorkersOf(j.net, NetMove(j, m).value);
    }
  }

  lemma SysOthers(j: Server, m: Move)
    requires S.Tidy(j.sys) && Enabled(j, m)
    ensures SysGrows(j.sys, NextSys(j, m))
    ensures forall v :: 0 <= v < |j.sys.workers| && Actor(m) != Some(v) ==> NextSys(j, m).workers[v] == j.sys.workers[v]
  {
    if SysMove(m).Some? {
      SysEffects(j.sys, SysMove(m).value);
    }
  }

  /** A move's own bookkeeping leaves the other stages alone. */
  lemma StagesOf(j: Server, m: Move)
    requires S.Tidy(j.sys) && Enabled(j, m)
    ensures |Next(j, m).stages| == |j.stages| && j.tellings <= Next(j, m).tellings
    ensures forall v :: 0 <= v < |j.stages| && Actor(m) != Some(v) ==> Next(j, m).stages[v] == j.stages[v]
  {
  }

  lemma StageOthers(j: Server, m: Move, t: Server, v: nat)
    requires S.Tidy(j.sys) && Enabled(j, m) && Tied(j) && v < |j.stages| && Actor(m) != Some(v) && t == Next(j, m)
    ensures |t.stages| == |t.net.workers| == |t.sys.workers| == |j.stages|
    ensures StageOk(t.sys, t.tellings, t.stages[v], t.net.workers[v], t.sys.workers[v])
  {
    NetOthers(j, m, v);
    SysOthers(j, m);
    StagesOf(j, m);
    StageKept(j.sys, t.sys, j.tellings, t.tellings, j.stages[v], j.net.workers[v], j.sys.workers[v]);
  }

  // ---------- What the store answers ----------

  /** Before judging, the record is still QUEUED, so there is never an update to tell. */
  lemma StartFinds(sys: S.System, w: nat, op: Op, after: Store)
    requires S.Inv(sys) && S.Tidy(sys) && w < |sys.workers| && sys.workers[w].Judging? && sys.workers[w].written == 0
    requires S.Enabled(sys, S.Query(op, after)) && op.id == sys.popped[sys.workers[w].pos].id
    ensures op.found.Some? ==> op.found.value.status == Queued
  {
    var task := sys.popped[sys.workers[w].pos];
    assert S.JudgedTo(sys, sys.ops, sys.workers[w]);
    var accepted := Accepted(sys.ops, task.id);
    assert accepted == [Fresh(task.id, 0).result];
    InvRun(sys.stores, sys.ops, |sys.ops|);
    GetAnswers(sys.Now(), after, op);
    T.RecordHasLast(sys.stores, sys.ops, task.id);
  }

  /** After judging, what is found is the last snapshot of the trace. */
  lemma FinishFinds(sys: S.System, pos: nat, op: Op, after: Store)
    requires S.Inv(sys) && S.Tidy(sys) && pos < |sys.popped| && pos in sys.processed
    requires S.Enabled(sys, S.Query(op, after)) && op.id == IdAt(sys, pos)
    ensures op.found.Some? ==> op.found.value == Final(sys.popped[pos])
    ensures op.found.None? ==> op.id !in after.results
  {
    InvRun(sys.stores, sys.ops, |sys.ops|);
    GetAnswers(sys.Now(), after, op);
    T.ProcessedSettled(sys, pos);
    if op.found.None? {
      NotFoundIsGone(sys.Now(), after, op);
    }
  }

  lemma NotFoundIsGone(s: Store, t: Store, op: Op)
    requires StoreStep(s, t, op) && op.Get? && op.found.None?
    ensures op.id !in t.results
  {
  }

  // ---------- The acting worker ----------

  predicate InRange(j: Server, w: nat) {
    w < |j.stages| && w < |j.net.workers| && w < |j.sys.workers|
  }

  ghost predicate StageAt(j: Server, w: nat)
    requires InRange(j, w)
  {
    StageOk(j.sys, j.tellings, j.stages[w], j.net.workers[w], j.sys.workers[w])
  }

  /** What the acting worker does on the reply side. */
  ghost predicate NetActs(j: Server, m: Move, t: Server, w: nat)
    requires InRange(j, w) && InRange(t, w)
  {
    match m
    case Pop(_) => j.net.queue != [] && t.net.workers[w] == P.Holding(j.net.queue[0])
    case Tell(_) =>
      && j.net.workers[w].Holding?
      && (t.net.workers[w] == j.net.workers[w] ||
          (t.net.workers[w].Carrying? && t.net.workers[w].task == j.net.workers[w].task && t.net.workers[w].posted.serial == j.net.nextSerial))
    case Deliver(_) => j.net.workers[w].Carrying? && t.net.workers[w] == P.Holding(j.net.workers[w].task)
    case Retire(_) => t.net.workers[w] == P.Waiting
    case _ => t.net.workers[w] == j.net.workers[w]
  }

  lemma NetActor(j: Server, m: Move, t: Server, w: nat)
    requires S.Tidy(j.sys) && Enabled(j, m) && t.net == NextNet(j, m) && Actor(m) == Some(w) && InRange(j, w) && InRange(t, w)
    ensures NetActs(j, m, t, w)
  {
    if NetMove(j, m).Some? {
      B.WorkersOf(j.net, NetMove(j, m).value);
    }
  }

  /** And on the judge's. */
  ghost predicate SysActs(j: Server, m: Move, t: Server, w: nat)
    requires InRange(j, w) && InRange(t, w)
  {
    match m
    case Pop(_) => j.sys.queue != [] && t.sys.workers[w] == S.Judging(|j.sys.popped|, 0) && t.sys.popped == j.sys.popped + [j.sys.queue[0]]
    case Leave(_) => t.sys.workers[w] == S.Exited
    case Write(_, _, _, _, _) =>
      j.sys.workers[w].Judging? &&
      if t.sys.workers[w].Judging? then t.sys.workers[w].pos == j.sys.workers[w].pos
      else t.sys.workers[w].Waiting? && j.sys.workers[w].pos in t.sys.processed
    case _ => t.sys.workers[w] == j.sys.workers[w]
  }

  lemma SysActor(j: Server, m: Move, t: Server, w: nat)
    requires S.Tidy(j.sys) && Enabled(j, m) && t.sys == NextSys(j, m) && Actor(m) == Some(w) && InRange(j, w) && InRange(t, w)
    ensures SysActs(j, m, t, w)
  {
    if m.Write? {
      WriteEnds(j.sys, m.w, m.now, m.cfg, m.ok, m.after);
    }
  }

  lemma WriteEnds(s: S.System, w: nat, now: int, cfg: Config, ok: bool, after: Store)
    requires S.Tidy(s) && S.Enabled(s, S.Write(w, now, cfg, ok, after))
    ensures
      var t := S.Next(s, S.Write(w, now, cfg, ok, after));
      if t.workers[w].Judging? then t.workers[w].pos == s.workers[w].pos
      else t.workers[w].Waiting? && s.workers[w].pos in t.processed
  {
    var t := S.Next(s, S.Write(w, now, cfg, ok, after));
    assert t.workers[w].Judging? || t.processed[|s.processed|] == s.workers[w].pos;
  }

  /** The new stage. */
  ghost predicate StageActs(j: Server, m: Move, t: Server, w: nat)
    requires InRange(j, w) && InRange(t, w)
  {
    var stage, next := j.stages[w], t.stages[w];
    match m
    case Pop(_) => stage.Off? && next == Begun(|j.sys.popped|)
    case Leave(_) => stage.Off? && next == Off
    case SkipStart(_) => stage.Begun? && next == Judge(stage.pos)
    case QueryStart(_, op, _) =>
      op.Get? && stage.Begun? && next == if op.found.Some? && op.found.value.status != Queued then TellingStart(stage.pos) else Judge(stage.pos)
    case Write(_, _, _, _, _) => stage.Judge? && next == if t.sys.workers[w].Judging? then Judge(stage.pos) else Judged(stage.pos)
    case SkipFinish(_) => stage.Judged? && next == Leaving(stage.pos, Skipped)
    case QueryFinish(_, op, _) =>
      op.Get? && stage.Judged? && next == if op.found.Some? then Telling(stage.pos, op.found.value) else Leaving(stage.pos, Gone)
    case Tell(_) =>
      && stage.Telling? && t.tellings == j.tellings + [stage.pos]
      && next == if t.net.workers[w].Carrying? then Carried(stage.pos, j.net.nextSerial) else Leaving(stage.pos, Told(j.net.nextSerial))
    case Deliver(_) => stage.Carried? && next == Leaving(stage.pos, Told(stage.serial))
    case Retire(_) => stage.Leaving? && next == Off
    case _ => false
  }

  lemma StageActor(j: Server, m: Move, t: Server, w: nat)
    requires S.Tidy(j.sys) && Enabled(j, m) && t == Next(j, m) && Actor(m) == Some(w) && InRange(j, w) && InRange(t, w)
    ensures StageActs(j, m, t, w)
  {
  }

  /** What the store answered, if it was asked. */
  ghost predicate AnswerOk(j: Server, m: Move, w: nat)
    requires InRange(j, w)
  {
    match m
    case QueryStart(_, op, _) => op.Get? && (op.found.Some? ==> op.found.value.status == Queued)
    case QueryFinish(_, op, _) =>
      op.Get? && j.stages[w].Judged? && j.stages[w].pos < |j.sys.popped| && (op.found.Some? ==> op.found.value == Final(j.sys.popped[j.stages[w].pos]))
    case _ => true
  }

  lemma Answered(j: Server, m: Move, w: nat)
    requires S.Inv(j.sys) && S.Tidy(j.sys) && Enabled(j, m) && Actor(m) == Some(w) && InRange(j, w) && StageAt(j, w)
    ensures AnswerOk(j, m, w)
  {
    match m
    case QueryStart(_, op, after) => StartFinds(j.sys, w, op, after);
    case QueryFinish(_, op, after) => FinishFinds(j.sys, j.stages[w].pos, op, after);
    case _ =>
  }

  /** All this together keeps the worker's stage right. */
  lemma ActorStage(j: Server, m: Move, t: Server, w: nat)
    requires InRange(j, w) && InRange(t, w) && StageAt(j, w) && |j.tellings| == j.net.nextSerial
    requires SameTasks(j.net.queue, j.sys.queue) && SysGrows(j.sys, t.sys) && j.tellings <= t.tellings
    requires NetActs(j, m, t, w) && SysActs(j, m, t, w) && StageActs(j, m, t, w) && AnswerOk(j, m, w)
    ensures StageAt(t, w)
  {
  }

  lemma StageStep(j: Server, m: Move, t: Server, v: nat)
    requires S.Inv(j.sys) && S.Tidy(j.sys) && Enabled(j, m) && t == Next(j, m) && Tied(j) && |j.tellings| == j.net.nextSerial
    requires InRange(j, v) && InRange(t, v) && SysGrows(j.sys, t.sys) && j.tellings <= t.tellings
    ensures StageAt(t, v)
  {
    if Actor(m) == Some(v) {
      NetActor(j, m, t, v);
      SysActor(j, m, t, v);
      StageActor(j, m, t, v);
      Answered(j, m, v);
      ActorStage(j, m, t, v);
    } else {
      StageOthers(j, m, t, v);
    }
  }

  lemma Lengths(j: Server, m: Move, t: Server)
    requires S.Tidy(j.sys) && Enabled(j, m) && t == Next(j, m) && Tied(j)
    ensures |t.stages| == |t.net.workers| == |t.sys.workers| == |j.stages|
    ensures SysGrows(j.sys, t.sys) && j.tellings <= t.tellings
  {
    StagesOf(j, m);
    SysOthers(j, m);
    NetCount(j, m);
  }

  lemma TiedStep(j: Server, m: Move, t: Server)
    requires S.Inv(j.sys) && S.Tidy(j.sys) && Enabled(j, m) && t == Next(j, m) && S.Tidy(t.sys) && Tied(j) && |j.tellings| == j.net.nextSerial
    ensures Tied(t)
  {
    QueuesStep(j, m, t);
    Lengths(j, m, t);
    StagesStep(j, m, t);
  }

  lemma StagesStep(j: Server, m: Move, t: Server)
    requires S.Inv(j.sys) && S.Tidy(j.sys) && Enabled(j, m) && t == Next(j, m) && Tied(j) && |j.tellings| == j.net.nextSerial
    requires |t.stages| == |t.net.workers| == |t.sys.workers| == |j.stages| && SysGrows(j.sys, t.sys) && j.tellings <= t.tellings
    ensures forall w :: 0 <= w < |t.stages| ==> StageOk(t.sys, t.tellings, t.stages[w], t.net.workers[w], t.sys.workers[w])
  {
    forall v | 0 <= v < |t.stages|
      ensures StageOk(t.sys, t.tellings, t.stages[v], t.net.workers[v], t.sys.workers[v])
    {
      assert InRange(j, v) && InRange(t, v);
      StageStep(j, m, t, v);
    }
  }

  lemma NetCount(j: Server, m: Move)
    requires S.Tidy(j.sys) && Enabled(j, m)
    ensures |NextNet(j, m).workers| == |j.net.workers|
  {
    if NetMove(j, m).Some? {
      B.WorkersOf(j.net, NetMove(j, m).value);
    }
  }
}
