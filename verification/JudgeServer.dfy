/** The whole server: the reply protocol and the judge joined. A worker pops a task on both
    sides at once, asks the store before and after judging, and posts what it is told to the
    task's channel, unless the pool's stopped flag is set when it looks. */
module JudgeServers {
  import opened Framing
  import opened Submissions
  import opened Wrappers
  import opened ResultCleanup
  import opened ResultStores
  import opened ResultStoreRuns
  import opened JudgeTraces
  import opened SubmissionQueues
  import P = ReplyProtocol
  import B = ReplyPosts
  import S = JudgeSystems

  /** How the reporting of a task ended: the flag was set, the record was gone, or the message
      with this serial was posted. */
  datatype Ending = Skipped | Gone | Told(serial: nat)

  /** Where a worker stands with the task popped at a position. */
  datatype Stage =
    | Off
    | Begun(pos: nat)                             // before onSubmissionStarted
    | TellingStart(pos: nat)                      // about to post an update
    | Judge(pos: nat)                             // in processSubmission
    | Judged(pos: nat)                            // before onSubmissionFinished
    | Telling(pos: nat, result: SubmissionResult) // about to post the result
    | Carried(pos: nat, serial: nat)              // past the barrier
    | Leaving(pos: nat, how: Ending)

  datatype Outcome = Outcome(pos: nat, how: Ending)

  /** `posts` and `tellings` list all messages posted and the positions they are about;
      `outcomes` the tasks a worker is done with. `encode` is the protocol's encoding. */
  datatype Server = Server(
    net: P.State, sys: S.System, stages: seq<Stage>, posts: seq<P.Posted>, tellings: seq<nat>, outcomes: seq<Outcome>,
    encode: SubmissionResult -> seq<byte>)

  datatype Move =
    | NetOnly(net: P.Step)
    | SysOnly(sys: S.Step)
    | Create(op: Op, after: Store, script: Script)
    | Push(i: nat)
    | Pop(w: nat)
    | Leave(w: nat)
    | SkipStart(w: nat)
    | QueryStart(w: nat, op: Op, after: Store)
    | Write(w: nat, now: int, cfg: Config, ok: bool, after: Store)
    | SkipFinish(w: nat)
    | QueryFinish(w: nat, op: Op, after: Store)
    | Tell(w: nat)
    | Deliver(w: nat)
    | Retire(w: nat)

  /** Steps of the reply protocol that do not concern the judge. */
  predicate Separate(step: P.Step) {
    !(step.CreateSubmission? || step.PushTask? || step.Pop? || step.Notify? || step.Deliver? || step.Retire?)
  }

  predicate Aside(step: S.Step) {
    step.Query? || step.Stop? || step.CloseQueue? || step.GracefulShutdown?
  }

  predicate AtStage(j: Server, w: nat) {
    w < |j.stages| && !j.stages[w].Off? && j.stages[w].pos < |j.sys.popped|
  }

  /** What a move needs beside its two halves. */
  predicate Guard(j: Server, m: Move) {
    match m
    case NetOnly(step) => Separate(step)
    case SysOnly(step) => Aside(step)
    case Create(_, _, _) => true
    case Push(i) => j.net.select.Created? && i < |j.sys.inFlight| && j.sys.inFlight[i].id == j.net.select.id
    case Pop(w) => w < |j.stages| && j.stages[w].Off? && j.sys.queue != []
    case Leave(w) => w < |j.stages| && j.stages[w].Off? && j.sys.queue == []
    case SkipStart(w) => w < |j.stages| && j.stages[w].Begun? && j.sys.stopped
    case QueryStart(w, op, _) => AtStage(j, w) && j.stages[w].Begun? && op.Get? && op.id == j.sys.popped[j.stages[w].pos].id
    case Write(w, _, _, _, _) => w < |j.stages| && j.stages[w].Judge?
    case SkipFinish(w) => w < |j.stages| && j.stages[w].Judged? && j.sys.stopped
    case QueryFinish(w, op, _) => AtStage(j, w) && j.stages[w].Judged? && op.Get? && op.id == j.sys.popped[j.stages[w].pos].id
    case Tell(w) => w < |j.stages| && j.stages[w].Telling?
    case Deliver(w) => w < |j.stages| && j.stages[w].Carried?
    case Retire(w) => w < |j.stages| && j.stages[w].Leaving?
  }

  function NetMove(j: Server, m: Move): Option<P.Step>
    requires Guard(j, m)
  {
    match m
    case NetOnly(step) => Some(step)
    case Create(_, _, _) => Some(P.CreateSubmission)
    case Push(_) => Some(P.PushTask(!j.sys.closed))
    case Pop(w) => Some(P.Pop(w))
    case Tell(w) => Some(P.Notify(w, j.encode(j.stages[w].result)))
    case Deliver(w) => Some(P.Deliver(w))
    case Retire(w) => Some(P.Retire(w))
    case _ => None
  }

  function SysMove(m: Move): Option<S.Step> {
    match m
    case SysOnly(step) => Some(step)
    case Create(op, after, script) => Some(S.CreateRecord(op, after, script))
    case Push(i) => Some(S.Push(i))
    case Pop(w) => Some(S.Pop(w))
    case Leave(w) => Some(S.Pop(w))
    case QueryStart(_, op, after) => Some(S.Query(op, after))
    case Write(w, now, cfg, ok, after) => Some(S.Write(w, now, cfg, ok, after))
    case QueryFinish(_, op, after) => Some(S.Query(op, after))
    case _ => None
  }

  ghost predicate Enabled(j: Server, m: Move)
    requires S.Tidy(j.sys)
  {
    && Guard(j, m)
    && (NetMove(j, m).Some? ==> P.Enabled(j.net, NetMove(j, m).value))
    && (SysMove(m).Some? ==> S.Enabled(j.sys, SysMove(m).value))
  }

  ghost function NextNet(j: Server, m: Move): P.State
    requires S.Tidy(j.sys) && Enabled(j, m)
  {
    if NetMove(j, m).Some? then P.Next(j.net, NetMove(j, m).value) else j.net
  }

  ghost function NextSys(j: Server, m: Move): S.System
    requires S.Tidy(j.sys) && Enabled(j, m)
  {
    if SysMove(m).Some? then S.Next(j.sys, SysMove(m).value) else j.sys
  }

  /** Whose stage a move changes, and to what. */
  ghost function NextStage(j: Server, m: Move): Option<(nat, Stage)>
    requires S.Tidy(j.sys) && Enabled(j, m)
  {
    match m
    case Pop(w) => Some((w, Begun(|j.sys.popped|)))
    case SkipStart(w) => Some((w, Judge(j.stages[w].pos)))
    case QueryStart(w, op, _) =>
      Some((w, if op.found.Some? && op.found.value.status != Queued then TellingStart(j.stages[w].pos) else Judge(j.stages[w].pos)))
    case Write(w, _, _, _, _) =>
      Some((w, if NextSys(j, m).workers[w].Judging? then Judge(j.stages[w].pos) else Judged(j.stages[w].pos)))
    case SkipFinish(w) => Some((w, Leaving(j.stages[w].pos, Skipped)))
    case QueryFinish(w, op, _) =>
      Some((w, if op.found.Some? then Telling(j.stages[w].pos, op.found.value) else Leaving(j.stages[w].pos, Gone)))
    case Tell(w) =>
      var n := j.net.nextSerial;
      Some((w, if NextNet(j, m).workers[w].Carrying? then Carried(j.stages[w].pos, n) else Leaving(j.stages[w].pos, Told(n))))
    case Deliver(w) => Some((w, Leaving(j.stages[w].pos, Told(j.stages[w].serial))))
    case Retire(w) => Some((w, Off))
    case _ => None
  }

  function Staged(stages: seq<Stage>, change: Option<(nat, Stage)>): seq<Stage>
    requires change.Some? ==> change.value.0 < |stages|
  {
    if change.Some? then stages[change.value.0 := change.value.1] else stages
  }

  ghost function Next(j: Server, m: Move): Server
    requires S.Tidy(j.sys) && Enabled(j, m)
  {
    Server(
      NextNet(j, m), NextSys(j, m), Staged(j.stages, NextStage(j, m)),
      if NetMove(j, m).Some? then B.Booking(j.net, NetMove(j, m).value, j.posts) else j.posts,
      if m.Tell? then j.tellings + [j.stages[m.w].pos] else j.tellings,
      if m.Retire? then j.outcomes + [Outcome(j.stages[m.w].pos, j.stages[m.w].how)] else j.outcomes,
      j.encode)
  }

  predicate Initial(j: Server) {
    && P.Initial(j.net) && j.sys == S.Initial(|j.net.workers|) && j.stages == seq(|j.net.workers|, _ => Off)
    && j.posts == [] && j.tellings == [] && j.outcomes == []
  }

  // ---------- What both halves keep ----------

  ghost predicate Halves(j: Server) {
    B.PostInv(j.net, j.posts) && S.Inv(j.sys) && S.Tidy(j.sys)
  }

  lemma HalvesStep(j: Server, m: Move)
    requires Halves(j) && Enabled(j, m)
    ensures Halves(Next(j, m))
  {
    if NetMove(j, m).Some? {
      B.PostInvStep(j.net, NetMove(j, m).value, j.posts);
    }
    if SysMove(m).Some? {
      S.InvStep(j.sys, SysMove(m).value);
    }
  }
}
