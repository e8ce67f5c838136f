/** The final result of every accepted submission reaches its own connection, once. */
module JudgeServerTheorems {
  import opened Framing
  import opened Submissions
  import opened Wrappers
  import opened ResultStores
  import opened ResultStoreRuns
  import opened SubmissionQueues
  import opened JudgeServers
  import opened JudgeServerTies
  import P = ReplyProtocol
  import B = ReplyPosts
  import K = ReplyBooking
  import S = JudgeSystems

  // ---------- Custody ----------

  /** The stages as custody of positions. */
  function Keepers(stages: seq<Stage>): (keepers: seq<S.Worker>)
    ensures |keepers| == |stages|
    ensures forall w :: 0 <= w < |stages| ==> keepers[w] == if stages[w].Off? then S.Waiting else S.Judging(stages[w].pos, 0)
  {
    seq(|stages|, w requires 0 <= w < |stages| => if stages[w].Off? then S.Waiting else S.Judging(stages[w].pos, 0))
  }

  function Ends(outcomes: seq<Outcome>): (ends: seq<nat>)
    ensures |ends| == |outcomes| && forall i :: 0 <= i < |ends| ==> ends[i] == outcomes[i].pos
  {
    seq(|outcomes|, i requires 0 <= i < |outcomes| => outcomes[i].pos)
  }

  /** Every popped task is with one worker or has one outcome. */
  ghost predicate Custody(stages: seq<Stage>, popped: nat, outcomes: seq<Outcome>) {
    S.Positions(Keepers(stages), popped, Ends(outcomes))
  }

  lemma CustodyStep(j: Server, m: Move, t: Server)
    requires S.Tidy(j.sys) && Enabled(j, m) && t == Next(j, m) && Custody(j.stages, |j.sys.popped|, j.outcomes)
    ensures Custody(t.stages, |t.sys.popped|, t.outcomes)
  {
    match m
    case Pop(w) =>
      S.Taken(Keepers(j.stages), w, |j.sys.popped|, Ends(j.outcomes));
      assert Keepers(t.stages) == Keepers(j.stages)[w := S.Judging(|j.sys.popped|, 0)];
    case Retire(w) =>
      S.Done(Keepers(j.stages), w, |j.sys.popped|, Ends(j.outcomes));
      assert Keepers(t.stages) == Keepers(j.stages)[w := S.Waiting];
      assert Ends(t.outcomes) == Ends(j.outcomes) + [j.stages[w].pos];
    case _ =>
      SameCustody(j, m, t);
  }

  lemma SameCustody(j: Server, m: Move, t: Server)
    requires S.Tidy(j.sys) && Enabled(j, m) && t == Next(j, m) && !m.Pop? && !m.Retire?
    ensures Keepers(t.stages) == Keepers(j.stages) && t.outcomes == j.outcomes && |t.sys.popped| == |j.sys.popped|
  {
    StagesOf(j, m);
    SamePopped(j, m);
  }

  lemma SamePopped(j: Server, m: Move)
    requires S.Tidy(j.sys) && Enabled(j, m) && !m.Pop?
    ensures |NextSys(j, m).popped| == |j.sys.popped|
  {
  }

  // ---------- Messages ----------

  /** The message tells the final result of the task at that position. */
  ghost predicate TellsFinal(popped: seq<Task>, encode: SubmissionResult -> seq<byte>, post: P.Posted, pos: nat) {
    pos < |popped| && post.message == P.Message(P.Event, popped[pos].id, encode(Final(popped[pos])))
  }

  predicate TellsAt(stage: Stage, pos: nat, n: nat) {
    stage == Carried(pos, n) || stage == Leaving(pos, Told(n))
  }

  /** The worker that told it, or the record of it, still says so. */
  predicate Kept(stages: seq<Stage>, outcomes: seq<Outcome>, n: nat, pos: nat) {
    (exists w :: 0 <= w < |stages| && TellsAt(stages[w], pos, n)) || Outcome(pos, Told(n)) in outcomes
  }

  /** All messages are final results, of different tasks. */
  ghost predicate Tells(j: Server) {
    && |j.tellings| == |j.posts| == j.net.nextSerial
    && (forall n :: 0 <= n < |j.tellings| ==> TellsFinal(j.sys.popped, j.encode, j.posts[n], j.tellings[n]))
    && (forall m, n :: 0 <= m < n < |j.tellings| ==> j.tellings[m] != j.tellings[n])
    && (forall n :: 0 <= n < |j.tellings| ==> Kept(j.stages, j.outcomes, n, j.tellings[n]))
  }

  lemma Serials(j: Server, m: Move, t: Server)
    requires S.Tidy(j.sys) && Enabled(j, m) && t == Next(j, m)
    ensures t.net.nextSerial == j.net.nextSerial + (if m.Tell? then 1 else 0)
    ensures if m.Tell? then t.posts == j.posts + [B.NewPost(j.net, m.w, j.encode(j.stages[m.w].result))] else t.posts == j.posts
    ensures t.tellings == if m.Tell? then j.tellings + [j.stages[m.w].pos] else j.tellings
    ensures t.encode == j.encode
  {
    if NetMove(j, m).Some? {
      B.SerialsOf(j.net, NetMove(j, m).value);
    }
  }

  lemma KeptStays(j: Server, m: Move, t: Server, n: nat, pos: nat)
    requires S.Tidy(j.sys) && Enabled(j, m) && t == Next(j, m) && |j.stages| == |j.net.workers| == |j.sys.workers|
    requires Kept(j.stages, j.outcomes, n, pos)
    ensures Kept(t.stages, t.outcomes, n, pos)
  {
    StagesOf(j, m);
    OutcomesOf(j, m, t);
    if Outcome(pos, Told(n)) !in j.outcomes {
      var w :| 0 <= w < |j.stages| && TellsAt(j.stages[w], pos, n);
      if Actor(m) == Some(w) {
        TellerMoves(j, m, t, w);
      } else {
        assert t.stages[w] == j.stages[w];
      }
    }
  }

  lemma OutcomesOf(j: Server, m: Move, t: Server)
    requires S.Tidy(j.sys) && Enabled(j, m) && t == Next(j, m)
    ensures t.outcomes == if m.Retire? then j.outcomes + [Outcome(j.stages[m.w].pos, j.stages[m.w].how)] else j.outcomes
  {
  }

  lemma TellerMoves(j: Server, m: Move, t: Server, w: nat)
    requires S.Tidy(j.sys) && Enabled(j, m) && t == Next(j, m) && w < |j.stages| && Actor(m) == Some(w)
    requires j.stages[w].Carried? || j.stages[w].Leaving?
    ensures w < |t.stages|
    ensures j.stages[w].Carried? ==> t.stages[w] == Leaving(j.stages[w].pos, Told(j.stages[w].serial))
    ensures j.stages[w].Leaving? ==> Outcome(j.stages[w].pos, j.stages[w].how) in t.outcomes
  {
  }

  /** A worker about to tell has not told before. */
  lemma NotToldYet(j: Server, w: nat, n: nat)
    requires Custody(j.stages, |j.sys.popped|, j.outcomes) && w < |j.stages| && j.stages[w].Telling?
    requires n < |j.tellings| && Kept(j.stages, j.outcomes, n, j.tellings[n])
    ensures j.tellings[n] != j.stages[w].pos
  {
    var keepers := Keepers(j.stages);
    assert keepers[w] == S.Judging(j.stages[w].pos, 0);
    if Outcome(j.tellings[n], Told(n)) in j.outcomes {
      var i :| 0 <= i < |j.outcomes| && j.outcomes[i] == Outcome(j.tellings[n], Told(n));
      assert Ends(j.outcomes)[i] in Ends(j.outcomes);
    } else {
      var v :| 0 <= v < |j.stages| && TellsAt(j.stages[v], j.tellings[n], n);
      assert keepers[v] == S.Judging(j.tellings[n], 0) && v != w;
    }
  }

  lemma TellsStep(j: Server, m: Move, t: Server)
    requires S.Tidy(j.sys) && Enabled(j, m) && t == Next(j, m) && Tied(j) && Tells(j)
    requires Custody(j.stages, |j.sys.popped|, j.outcomes)
    ensures Tells(t)
  {
    Serials(j, m, t);
    forall n | 0 <= n < |t.tellings|
      ensures TellsFinal(t.sys.popped, t.encode, t.posts[n], t.tellings[n]) && Kept(t.stages, t.outcomes, n, t.tellings[n])
    {
      TellingStep(j, m, t, n);
    }
    TellingsDiffer(j, m, t);
  }

  lemma TellingStep(j: Server, m: Move, t: Server, n: nat)
    requires S.Tidy(j.sys) && Enabled(j, m) && t == Next(j, m) && Tied(j) && Tells(j) && n < |t.tellings| == |t.posts|
    ensures TellsFinal(t.sys.popped, t.encode, t.posts[n], t.tellings[n]) && Kept(t.stages, t.outcomes, n, t.tellings[n])
  {
    Serials(j, m, t);
    if n < |j.tellings| {
      SysOthers(j, m);
      KeptStays(j, m, t, n, j.tellings[n]);
    } else {
      NewTelling(j, m.w, t);
    }
  }

  lemma TellingsDiffer(j: Server, m: Move, t: Server)
    requires S.Tidy(j.sys) && Enabled(j, m) && t == Next(j, m) && Tells(j) && Custody(j.stages, |j.sys.popped|, j.outcomes)
    ensures forall a, b :: 0 <= a < b < |t.tellings| ==> t.tellings[a] != t.tellings[b]
  {
    Serials(j, m, t);
    if m.Tell? {
      forall n | 0 <= n < |j.tellings|
        ensures j.tellings[n] != j.stages[m.w].pos
      {
        NotToldYet(j, m.w, n);
      }
    }
  }

  lemma NewTelling(j: Server, w: nat, t: Server)
    requires S.Tidy(j.sys) && Enabled(j, Tell(w)) && t == Next(j, Tell(w)) && Tied(j) && |j.tellings| == j.net.nextSerial
    ensures TellsFinal(t.sys.popped, t.encode, B.NewPost(j.net, w, j.encode(j.stages[w].result)), j.stages[w].pos)
    ensures Kept(t.stages, t.outcomes, j.net.nextSerial, j.stages[w].pos)
  {
    Lengths(j, Tell(w), t);
    assert StageAt(j, w);
    StageActor(j, Tell(w), t, w);
    assert TellsAt(t.stages[w], j.stages[w].pos, j.net.nextSerial);
  }

  // ---------- How tasks end ----------

  ghost predicate EndOk(sys: S.System, tellings: seq<nat>, pos: nat, how: Ending)
    requires S.Tidy(sys)
  {
    && pos < |sys.popped|
    && (how.Told? ==> IsAbout(tellings, how.serial, pos))
    && (how.Skipped? ==> sys.stopped)
    && (how.Gone? ==> IdAt(sys, pos) !in sys.Now().results)
  }

  ghost predicate EndsOk(j: Server)
    requires S.Tidy(j.sys)
  {
    && (forall i :: 0 <= i < |j.outcomes| ==> EndOk(j.sys, j.tellings, j.outcomes[i].pos, j.outcomes[i].how))
    && (forall w :: 0 <= w < |j.stages| && j.stages[w].Leaving? ==> EndOk(j.sys, j.tellings, j.stages[w].pos, j.stages[w].how))
  }

  /** A record that is gone stays gone. */
  lemma GoneStays(s: S.System, step: S.Step, id: int)
    requires S.LogInv(s) && S.Tidy(s) && S.Enabled(s, step) && S.Tidy(S.Next(s, step)) && 1 <= id < s.Now().nextId && id !in s.Now().results
    ensures id !in S.Next(s, step).Now().results
  {
    InvRun(s.stores, s.ops, |s.ops|);
    match step {
      case CreateRecord(op, after, _) => GoneAfter(s.Now(), after, op, id);
      case Write(w, now, cfg, ok, after) => GoneAfter(s.Now(), after, S.NextWrite(s, w, now, cfg, ok), id);
      case Query(op, after) => GoneAfter(s.Now(), after, op, id);
      case _ =>
    }
  }

  lemma GoneAfter(s: Store, t: Store, op: Op, id: int)
    requires StoreInv(s) && StoreStep(s, t, op) && 1 <= id < s.nextId && id !in s.results
    ensures id !in t.results
  {
    RecordStep(s, t, op, id);
  }

  lemma EndStays(j: Server, m: Move, t: Server, pos: nat, how: Ending)
    requires S.Inv(j.sys) && S.Tidy(j.sys) && Enabled(j, m) && t == Next(j, m) && S.Tidy(t.sys) && EndOk(j.sys, j.tellings, pos, how)
    ensures EndOk(t.sys, t.tellings, pos, how)
  {
    SysOthers(j, m);
    StagesOf(j, m);
    assert j.sys.accepted[pos] == j.sys.popped[pos];
    if how.Gone? && SysMove(m).Some? {
      GoneStays(j.sys, SysMove(m).value, IdAt(j.sys, pos));
    }
  }

  lemma EndsStep(j: Server, m: Move, t: Server)
    requires S.Inv(j.sys) && S.Tidy(j.sys) && Enabled(j, m) && t == Next(j, m) && S.Tidy(t.sys) && Tied(j) && Tied(t) && EndsOk(j)
    ensures EndsOk(t)
  {
    OutcomesOf(j, m, t);
    StagesOf(j, m);
    forall i | 0 <= i < |t.outcomes|
      ensures EndOk(t.sys, t.tellings, t.outcomes[i].pos, t.outcomes[i].how)
    {
      EndStays(j, m, t, t.outcomes[i].pos, t.outcomes[i].how);
    }
    forall w | 0 <= w < |t.stages| && t.stages[w].Leaving?
      ensures EndOk(t.sys, t.tellings, t.stages[w].pos, t.stages[w].how)
    {
      if Actor(m) == Some(w) {
        NewEnd(j, m, t, w);
      } else {
        EndStays(j, m, t, t.stages[w].pos, t.stages[w].how);
      }
    }
  }

  lemma NewEnd(j: Server, m: Move, t: Server, w: nat)
    requires S.Inv(j.sys) && S.Tidy(j.sys) && Enabled(j, m) && t == Next(j, m) && S.Tidy(t.sys) && Tied(j) && Tied(t)
    requires Actor(m) == Some(w) && w < |j.stages| && w < |t.stages| && t.stages[w].Leaving?
    ensures EndOk(t.sys, t.tellings, t.stages[w].pos, t.stages[w].how)
  {
    Lengths(j, m, t);
    assert StageAt(j, w) && StageAt(t, w);
    StageActor(j, m, t, w);
    if m.QueryFinish? {
      FinishFinds(j.sys, j.stages[w].pos, m.op, m.after);
    }
  }

  // ---------- Runs ----------

  ghost predicate ServerInv(j: Server) {
    Halves(j) && Tied(j) && Custody(j.stages, |j.sys.popped|, j.outcomes) && Tells(j) && EndsOk(j)
  }

  lemma ServerInitial(j: Server)
    requires Initial(j)
    ensures ServerInv(j)
  {
    B.PostInvInitial(j.net);
    S.InvInitial(|j.net.workers|);
    TiesInitial(j);
  }

  lemma TiesInitial(j: Server)
    requires Initial(j) && S.Tidy(j.sys)
    ensures Tied(j) && Custody(j.stages, |j.sys.popped|, j.outcomes) && Tells(j) && EndsOk(j)
  {
    assert forall w :: 0 <= w < |j.stages| ==> j.stages[w] == Off && j.sys.workers[w] == S.Waiting;
    assert forall w :: 0 <= w < |j.stages| ==> Keepers(j.stages)[w] == S.Waiting;
    assert Ends(j.outcomes) == [];
  }

  lemma ServerStep(j: Server, m: Move, t: Server)
    requires ServerInv(j) && Enabled(j, m) && t == Next(j, m)
    ensures ServerInv(t)
  {
    HalvesStep(j, m);
    TiedStep(j, m, t);
    CustodyStep(j, m, t);
    TellsStep(j, m, t);
    EndsStep(j, m, t);
  }

  ghost predicate Legal(j: Server, moves: seq<Move>)
    requires S.Tidy(j.sys)
    decreases |moves|
  {
    moves != [] ==> Enabled(j, moves[0]) && S.Tidy(Next(j, moves[0]).sys) && Legal(Next(j, moves[0]), moves[1..])
  }

  ghost function Exec(j: Server, moves: seq<Move>): (t: Server)
    requires S.Tidy(j.sys) && Legal(j, moves)
    ensures S.Tidy(t.sys)
    decreases |moves|
  {
    if moves == [] then j else Exec(Next(j, moves[0]), moves[1..])
  }

  lemma {:induction false} ServerRun(j: Server, moves: seq<Move>)
    requires ServerInv(j) && Legal(j, moves)
    ensures ServerInv(Exec(j, moves))
    decreases |moves|
  {
    if moves != [] {
      ServerStep(j, moves[0], Next(j, moves[0]));
      ServerRun(Next(j, moves[0]), moves[1..]);
    }
  }

  // ---------- The theorems ----------

  /** A worker asks the store before judging, but there is never an update to post. */
  lemma StartNeverTells(j: Server, moves: seq<Move>)
    requires Initial(j) && S.Tidy(j.sys) && Legal(j, moves)
    ensures forall w :: 0 <= w < |Exec(j, moves).stages| ==> !Exec(j, moves).stages[w].TellingStart?
  {
    ServerInitial(j);
    ServerRun(j, moves);
  }

  /** No two messages are about the same submission. */
  lemma OneMessageEach(j: Server, m: nat, n: nat)
    requires ServerInv(j) && m < |j.posts| && n < |j.posts| && j.posts[m].message.about == j.posts[n].message.about
    ensures m == n
  {
    var p, q := j.tellings[m], j.tellings[n];
    assert TellsFinal(j.sys.popped, j.encode, j.posts[m], p) && TellsFinal(j.sys.popped, j.encode, j.posts[n], q);
    assert j.sys.accepted[p] == j.sys.popped[p] && j.sys.accepted[q] == j.sys.popped[q];
  }

  /** What an outcome means: the flag was set, the record is gone, or the message told carries
      the final result and is accounted for, and not with a worker any more. */
  ghost predicate Reported(j: Server, o: Outcome)
    requires S.Tidy(j.sys) && o.pos < |j.sys.popped|
  {
    match o.how
    case Skipped => j.sys.stopped
    case Gone => IdAt(j.sys, o.pos) !in j.sys.Now().results
    case Told(n) =>
      && n < |j.posts| && TellsFinal(j.sys.popped, j.encode, j.posts[n], o.pos)
      && j.posts[n].serial == n && n in j.net.fate && !j.net.fate[n].InFlight?
      && j.posts[n].message.about in j.net.origin && B.Accounted(j.net, j.posts[n])
  }

  lemma ToldLeftFlight(j: Server, i: nat)
    requires ServerInv(j) && i < |j.outcomes| && j.outcomes[i].how.Told? && j.outcomes[i].how.serial in j.net.fate
    ensures !j.net.fate[j.outcomes[i].how.serial].InFlight?
  {
    var n, pos := j.outcomes[i].how.serial, j.outcomes[i].pos;
    assert EndOk(j.sys, j.tellings, pos, Told(n));
    if j.net.fate[n].InFlight? {
      CarriedIsItsOwn(j, j.net.fate[n].worker, n);
      HeldNotEnded(j, j.net.fate[n].worker, i);
    }
  }

  lemma CarriedIsItsOwn(j: Server, w: nat, n: nat)
    requires S.Tidy(j.sys) && Tied(j) && B.CarriedBy(j.net.workers, w, n)
    ensures w < |j.stages| && n < |j.tellings| && j.stages[w] == Carried(j.tellings[n], n)
  {
    assert StageAt(j, w);
  }

  lemma HeldNotEnded(j: Server, w: nat, i: nat)
    requires Custody(j.stages, |j.sys.popped|, j.outcomes) && w < |j.stages| && !j.stages[w].Off? && i < |j.outcomes|
    ensures j.outcomes[i].pos != j.stages[w].pos
  {
    assert Keepers(j.stages)[w] == S.Judging(j.stages[w].pos, 0);
    assert Ends(j.outcomes)[i] in Ends(j.outcomes);
  }

  lemma OutcomeReported(j: Server, i: nat)
    requires ServerInv(j) && i < |j.outcomes|
    ensures j.outcomes[i].pos < |j.sys.popped| && Reported(j, j.outcomes[i])
  {
    var o := j.outcomes[i];
    assert EndOk(j.sys, j.tellings, o.pos, o.how);
    if o.how.Told? {
      B.PostAccounted(j.net, j.posts, o.how.serial);
      ToldLeftFlight(j, i);
    }
  }

  /** In every run of the whole server: every popped task is with exactly one worker or has
      exactly one outcome, each outcome is what it says, and no two messages are about the same
      submission. */
  lemma EveryTaskReported(j: Server, moves: seq<Move>)
    requires Initial(j) && S.Tidy(j.sys) && Legal(j, moves)
    ensures
      var t := Exec(j, moves);
      && Custody(t.stages, |t.sys.popped|, t.outcomes)
      && (forall i :: 0 <= i < |t.outcomes| ==> t.outcomes[i].pos < |t.sys.popped| && Reported(t, t.outcomes[i]))
      && (forall m, n :: 0 <= m < n < |t.posts| ==> t.posts[m].message.about != t.posts[n].message.about)
  {
    ServerInitial(j);
    ServerRun(j, moves);
    var t := Exec(j, moves);
    forall i | 0 <= i < |t.outcomes|
      ensures t.outcomes[i].pos < |t.sys.popped| && Reported(t, t.outcomes[i])
    {
      OutcomeReported(t, i);
    }
    forall m, n | 0 <= m < n < |t.posts|
      ensures t.posts[m].message.about != t.posts[n].message.about
    {
      if t.posts[m].message.about == t.posts[n].message.about {
        OneMessageEach(t, m, n);
      }
    }
  }

  /** The workers and the select thread have nothing in hand. */
  predicate AtRest(j: Server) {
    j.net.select.Free? && forall w :: 0 <= w < |j.stages| ==> j.stages[w].Off?
  }

  lemma RestHasOutcome(j: Server, p: nat) returns (i: nat)
    requires ServerInv(j) && AtRest(j) && p < |j.sys.popped|
    ensures i < |j.outcomes| && j.outcomes[i].pos == p
  {
    assert forall w :: 0 <= w < |j.stages| ==> Keepers(j.stages)[w] == S.Waiting;
    assert !S.Held(Keepers(j.stages), p);
    assert p in Ends(j.outcomes);
    i :| 0 <= i < |j.outcomes| && Ends(j.outcomes)[i] == p;
  }

  /** Event entries about a submission. */
  predicate IsEvent(net: P.Net, c: nat, i: nat, id: int) {
    && c < |net.connections| && i < |net.connections[c].accepted|
    && net.connections[c].accepted[i].Push? && net.connections[c].accepted[i].posted.message.about == id
  }

  /** The final result lands once: with the server at rest, the flag never set, the record still
      stored and the client still connected, its connection has the encoded final result of its
      submission, at one place, and no connection has any other event about it. */
  lemma FinalResultLandsOnce(j: Server, moves: seq<Move>, p: nat) returns (i: nat)
    requires Initial(j) && S.Tidy(j.sys) && Legal(j, moves)
    requires AtRest(Exec(j, moves)) && p < |Exec(j, moves).sys.popped| && !Exec(j, moves).sys.stopped
    requires IdAt(Exec(j, moves).sys, p) in Exec(j, moves).sys.Now().results
    requires
      var t := Exec(j, moves);
      IdAt(t.sys, p) in t.net.origin && B.Open(t.net.net, t.net.origin[IdAt(t.sys, p)])
    ensures
      var t := Exec(j, moves);
      var id, c := IdAt(t.sys, p), t.net.origin[IdAt(t.sys, p)];
      && IsEvent(t.net.net, c, i, id)
      && t.net.net.connections[c].accepted[i].posted.message.body == t.encode(Final(t.sys.popped[p]))
      && (forall d, k :: IsEvent(t.net.net, d, k, id) ==> d == c && k == i)
  {
    ServerInitial(j);
    ServerRun(j, moves);
    var t := Exec(j, moves);
    var o := RestHasOutcome(t, p);
    OutcomeReported(t, o);
    var n := t.outcomes[o].how.serial;
    i := LandedOnce(t, n, p);
  }

  lemma LandedOnce(t: Server, n: nat, p: nat) returns (i: nat)
    requires ServerInv(t) && t.net.select.Free? && p < |t.sys.popped|
    requires Reported(t, Outcome(p, Told(n)))
    requires B.Open(t.net.net, t.net.origin[IdAt(t.sys, p)])
    ensures
      var id, c := IdAt(t.sys, p), t.net.origin[IdAt(t.sys, p)];
      && IsEvent(t.net.net, c, i, id)
      && t.net.net.connections[c].accepted[i].posted.message.body == t.encode(Final(t.sys.popped[p]))
      && (forall d, k :: IsEvent(t.net.net, d, k, id) ==> d == c && k == i)
  {
    i := t.net.fate[n].position;
    forall d, k | IsEvent(t.net.net, d, k, IdAt(t.sys, p))
      ensures d == t.net.origin[IdAt(t.sys, p)] && k == i
    {
      EventIsThePost(t, n, d, k);
    }
  }

  /** An event about a submission is the one message about it, where its fate says. */
  lemma EventIsThePost(t: Server, n: nat, d: nat, k: nat)
    requires ServerInv(t) && n < |t.posts| && IsEvent(t.net.net, d, k, t.posts[n].message.about)
    requires n in t.net.fate && K.NowhereElse(t.net, n)
    ensures K.HasFateAt(t.net, n, P.Landed(d, k))
  {
    var q := t.net.net.connections[d].accepted[k].posted;
    assert B.InLog(t.net.net, q);
    assert B.Somewhere(t.net, q) && B.InBook(t.posts, q);
    OneMessageEach(t, q.serial, n);
    assert K.EntryIs(t.net.net, d, k, n);
  }
}
