/** Ack before anything else: exactly which interleavings let a message about a submission
    overtake its ack, and that queueing the ack together with the barrier release rules
    them out. */
module ReplyAckOrder {
  import opened ReplyDelivery
  import opened ReplyInvariant
  import opened ReplyProtocol
  import opened Wrappers

  predicate IsAck(e: Entry, id: int) {
    e.Direct? && e.direct.kind == Ack && e.direct.about == id
  }

  predicate AckedBefore(log: seq<Entry>, i: nat, id: int) {
    exists j :: 0 <= j < i && j < |log| && IsAck(log[j], id)
  }

  /** A message that tells a client about its own accepted submission. */
  predicate Tells(s: State, c: nat, m: Message) {
    (m.kind == Event || m.kind == Snapshot) && m.about in s.enqueued && m.about in s.origin && s.origin[m.about] == c
  }

  predicate Follows(s: State, c: nat, i: nat)
    requires c < |s.net.connections| && i < |s.net.connections[c].accepted|
  {
    var log := s.net.connections[c].accepted;
    Tells(s, c, log[i].Msg()) ==> AckedBefore(log, i, log[i].Msg().about)
  }

  /** On every connection, whatever is said about a submission made there comes after
      its ack. */
  predicate AckFirst(s: State) {
    forall c, i :: 0 <= c < |s.net.connections| && 0 <= i < |s.net.connections[c].accepted| ==> Follows(s, c, i)
  }

  /** A worker appends a message while the ack of its submission is still in the hands of
      the select thread: after `release`, before `queue_immediate_response`. */
  predicate EarlyDelivery(s: State, step: Step) {
    && step.Deliver? && step.worker < |s.workers| && s.workers[step.worker].Carrying?
    && AckInHand(s.select, s.workers[step.worker].posted.message.about)
  }

  predicate AckInHand(select: Select, id: int) {
    select.Replying? && select.reply.kind == Ack && select.reply.about == id
  }

  predicate Answering(select: Select, id: int) {
    AckInHand(select, id) || (select.Enqueued? && select.id == id)
  }

  predicate InProgress(select: Select, id: int) {
    Answering(select, id) || (select.Created? && select.id == id)
  }

  predicate Acked(s: State, id: int)
    requires OriginOk(s) && id in s.origin
  {
    var log := s.net.connections[s.origin[id]].accepted;
    AckedBefore(log, |log|, id)
  }

  /** What may be in a log at this point. */
  predicate EntryOk(s: State, m: Message) {
    && (m.kind == Ack || m.kind == Event || m.kind == Snapshot ==> m.about in s.origin)
    && (m.kind == Ack ==> !InProgress(s.select, m.about))
    && (m.kind == Event || m.kind == Snapshot ==> !(s.select.Created? && s.select.id == m.about))
  }

  predicate LogsOk(s: State) {
    forall c, i :: 0 <= c < |s.net.connections| && 0 <= i < |s.net.connections[c].accepted| ==>
      EntryOk(s, s.net.connections[c].accepted[i].Msg())
  }

  predicate CarriedOk(s: State, w: Worker) {
    w.Carrying? ==> !(s.select.Enqueued? && s.select.id == w.posted.message.about)
  }

  predicate AckInv(s: State) {
    && OriginOk(s)
    && (forall id :: id in s.enqueued ==> Acked(s, id) || Answering(s.select, id))
    && LogsOk(s)
    && (forall w :: 0 <= w < |s.workers| ==> CarriedOk(s, s.workers[w]))
  }

  // ---------- Logs over a step ----------

  /** The entry a step appends, if any. */
  function Appended(s: State, step: Step): Option<(nat, Entry)>
    requires Enabled(s, step)
  {
    match step
    case QueueReply => Some((s.net.owner[s.select.slot], Direct(s.select.reply)))
    case Flush =>
      var p := s.select.deferred[s.select.next];
      var target := Target(s.net, p.channel);
      if target.None? then None else Some((s.net.owner[target.value], Push(p)))
    case Deliver(w) =>
      var p := s.workers[w].posted;
      var target := Target(s.net, p.channel);
      if target.None? then None else Some((s.net.owner[target.value], Push(p)))
    case _ => None
  }

  predicate LogsAfter(a: Net, b: Net, appended: Option<(nat, Entry)>) {
    if appended.None? then SameLogs(a, b) else OnlyLogs(a, b, appended.value.0, appended.value.1)
  }

  lemma StepAppends(s: State, step: Step)
    requires Inv(s) && Enabled(s, step)
    ensures LogsAfter(s.net, Next(s, step).net, Appended(s, step))
  {
    StepLogs(s, step);
  }

  lemma AckedStays(s: State, t: State)
    requires OriginOk(s) && OriginOk(t) && Extends(s, t)
    ensures forall id :: id in s.origin && Acked(s, id) ==> Acked(t, id)
  {
    forall id | id in s.origin && Acked(s, id)
      ensures Acked(t, id)
    {
      var before, after := s.net.connections[s.origin[id]].accepted, t.net.connections[t.origin[id]].accepted;
      var j :| 0 <= j < |before| && IsAck(before[j], id);
      assert after[j] == before[j];
    }
  }

  // ---------- A violation is never repaired ----------

  lemma ViolationStays(s: State, t: State)
    requires OriginOk(s) && Extends(s, t) && !AckFirst(s)
    ensures !AckFirst(t)
  {
    var c, i :| 0 <= c < |s.net.connections| && 0 <= i < |s.net.connections[c].accepted| && !Follows(s, c, i);
    var before, after := s.net.connections[c].accepted, t.net.connections[c].accepted;
    assert before <= after;
    assert after[i] == before[i];
    assert forall j :: 0 <= j < i ==> after[j] == before[j];
    assert !Follows(t, c, i);
  }

  // ---------- The invariant over a step ----------

  /** How a submit in progress moves on: it stays in progress until its ack is queued. */
  lemma ProgressStep(s: State, step: Step, id: int)
    requires Inv(s) && Enabled(s, step)
    ensures InProgress(Next(s, step).select, id) ==>
              InProgress(s.select, id) || (step == CreateSubmission && id == s.nextId)
    ensures (var t := Next(s, step).select; t.Created? && t.id == id) ==>
              (s.select.Created? && s.select.id == id) || (step == CreateSubmission && id == s.nextId)
    ensures (var t := Next(s, step).select; t.Enqueued? && t.id == id) ==>
              (s.select.Enqueued? && s.select.id == id) || (s.select.Created? && s.select.id == id && step.PushTask?)
  {
    if ByWorker(step) {
      WorkerLeavesHandler(s, step);
    } else if step.Flush? {
      FlushNeverDefers(s);
    } else {
      ProgressOwn(s, step, id);
    }
  }

  lemma ProgressOwn(s: State, step: Step, id: int)
    requires Enabled(s, step) && !ByWorker(step) && !step.Flush?
    ensures InProgress(Next(s, step).select, id) ==>
              InProgress(s.select, id) || (step == CreateSubmission && id == s.nextId)
    ensures (var t := Next(s, step).select; t.Created? && t.id == id) ==> step == CreateSubmission && id == s.nextId
    ensures (var t := Next(s, step).select; t.Enqueued? && t.id == id) ==> s.select.Created? && s.select.id == id && step.PushTask?
  {
  }

  /** It ends being answered only by queueing its ack. */
  lemma AnsweringStep(s: State, step: Step, id: int)
    requires Inv(s) && Enabled(s, step) && Answering(s.select, id) && id in s.enqueued
    ensures || Answering(Next(s, step).select, id)
              || (step == QueueReply && IsAck(Direct(s.select.reply), id) && s.origin[id] == s.net.owner[s.select.slot])
  {
    if ByWorker(step) {
      WorkerLeavesHandler(s, step);
    }
  }

  lemma CoverageStep(s: State, step: Step, t: State)
    requires Inv(s) && AckInv(s) && Enabled(s, step) && t == Next(s, step)
    requires OriginOk(t) && Extends(s, t) && LogsAfter(s.net, t.net, Appended(s, step))
    requires AddsSubmissions(s, step, t)
    ensures forall id :: id in t.enqueued ==> Acked(t, id) || Answering(t.select, id)
  {
    AckedStays(s, t);
    forall id | id in t.enqueued
      ensures Acked(t, id) || Answering(t.select, id)
    {
      if id !in s.enqueued {
        assert t.select == Enqueued(s.select.slot, id, true);
      } else if !Acked(s, id) {
        AnsweringStep(s, step, id);
        if !Answering(t.select, id) {
          var log := t.net.connections[s.origin[id]].accepted;
          assert IsAck(log[|log| - 1], id);
        }
      }
    }
  }

  lemma AppendedOk(s: State, step: Step)
    requires Inv(s) && Enabled(s, step) && Appended(s, step).Some?
    ensures EntryOk(Next(s, step), Appended(s, step).value.1.Msg())
  {
    StepAdds(s, step);
    if step.Deliver? {
      WorkerLeavesHandler(s, step);
      assert WorkerOk(s, s.workers[step.worker]);
    } else if step.Flush? {
      FlushNeverDefers(s);
      assert PostOk(s, s.select.deferred[s.select.next]);
    } else {
      assert Next(s, step).select.Replied?;
    }
  }

  lemma LogsFrom(s: State, t: State, appended: Option<(nat, Entry)>)
    requires LogsOk(s) && LogsAfter(s.net, t.net, appended)
    requires forall m :: EntryOk(s, m) ==> EntryOk(t, m)
    requires appended.Some? ==> EntryOk(t, appended.value.1.Msg())
    ensures LogsOk(t)
  {
  }

  lemma EntryOkStep(s: State, step: Step, m: Message)
    requires Inv(s) && Enabled(s, step) && Extends(s, Next(s, step)) && EntryOk(s, m)
    ensures EntryOk(Next(s, step), m)
  {
    ProgressStep(s, step, m.about);
  }

  lemma LogsStep(s: State, step: Step)
    requires Inv(s) && AckInv(s) && Enabled(s, step) && Extends(s, Next(s, step))
    requires LogsAfter(s.net, Next(s, step).net, Appended(s, step))
    ensures LogsOk(Next(s, step))
  {
    forall m: Message | EntryOk(s, m)
      ensures EntryOk(Next(s, step), m)
    {
      EntryOkStep(s, step, m);
    }
    if Appended(s, step).Some? {
      AppendedOk(s, step);
    }
    LogsFrom(s, Next(s, step), Appended(s, step));
  }

  lemma CarriedStep(s: State, step: Step, w: nat)
    requires Inv(s) && AckInv(s) && Enabled(s, step)
    requires w < |Next(s, step).workers| && Next(s, step).workers[w].Carrying?
    ensures CarriedOk(Next(s, step), Next(s, step).workers[w])
  {
    if ByWorker(step) {
      WorkerLeavesHandler(s, step);
      if w == step.worker {
        CarriedNow(s, step);
      }
    } else {
      WorkersWaitForSelect(s, step);
      assert WorkerOk(s, s.workers[w]);
      ProgressStep(s, step, s.workers[w].posted.message.about);
    }
  }

  lemma WorkersWaitForSelect(s: State, step: Step)
    requires Enabled(s, step) && !ByWorker(step)
    ensures Next(s, step).workers == s.workers
  {
  }

  /** A message escapes the barrier only when its submission is not being answered. */
  lemma CarriedNow(s: State, step: Step)
    requires Inv(s) && Enabled(s, step) && ByWorker(step)
    requires Next(s, step).workers[step.worker].Carrying?
    ensures !(s.select.Enqueued? && s.select.id == Next(s, step).workers[step.worker].posted.message.about)
  {
    var w := step.worker;
    assert WorkerOk(s, s.workers[w]);
    if s.select.Enqueued? {
      ChannelOfOwner(s.net, s.select.slot);
    }
  }

  lemma AckInvStep(s: State, step: Step)
    requires Inv(s) && AckInv(s) && Enabled(s, step)
    ensures AckInv(Next(s, step))
  {
    var t := Next(s, step);
    StepExtends(s, step);
    StepAdds(s, step);
    StepAppends(s, step);
    CoverageStep(s, step, t);
    LogsStep(s, step);
    forall w | 0 <= w < |t.workers| && t.workers[w].Carrying?
      ensures CarriedOk(t, t.workers[w])
    {
      CarriedStep(s, step, w);
    }
  }

  // ---------- Ack first, exactly ----------

  /** A log entry that was in order stays in order. */
  lemma FollowsStays(s: State, t: State, c: nat, i: nat)
    requires AckInv(s) && OriginOk(t) && Extends(s, t)
    requires c < |s.net.connections| && i < |s.net.connections[c].accepted|
    requires Follows(s, c, i)
    requires t.enqueued == s.enqueued || (s.select.Created? && t.enqueued == s.enqueued + {s.select.id})
    ensures i < |t.net.connections[c].accepted| && Follows(t, c, i)
  {
    var before, after := s.net.connections[c].accepted, t.net.connections[c].accepted;
    assert before <= after;
    assert after[i] == before[i];
    var m := before[i].Msg();
    assert EntryOk(s, m);
    if Tells(t, c, m) {
      assert Tells(s, c, m);
      var j :| 0 <= j < i && IsAck(before[j], m.about);
      assert IsAck(after[j], m.about);
    }
  }

  /** A fresh entry is in order exactly when it is no early delivery. */
  lemma FreshEntry(s: State, step: Step)
    requires Inv(s) && AckInv(s) && Enabled(s, step) && Appended(s, step).Some?
    ensures var (c, entry) := Appended(s, step).value;
            && c < |s.net.connections|
            && (Tells(s, c, entry.Msg()) ==>
                  (AckedBefore(s.net.connections[c].accepted, |s.net.connections[c].accepted|, entry.Msg().about)
                   <==> !EarlyDelivery(s, step)))
            && (EarlyDelivery(s, step) ==> Tells(s, c, entry.Msg()))
  {
    var (c, entry) := Appended(s, step).value;
    if step.Deliver? {
      var p := s.workers[step.worker].posted;
      assert WorkerOk(s, s.workers[step.worker]);
      assert CarriedOk(s, s.workers[step.worker]);
      TargetIsOrigin(s, p);
      assert c == s.origin[p.message.about];
      if EarlyDelivery(s, step) {
        NotAckedYet(s, c, p.message.about);
      } else {
        assert Acked(s, p.message.about);
      }
    } else if step.Flush? {
      var p := s.select.deferred[s.select.next];
      TargetIsOrigin(s, p);
      assert Acked(s, p.message.about);
    } else {
      var about := s.select.reply.about;
      if Tells(s, c, s.select.reply) {
        assert Acked(s, about);
      }
    }
  }

  lemma NotAckedYet(s: State, c: nat, id: int)
    requires AckInv(s) && c < |s.net.connections| && AckInHand(s.select, id)
    ensures !AckedBefore(s.net.connections[c].accepted, |s.net.connections[c].accepted|, id)
  {
    var log := s.net.connections[c].accepted;
    forall j | 0 <= j < |log|
      ensures !IsAck(log[j], id)
    {
      assert EntryOk(s, log[j].Msg());
    }
  }

  /** An early delivery always goes through: the connection is still there. */
  lemma EarlyDeliveryLands(s: State, step: Step)
    requires Inv(s) && Enabled(s, step) && EarlyDelivery(s, step)
    ensures Appended(s, step).Some?
  {
    var p := s.workers[step.worker].posted;
    assert WorkerOk(s, s.workers[step.worker]);
    TargetIsOrigin(s, p);
  }

  lemma AckFirstFrom(s: State, t: State, appended: Option<(nat, Entry)>, early: bool)
    requires AckInv(s) && OriginOk(t) && Extends(s, t) && AckFirst(s)
    requires LogsAfter(s.net, t.net, appended)
    requires t.enqueued == s.enqueued || (s.select.Created? && t.enqueued == s.enqueued + {s.select.id})
    requires appended.Some? ==>
               var (c, entry) := appended.value;
               && t.enqueued == s.enqueued && t.origin == s.origin
               && (Tells(s, c, entry.Msg()) ==>
                     (AckedBefore(s.net.connections[c].accepted, |s.net.connections[c].accepted|, entry.Msg().about)
                      <==> !early))
               && (early ==> Tells(s, c, entry.Msg()))
    requires appended.None? ==> !early
    ensures AckFirst(t) <==> !early
  {
    forall c, i | 0 <= c < |s.net.connections| && 0 <= i < |s.net.connections[c].accepted|
      ensures i < |t.net.connections[c].accepted| && Follows(t, c, i)
    {
      FollowsStays(s, t, c, i);
    }
    if appended.Some? {
      var (c, entry) := appended.value;
      var before, after := s.net.connections[c].accepted, t.net.connections[c].accepted;
      var n := |before|;
      assert after[n] == entry;
      assert forall j :: 0 <= j < n ==> after[j] == before[j];
      assert AckedBefore(after, n, entry.Msg().about) <==> AckedBefore(before, n, entry.Msg().about);
      assert Follows(t, c, n) <==> !early;
    }
  }

  lemma StepKeepsIds(s: State, step: Step)
    requires Enabled(s, step) && (step.QueueReply? || step.Flush? || step.Deliver?)
    ensures Next(s, step).enqueued == s.enqueued && Next(s, step).origin == s.origin
  {
  }

  lemma AckFirstStep(s: State, step: Step)
    requires Inv(s) && AckInv(s) && AckFirst(s) && Enabled(s, step)
    ensures AckFirst(Next(s, step)) <==> !EarlyDelivery(s, step)
  {
    var t := Next(s, step);
    StepExtends(s, step);
    StepAdds(s, step);
    StepAppends(s, step);
    if Appended(s, step).Some? {
      FreshEntry(s, step);
      StepKeepsIds(s, step);
    } else if EarlyDelivery(s, step) {
      EarlyDeliveryLands(s, step);
    }
    AckFirstFrom(s, t, Appended(s, step), EarlyDelivery(s, step));
  }

  /** Some step of the run is an early delivery. */
  predicate HasEarlyDelivery(s: State, steps: seq<Step>)
    requires Legal(s, steps)
    decreases |steps|
  {
    steps != [] && (EarlyDelivery(s, steps[0]) || HasEarlyDelivery(Next(s, steps[0]), steps[1..]))
  }

  lemma {:induction false} ViolationLasts(s: State, steps: seq<Step>)
    requires Inv(s) && Legal(s, steps) && !AckFirst(s)
    ensures !AckFirst(Exec(s, steps))
    decreases |steps|
  {
    if steps != [] {
      InvStep(s, steps[0]);
      StepExtends(s, steps[0]);
      ViolationStays(s, Next(s, steps[0]));
      ViolationLasts(Next(s, steps[0]), steps[1..]);
    }
  }

  lemma {:induction false} AckFirstRun(s: State, steps: seq<Step>)
    requires Inv(s) && AckInv(s) && AckFirst(s) && Legal(s, steps)
    ensures AckFirst(Exec(s, steps)) <==> !HasEarlyDelivery(s, steps)
    decreases |steps|
  {
    if steps != [] {
      InvStep(s, steps[0]);
      AckInvStep(s, steps[0]);
      AckFirstStep(s, steps[0]);
      if EarlyDelivery(s, steps[0]) {
        ViolationLasts(Next(s, steps[0]), steps[1..]);
      } else {
        AckFirstRun(Next(s, steps[0]), steps[1..]);
      }
    }
  }

  /** The exact condition: a run keeps ack-first if and only if no worker appends a message
      in the window between the barrier release and the queueing of that submission's ack. */
  lemma AckFirstExactly(s: State, steps: seq<Step>)
    requires Initial(s) && Legal(s, steps)
    ensures AckFirst(Exec(s, steps)) <==> !HasEarlyDelivery(s, steps)
  {
    InvInitial(s);
    AckFirstRun(s, steps);
  }

  /** Release and ack-queueing as one step: nothing comes between them. */
  predicate AtomicAcks(s: State, steps: seq<Step>)
    requires Legal(s, steps)
    decreases |steps|
  {
    steps != [] ==>
      && (s.select.Replying? ==> steps[0] == QueueReply)
      && AtomicAcks(Next(s, steps[0]), steps[1..])
  }

  lemma {:induction false} AtomicAcksAreNeverEarly(s: State, steps: seq<Step>)
    requires Legal(s, steps) && AtomicAcks(s, steps)
    ensures !HasEarlyDelivery(s, steps)
    decreases |steps|
  {
    if steps != [] {
      AtomicAcksAreNeverEarly(Next(s, steps[0]), steps[1..]);
    }
  }

  /** With release and ack-queueing as one step, in every interleaving of everything else,
      no message about a submission precedes its ack on the connection. */
  lemma AckFirstWhenAtomic(s: State, steps: seq<Step>)
    requires Initial(s) && Legal(s, steps) && AtomicAcks(s, steps)
    ensures AckFirst(Exec(s, steps))
  {
    AtomicAcksAreNeverEarly(s, steps);
    AckFirstExactly(s, steps);
  }
}
