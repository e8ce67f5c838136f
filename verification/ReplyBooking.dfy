/** From being put aside to being appended: a message the barrier defers is listed by the
    handler it raced with, and lands behind that handler's own answer to the submit. */
module ReplyBooking {
  import opened Framing
  import opened ReplyDeferral
  import opened ReplyDelivery
  import opened ReplyInvariant
  import opened ReplyProtocol

  /** The answer to the submit that became submission `id`. */
  predicate IsAnswer(m: Message, id: int) {
    (m.kind == Ack || m.kind == Refusal) && m.about == id
  }

  predicate AnsweredAt(net: Net, c: nat, at: nat, id: int) {
    && c < |net.connections| && at < |net.connections[c].accepted|
    && net.connections[c].accepted[at].Direct? && IsAnswer(net.connections[c].accepted[at].direct, id)
  }

  /** The running handler answers a submit on connection `c`, which becomes submission `id`. */
  predicate Answers(s: State, c: nat, id: int) {
    SelectOnLiveSlot(s) && Shape(s.net) && Lists(s.select) && s.net.owner[s.select.slot] == c &&
    match s.select
    case Marked(_) => s.nextId == id
    case Created(_, i) => i == id
    case Enqueued(_, i, _) => i == id
    case Replying(_, reply, _) => IsAnswer(reply, id)
    case Replied(_, at, _) => AnsweredAt(s.net, c, at, id)
    case Flushing(_, at, _, _) => AnsweredAt(s.net, c, at, id)
  }

  /** Only a submit lists put-aside messages. */
  ghost predicate SubmitsList(s: State) {
    SelectOnLiveSlot(s) && Shape(s.net) && (Held(s) != [] ==> !s.select.Free? && exists id :: Answers(s, s.net.owner[s.select.slot], id))
  }

  lemma AnsweredStays(a: Net, b: Net, c: nat, at: nat, id: int)
    requires AnsweredAt(a, c, at, id) && Grows(a, b)
    ensures AnsweredAt(b, c, at, id)
  {
    assert a.connections[c].accepted <= b.connections[c].accepted;
  }

  lemma AnswersOthers(s: State, t: State, c: nat, id: int)
    requires Answers(s, c, id) && t.select == s.select && t.nextId == s.nextId
    requires SameTenants(s.net, t.net) && Grows(s.net, t.net) && Shape(t.net)
    ensures Answers(t, c, id)
  {
    StaysOnLiveSlot(s, t);
    if s.select.Replied? || s.select.Flushing? {
      AnsweredStays(s.net, t.net, c, s.select.replyAt, id);
    }
  }

  lemma AnswersOwn(s: State, step: Step, c: nat, id: int)
    requires Inv(s) && Enabled(s, step) && Answers(s, c, id) && NetStepOk(s, step) && LogEffect(s, step, Next(s, step))
    requires !ByWorker(step) && !step.FinishFlush?
    ensures Answers(Next(s, step), c, id)
  {
    var t := Next(s, step);
    if step.MakeWritable? || step.Flush? {
      AnsweredStays(s.net, t.net, c, s.select.replyAt, id);
    }
  }

  /** The handler keeps answering its submit until it is done. */
  lemma AnswersStep(s: State, step: Step, c: nat, id: int)
    requires Inv(s) && Enabled(s, step) && Answers(s, c, id) && !step.FinishFlush?
    ensures Answers(Next(s, step), c, id)
  {
    NetStep(s, step);
    if ByWorker(step) {
      WorkerLeavesHandler(s, step);
      StepAdds(s, step);
      AnswersOthers(s, Next(s, step), c, id);
    } else {
      StepLogs(s, step);
      AnswersOwn(s, step, c, id);
    }
  }

  lemma SubmitsListStep(s: State, step: Step)
    requires Inv(s) && Enabled(s, step) && SubmitsList(s)
    ensures SubmitsList(Next(s, step))
  {
    NetStep(s, step);
    var t := Next(s, step);
    if Held(t) != [] {
      if step.MarkWaiting? {
        assert Answers(t, t.net.owner[t.select.slot], t.nextId);
      } else if s.select.Marked? || s.select.Created? || s.select.Enqueued? {
        var id := match s.select case Marked(_) => s.nextId case Created(_, i) => i case Enqueued(_, i, _) => i;
        AnswersStep(s, step, s.net.owner[s.select.slot], id);
      } else {
        HeldBefore(s, step);
        var id :| Answers(s, s.net.owner[s.select.slot], id);
        AnswersStep(s, step, s.net.owner[s.select.slot], id);
      }
    }
  }

  /** After its release a handler's list was there before the step. */
  lemma HeldBefore(s: State, step: Step)
    requires Inv(s) && Enabled(s, step) && NetStepOk(s, step) && Held(Next(s, step)) != []
    requires !step.MarkWaiting? && !(s.select.Marked? || s.select.Created? || s.select.Enqueued?)
    ensures Held(s) == Held(Next(s, step)) && !step.FinishFlush? && Lists(s.select)
  {
    if ByWorker(step) {
      WorkerLeavesHandler(s, step);
    } else {
      HeldBeforeOwn(s, step);
    }
  }

  lemma HeldBeforeOwn(s: State, step: Step)
    requires Enabled(s, step) && !ByWorker(step) && SelectOnLiveSlot(Next(s, step)) && Held(Next(s, step)) != []
    requires !step.MarkWaiting? && !(s.select.Marked? || s.select.Created? || s.select.Enqueued?)
    ensures step.QueueReply? || step.MakeWritable? || step.Flush?
    ensures Held(s) == Held(Next(s, step))
  {
  }

  // ---------- One message ----------

  /** Message `n`, put aside as number `k` of handler `h`, on its way: still deferred, or
      flushed by the handler. */
  predicate Underway(s: State, n: nat, h: nat, k: nat) {
    && |s.handled| == h
    && (HasFateAt(s, n, Deferred(h, k)) ||
        (s.select.Flushing? && k < s.select.next && k < |s.select.deferred| && s.select.deferred[k].serial == n))
  }

  predicate HasFateAt(s: State, n: nat, f: Fate) {
    n in s.fate && s.fate[n] == f
  }

  /** Handler `h` is done: it listed the message as number `k`, on connection `c`, behind the
      answer to submission `id`. */
  predicate Booked(s: State, n: nat, h: nat, k: nat, c: nat, id: int) {
    && h < |s.handled| && s.handled[h].connection == c
    && k < |s.handled[h].deferred| && s.handled[h].deferred[k].serial == n
    && AnsweredAt(s.net, c, s.handled[h].replyAt, id)
  }

  /** A put-aside message stays so until its own flush. */
  lemma DeferredStays(s: State, step: Step, n: nat)
    requires Inv(s) && FateInv(s) && Enabled(s, step) && n in s.fate && s.fate[n].Deferred?
    ensures HasFateAt(Next(s, step), n, s.fate[n]) || (step.Flush? && s.select.deferred[s.select.next].serial == n)
  {
    if step.Notify? {
      NotifyEffects(s, step.worker, step.body);
    } else if step.Flush? {
      FlushEffects(s);
    } else if step.Deliver? {
      DeliverKeepsDeferred(s, step.worker, n);
    } else {
      FatesUntouched(s, step);
    }
  }

  lemma DeliverKeepsDeferred(s: State, w: nat, n: nat)
    requires Inv(s) && FateInv(s) && Enabled(s, Deliver(w)) && n in s.fate && s.fate[n].Deferred?
    ensures HasFateAt(Next(s, Deliver(w)), n, s.fate[n])
  {
    DeliverEffects(s, w);
    assert HasFate(s.fate, s.workers[w].posted, InFlight(w));
    LandFates(s, s.workers[w].posted);
  }

  lemma FatesUntouched(s: State, step: Step)
    requires Enabled(s, step) && !step.Notify? && !step.Flush? && !step.Deliver?
    ensures Next(s, step).fate == s.fate
  {
  }

  lemma UnderwayStep(s: State, step: Step, n: nat, h: nat, k: nat)
    requires Inv(s) && FateInv(s) && Enabled(s, step) && Underway(s, n, h, k) && !step.FinishFlush?
    ensures Underway(Next(s, step), n, h, k)
  {
    var t := Next(s, step);
    HandledOnlyByFinish(s, step);
    if HasFateAt(s, n, Deferred(h, k)) {
      DeferredStays(s, step, n);
      if step.Flush? && s.select.deferred[s.select.next].serial == n {
        FlushEffects(s);
        assert HasFate(s.fate, s.select.deferred[s.select.next], Deferred(h, s.select.next));
      }
    } else {
      FlushingGoesOn(s, step);
    }
  }

  lemma HandledOnlyByFinish(s: State, step: Step)
    requires Inv(s) && Enabled(s, step) && !step.FinishFlush?
    ensures Next(s, step).handled == s.handled
  {
  }

  lemma FlushingGoesOn(s: State, step: Step)
    requires Inv(s) && Enabled(s, step) && s.select.Flushing? && !step.FinishFlush?
    ensures
      var t := Next(s, step);
      t.select.Flushing? && t.select.deferred == s.select.deferred && s.select.next <= t.select.next
  {
  }

  lemma UnderwayFinish(s: State, n: nat, h: nat, k: nat, c: nat, id: int)
    requires Inv(s) && FateInv(s) && Enabled(s, FinishFlush) && Underway(s, n, h, k) && Answers(s, c, id)
    ensures Booked(Next(s, FinishFlush), n, h, k, c, id)
  {
    assert !HasFateAt(s, n, Deferred(h, k));
  }

  lemma BookedStays(s: State, step: Step, n: nat, h: nat, k: nat, c: nat, id: int)
    requires Inv(s) && Enabled(s, step) && Booked(s, n, h, k, c, id)
    ensures Booked(Next(s, step), n, h, k, c, id)
  {
    NetStep(s, step);
    if !step.FinishFlush? {
      HandledOnlyByFinish(s, step);
    }
    AnsweredStays(s.net, Next(s, step).net, c, s.handled[h].replyAt, id);
  }

  predicate OnItsWay(s: State, n: nat, h: nat, k: nat, c: nat, id: int) {
    (Underway(s, n, h, k) && Answers(s, c, id)) || Booked(s, n, h, k, c, id)
  }

  lemma OnItsWayStep(s: State, step: Step, n: nat, h: nat, k: nat, c: nat, id: int)
    requires Inv(s) && FateInv(s) && Enabled(s, step) && OnItsWay(s, n, h, k, c, id)
    ensures OnItsWay(Next(s, step), n, h, k, c, id)
  {
    if Booked(s, n, h, k, c, id) {
      BookedStays(s, step, n, h, k, c, id);
    } else if step.FinishFlush? {
      UnderwayFinish(s, n, h, k, c, id);
    } else {
      AnswersStep(s, step, c, id);
      UnderwayStep(s, step, n, h, k);
    }
  }

  lemma {:induction false} OnItsWayRun(s: State, steps: seq<Step>, n: nat, h: nat, k: nat, c: nat, id: int)
    requires Inv(s) && FateInv(s) && Legal(s, steps) && OnItsWay(s, n, h, k, c, id)
    ensures OnItsWay(Exec(s, steps), n, h, k, c, id)
    decreases |steps|
  {
    if steps != [] {
      InvStep(s, steps[0]);
      FateStep(s, steps[0]);
      OnItsWayStep(s, steps[0], n, h, k, c, id);
      OnItsWayRun(Next(s, steps[0]), steps[1..], n, h, k, c, id);
    }
  }

  lemma {:induction false} SubmitsListRun(s: State, steps: seq<Step>)
    requires Inv(s) && SubmitsList(s) && Legal(s, steps)
    ensures SubmitsList(Exec(s, steps))
    decreases |steps|
  {
    if steps != [] {
      InvStep(s, steps[0]);
      SubmitsListStep(s, steps[0]);
      SubmitsListRun(Next(s, steps[0]), steps[1..]);
    }
  }

  // ---------- Landed means there ----------

  /** Where a message's fate says it landed, there it is. */
  predicate LandedThere(fate: map<nat, Fate>, net: Net) {
    forall n :: n in fate && fate[n].Landed? ==> EntryIs(net, fate[n].connection, fate[n].position, n)
  }

  predicate EntryIs(net: Net, c: nat, at: nat, n: nat) {
    && c < |net.connections| && at < |net.connections[c].accepted|
    && net.connections[c].accepted[at].Push? && net.connections[c].accepted[at].posted.serial == n
  }

  lemma EntryStays(a: Net, b: Net, c: nat, at: nat, n: nat)
    requires EntryIs(a, c, at, n) && Grows(a, b)
    ensures EntryIs(b, c, at, n)
  {
    assert a.connections[c].accepted <= b.connections[c].accepted;
  }

  /** Logs grow, and at most one fate becomes another one, landed only at its own entry. */
  lemma LandedThereAfter(s: State, t: State, n: nat)
    requires LandedThere(s.fate, s.net) && Grows(s.net, t.net)
    requires forall m :: m in t.fate && m != n ==> m in s.fate && t.fate[m] == s.fate[m]
    requires n in t.fate && t.fate[n].Landed? && !(n in s.fate && t.fate[n] == s.fate[n]) ==> EntryIs(t.net, t.fate[n].connection, t.fate[n].position, n)
    ensures LandedThere(t.fate, t.net)
  {
    forall m | m in t.fate && t.fate[m].Landed?
      ensures EntryIs(t.net, t.fate[m].connection, t.fate[m].position, m)
    {
      if m in s.fate && t.fate[m] == s.fate[m] {
        EntryStays(s.net, t.net, t.fate[m].connection, t.fate[m].position, m);
      }
    }
  }

  lemma LandLandsThere(s: State, p: Posted)
    requires NetInv(s.net) && LandedThere(s.fate, s.net)
    ensures LandedThere(Land(s, p).fate, Land(s, p).net)
  {
    LandLogs(s, p);
    LandKeeps(s, p);
    LandedThereAfter(s, Land(s, p), p.serial);
  }

  lemma LandedThereStep(s: State, step: Step)
    requires Inv(s) && Enabled(s, step) && LandedThere(s.fate, s.net)
    ensures LandedThere(Next(s, step).fate, Next(s, step).net)
  {
    NetStep(s, step);
    if step.Notify? {
      NotifyEffects(s, step.worker, step.body);
      LandedThereAfter(s, Next(s, step), s.nextSerial);
    } else if step.Flush? {
      FlushNeverDefers(s);
      LandLandsThere(s, s.select.deferred[s.select.next]);
    } else if step.Deliver? {
      DeliverEffects(s, step.worker);
      LandLandsThere(s, s.workers[step.worker].posted);
    } else {
      FatesUntouched(s, step);
      LandedThereAfter(s, Next(s, step), 0);
    }
  }

  lemma {:induction false} LandedThereRun(s: State, steps: seq<Step>)
    requires Inv(s) && LandedThere(s.fate, s.net) && Legal(s, steps)
    ensures LandedThere(Exec(s, steps).fate, Exec(s, steps).net)
    decreases |steps|
  {
    if steps != [] {
      InvStep(s, steps[0]);
      LandedThereStep(s, steps[0]);
      LandedThereRun(Next(s, steps[0]), steps[1..]);
    }
  }

  lemma BookedLanded(s: State, n: nat, h: nat, k: nat, c: nat, id: int)
    requires FateInv(s) && LandedThere(s.fate, s.net) && Booked(s, n, h, k, c, id)
    ensures LandedBehind(s, n, c, s.handled[h].replyAt)
  {
    var r := s.handled[h];
    assert InOrder(s.fate, s.net, r.connection, r.replyAt, r.deferred, |r.deferred|);
    assert r.deferred[k].serial in s.fate;
  }

  /** The message is on the connection, behind position `at`. */
  predicate LandedBehind(s: State, n: nat, c: nat, at: nat) {
    && n in s.fate && s.fate[n].Landed? && s.fate[n].connection == c && at < s.fate[n].position
    && EntryIs(s.net, c, s.fate[n].position, n)
  }

  /** No log has the message anywhere but where its fate says. */
  predicate NowhereElse(s: State, n: nat) {
    forall c, i :: 0 <= c < |s.net.connections| && 0 <= i < |s.net.connections[c].accepted| && EntryIs(s.net, c, i, n) ==>
      HasFateAt(s, n, Landed(c, i))
  }

  // ---------- The theorems ----------

  /** A worker's message for a waiting channel is put aside, as the last of the running
      handler's list. */
  lemma PostIsDeferred(s: State, w: nat, body: seq<byte>)
    requires Inv(s) && Enabled(s, Notify(w, body)) && s.workers[w].task.channel in s.barrier.awaiting
    ensures HasFateAt(Next(s, Notify(w, body)), s.nextSerial, Deferred(|s.handled|, |Held(s)|))
    ensures Held(Next(s, Notify(w, body))) == Held(s) + [Posted(s.nextSerial, s.workers[w].task.channel, Message(Event, s.workers[w].task.id, body))]
  {
    NotifyEffects(s, w, body);
    WorkerLeavesHandler(s, Notify(w, body));
    assert s.select.Marked? || s.select.Created? || s.select.Enqueued?;
  }

  /** While a message is put aside, a submit is being answered. */
  lemma DeferredHasSubmit(s: State, before: seq<Step>, n: nat, h: nat, k: nat) returns (c: nat, id: int)
    requires Initial(s) && Legal(s, before) && HasFateAt(Exec(s, before), n, Deferred(h, k))
    ensures Underway(Exec(s, before), n, h, k) && Answers(Exec(s, before), c, id)
  {
    InvInitial(s);
    FateRun(s, before);
    SubmitsListRun(s, before);
    var u := Exec(s, before);
    assert Held(u) != [];
    c := u.net.owner[u.select.slot];
    id :| Answers(u, c, id);
  }

  /** In every interleaving: a message put aside as number `k` of handler `h` was put aside
      while a submit was being answered on a connection `c`, and once the select thread is free
      it has been appended to that connection, behind that submit's own ack or refusal; the
      handler's record has it as number `k`. */
  lemma DeferredIsAppended(s: State, before: seq<Step>, after: seq<Step>, n: nat, h: nat, k: nat) returns (c: nat, id: int)
    requires Initial(s) && Legal(s, before) && Legal(Exec(s, before), after)
    requires HasFateAt(Exec(s, before), n, Deferred(h, k)) && Exec(Exec(s, before), after).select.Free?
    ensures Answers(Exec(s, before), c, id)
    ensures var t := Exec(Exec(s, before), after);
            Booked(t, n, h, k, c, id) && LandedBehind(t, n, c, t.handled[h].replyAt) && NowhereElse(t, n)
  {
    c, id := DeferredHasSubmit(s, before, n, h, k);
    InvInitial(s);
    InvRun(s, before);
    FateRun(s, before);
    var u := Exec(s, before);
    OnItsWayRun(u, after, n, h, k, c, id);
    FateRun(u, after);
    LandedThereRun(s, before);
    LandedThereRun(u, after);
    BookedLanded(Exec(u, after), n, h, k, c, id);
  }
}
