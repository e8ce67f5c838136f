/** What every step of the reply protocol keeps: slots and connections match, channel ids
    address the connection a submission came from, and a posted message can only be
    appended to that connection. */
module ReplyInvariant {
  import opened AckBarriers
  import opened Framing
  import opened ReplyChannels
  import opened ReplyProtocol
  import opened Slots

  // ---------- The network part ----------

  predicate NetInv(net: Net) {
    && Shape(net) && net.registry.Valid()
    && |net.registry.slots| <= INT32_MAX
    && 1 <= net.nextSession <= UINT64_MAX
    && (forall id :: 0 <= id < |net.registry.slots| && net.registry.slots[id].Live() ==>
          && net.connections[net.owner[id]].slot == id
          && net.connections[net.owner[id]].session == net.registry.slots[id].session)
    && (forall c :: 0 <= c < |net.connections| ==>
          net.connections[c].slot < |net.registry.slots| && 1 <= net.connections[c].session < net.nextSession)
    && (forall c, d :: 0 <= c < d < |net.connections| ==> net.connections[c].session < net.connections[d].session)
  }

  /** Histories only grow; who a connection is never changes. */
  predicate Grows(a: Net, b: Net) {
    && |a.connections| <= |b.connections|
    && (forall c :: 0 <= c < |a.connections| ==>
          && b.connections[c].slot == a.connections[c].slot
          && b.connections[c].session == a.connections[c].session
          && a.connections[c].accepted <= b.connections[c].accepted
          && a.connections[c].sent <= b.connections[c].sent)
  }

  /** Nobody connects or disconnects. */
  predicate SameTenants(a: Net, b: Net) {
    && b.owner == a.owner && |b.registry.slots| == |a.registry.slots| && b.registry.free == a.registry.free
    && |b.connections| == |a.connections| && b.nextSession == a.nextSession
    && (forall id :: 0 <= id < |a.registry.slots| ==>
          b.registry.slots[id].fd == a.registry.slots[id].fd && b.registry.slots[id].session == a.registry.slots[id].session)
  }

  lemma WithSlotKeeps(net: Net, id: nat, slot: Slot)
    requires NetInv(net) && LiveSlot(net, id)
    requires slot.Valid() && slot.fd == net.registry.slots[id].fd && slot.session == net.registry.slots[id].session
    ensures NetInv(WithSlot(net, id, slot)) && Grows(net, WithSlot(net, id, slot))
    ensures SameTenants(net, WithSlot(net, id, slot))
  {
  }

  lemma RecordKeeps(net: Net, c: nat, entry: Entry)
    requires NetInv(net) && c < |net.connections|
    ensures NetInv(Record(net, c, entry)) && Grows(net, Record(net, c, entry))
    ensures SameTenants(net, Record(net, c, entry))
  {
  }

  lemma LogSentKeeps(net: Net, c: nat, bytes: seq<byte>)
    requires NetInv(net) && c < |net.connections|
    ensures NetInv(LogSent(net, c, bytes)) && Grows(net, LogSent(net, c, bytes))
    ensures SameTenants(net, LogSent(net, c, bytes))
  {
  }

  lemma RegisterKeeps(net: Net, fd: int)
    requires NetInv(net) && fd > 0 && net.nextSession < UINT64_MAX
    ensures NetInv(Register(net, fd)) && Grows(net, Register(net, fd))
  {
    if net.registry.free != [] {
      R.AcquireKeepsPartition(net.registry, fd, net.nextSession);
    }
  }

  lemma DisconnectKeeps(net: Net, id: nat)
    requires NetInv(net) && LiveSlot(net, id)
    ensures NetInv(Disconnect(net, id)) && Grows(net, Disconnect(net, id))
    ensures |Disconnect(net, id).connections| == |net.connections|
  {
    R.ReleaseKeepsPartition(net.registry, id);
  }

  lemma QueueDirectKeeps(net: Net, id: nat, message: Message)
    requires NetInv(net) && LiveSlot(net, id)
    ensures NetInv(QueueDirect(net, id, message)) && Grows(net, QueueDirect(net, id, message))
    ensures SameTenants(net, QueueDirect(net, id, message))
  {
    var slot := Queue(net.registry.slots[id], message.body);
    WithSlotKeeps(net, id, slot);
    RecordKeeps(WithSlot(net, id, slot), net.owner[id], Direct(message));
  }

  lemma QueuePostedKeeps(net: Net, id: nat, posted: Posted)
    requires NetInv(net) && LiveSlot(net, id)
    ensures NetInv(QueuePosted(net, id, posted)) && Grows(net, QueuePosted(net, id, posted))
    ensures SameTenants(net, QueuePosted(net, id, posted))
  {
    var before := net.registry.slots[id];
    var slot := QueueIfSession(before, before.session, posted.message.body);
    WithSlotKeeps(net, id, slot);
    RecordKeeps(WithSlot(net, id, slot), net.owner[id], Push(posted));
  }

  lemma LandKeeps(s: State, posted: Posted)
    requires NetInv(s.net)
    ensures var t := Land(s, posted);
            NetInv(t.net) && Grows(s.net, t.net) && SameTenants(s.net, t.net)
  {
    var target := Target(s.net, posted.channel);
    if target.Some? {
      QueuePostedKeeps(s.net, target.value, posted);
    }
  }

  predicate ChangesTenants(step: Step) {
    step.Accept? || step.Hangup? || step.SendFailed?
  }

  /** The network invariant over one step, with what stays fixed for a busy handler. */
  predicate NetStepOk(s: State, step: Step)
    requires Enabled(s, step)
  {
    var t := Next(s, step);
    && NetInv(t.net) && Grows(s.net, t.net) && SelectOnLiveSlot(t)
    && (!ChangesTenants(step) ==> SameTenants(s.net, t.net))
  }

  lemma NetStepTenants(s: State, step: Step)
    requires NetInv(s.net) && Enabled(s, step) && ChangesTenants(step)
    ensures NetStepOk(s, step)
  {
    match step
    case Accept(fd) => RegisterKeeps(s.net, fd);
    case Hangup(slot) => DisconnectKeeps(s.net, slot);
    case SendFailed => DisconnectKeeps(s.net, s.select.slot);
  }

  /** Steps that set a status or log bytes on one slot. */
  predicate TouchesOwnSlot(step: Step) {
    step.Read? || step.QueueReply? || step.MakeWritable? || step.MakeReadable? || step.ConsumeSent? || step.SendBytes?
  }

  lemma NetStepOwnSlot(s: State, step: Step)
    requires NetInv(s.net) && Enabled(s, step) && TouchesOwnSlot(step)
    ensures NetStepOk(s, step)
  {
    match step
    case Read(slot, _) => WithSlotKeeps(s.net, slot, s.net.registry.slots[slot].(status := Idle));
    case QueueReply => QueueDirectKeeps(s.net, s.select.slot, s.select.reply);
    case MakeWritable => WithSlotKeeps(s.net, s.select.slot, s.net.registry.slots[s.select.slot].(status := Writable));
    case MakeReadable => WithSlotKeeps(s.net, s.select.slot, s.net.registry.slots[s.select.slot].(status := Readable));
    case ConsumeSent =>
      WithSlotKeeps(s.net, s.select.slot, Consume(s.net.registry.slots[s.select.slot], s.select.count));
    case SendBytes(count) => LogSentKeeps(s.net, s.net.owner[s.select.slot], s.select.data[..count]);
  }

  lemma StaysOnLiveSlot(s: State, t: State)
    requires SelectOnLiveSlot(s) && SameTenants(s.net, t.net) && SlotOf(t.select) == SlotOf(s.select)
    ensures SelectOnLiveSlot(t)
  {
  }

  lemma NetStepFlush(s: State)
    requires NetInv(s.net) && Enabled(s, Flush)
    ensures NetStepOk(s, Flush)
  {
    var posted := s.select.deferred[s.select.next];
    LandKeeps(s, posted);
    var t := Next(s, Flush);
    assert t.net == s.net || t.net == Land(s, posted).net;
  }

  lemma NetStepDeliver(s: State, w: nat)
    requires NetInv(s.net) && Enabled(s, Deliver(w))
    ensures NetStepOk(s, Deliver(w))
  {
    var posted := s.workers[w].posted;
    LandKeeps(s, posted);
    var landed := Land(s, posted);
    StaysOnLiveSlot(s, landed);
    var t := Next(s, Deliver(w));
    assert t.net == landed.net && t.select == landed.select;
  }

  predicate Quiet(step: Step) {
    !ChangesTenants(step) && !TouchesOwnSlot(step) && !step.Flush? && !step.Deliver?
  }

  lemma NetStepQuiet(s: State, step: Step)
    requires NetInv(s.net) && Enabled(s, step) && Quiet(step)
    ensures NetStepOk(s, step) && Next(s, step).net == s.net
  {
    assert Next(s, step).net == s.net;
  }

  lemma NetStep(s: State, step: Step)
    requires NetInv(s.net) && Enabled(s, step)
    ensures NetStepOk(s, step)
  {
    if ChangesTenants(step) {
      NetStepTenants(s, step);
    } else if TouchesOwnSlot(step) {
      NetStepOwnSlot(s, step);
    } else if step.Flush? {
      NetStepFlush(s);
    } else if step.Deliver? {
      NetStepDeliver(s, step.worker);
    } else {
      NetStepQuiet(s, step);
    }
  }

  // ---------- Tasks, posted messages and the handler ----------

  /** The channel of an enqueued submission is that of the connection it came from. */
  predicate Addressed(s: State, channel: string, id: int) {
    && id in s.enqueued && id in s.origin
    && s.origin[id] < |s.net.connections|
    && channel == s.net.connections[s.origin[id]].Channel()
  }

  predicate PostOk(s: State, p: Posted) {
    p.message.kind == Event && p.serial < s.nextSerial && Addressed(s, p.channel, p.message.about)
  }

  predicate WorkerOk(s: State, w: Worker) {
    match w
    case Waiting => true
    case Holding(task) => Addressed(s, task.channel, task.id)
    case Carrying(task, posted) =>
      Addressed(s, task.channel, task.id) && PostOk(s, posted) && posted.message.about == task.id
  }

  predicate AllForSlot(s: State, slot: nat, posts: seq<Posted>)
    requires slot < |s.net.registry.slots|
  {
    forall j :: 0 <= j < |posts| ==> PostOk(s, posts[j]) && posts[j].channel == ChannelOf(s.net, slot)
  }

  /** The submission a handler is still answering came in on the handler's slot. */
  predicate HandlerOk(s: State) {
    SelectOnLiveSlot(s) && Shape(s.net) &&
    match s.select
    case Created(slot, id) => id in s.origin && s.origin[id] == s.net.owner[slot] && id !in s.enqueued
    case Enqueued(slot, id, ok) => id in s.origin && s.origin[id] == s.net.owner[slot] && (ok <==> id in s.enqueued)
    case Replying(slot, reply, deferred) =>
      && reply.kind != Event
      && (reply.kind == Ack ==> reply.about in s.enqueued && reply.about in s.origin && s.origin[reply.about] == s.net.owner[slot])
      && (reply.kind == Snapshot ==> reply.about in s.origin)
      && AllForSlot(s, slot, deferred)
    case Replied(slot, _, deferred) => AllForSlot(s, slot, deferred)
    case Flushing(slot, _, deferred, next) => next <= |deferred| && AllForSlot(s, slot, deferred)
    case _ => true
  }

  /** The barrier holds the channel of the submit in progress and no other. */
  function Awaited(s: State): set<string>
    requires SelectOnLiveSlot(s)
  {
    if s.select.Marked? || s.select.Created? || s.select.Enqueued? then {ChannelOf(s.net, s.select.slot)} else {}
  }

  predicate BarrierOk(s: State) {
    && SelectOnLiveSlot(s) && s.barrier.Valid() && s.barrier.awaiting == Awaited(s)
    && (forall ch, k :: ch in s.barrier.deferred && 0 <= k < |s.barrier.deferred[ch]| ==>
          PostOk(s, s.barrier.deferred[ch][k]) && s.barrier.deferred[ch][k].channel == ch)
  }

  predicate OriginOk(s: State) {
    && (forall id :: id in s.origin ==> id < s.nextId && s.origin[id] < |s.net.connections|)
    && s.enqueued <= s.origin.Keys
  }

  predicate TasksOk(s: State) {
    && (forall i :: 0 <= i < |s.queue| ==> Addressed(s, s.queue[i].channel, s.queue[i].id))
    && (forall w :: 0 <= w < |s.workers| ==> WorkerOk(s, s.workers[w]))
  }

  /** The invariant of the protocol. */
  predicate Inv(s: State) {
    NetInv(s.net) && OriginOk(s) && TasksOk(s) && HandlerOk(s) && BarrierOk(s)
  }

  /** What is known about a submission stays known. */
  predicate Extends(s: State, t: State) {
    && Grows(s.net, t.net) && s.enqueued <= t.enqueued && s.nextSerial <= t.nextSerial
    && (forall id :: id in s.origin ==> id in t.origin && t.origin[id] == s.origin[id])
  }

  /** Which submissions a step adds. */
  predicate AddsSubmissions(s: State, step: Step, t: State)
    requires SelectOnLiveSlot(s) && Shape(s.net)
  {
    && s.nextSerial <= t.nextSerial
    && (if step == CreateSubmission && !s.select.Free?
        then t.nextId == s.nextId + 1 && t.origin == s.origin[s.nextId := s.net.owner[s.select.slot]]
        else t.nextId == s.nextId && t.origin == s.origin)
    && (t.enqueued == s.enqueued ||
        (s.select.Created? && step == PushTask(true) && t.enqueued == s.enqueued + {s.select.id}))
  }

  lemma StepAdds(s: State, step: Step)
    requires Enabled(s, step)
    ensures AddsSubmissions(s, step, Next(s, step))
  {
  }

  lemma AddingExtends(s: State, step: Step, t: State)
    requires NetInv(s.net) && OriginOk(s) && SelectOnLiveSlot(s) && HandlerOk(s)
    requires AddsSubmissions(s, step, t) && Grows(s.net, t.net)
    ensures Extends(s, t) && OriginOk(t)
  {
  }

  lemma StepExtends(s: State, step: Step)
    requires Inv(s) && Enabled(s, step)
    ensures Extends(s, Next(s, step)) && OriginOk(Next(s, step))
  {
    NetStep(s, step);
    StepAdds(s, step);
    AddingExtends(s, step, Next(s, step));
  }

  lemma StillAddressed(s: State, t: State)
    requires OriginOk(s) && Extends(s, t)
    ensures forall ch, id :: Addressed(s, ch, id) ==> Addressed(t, ch, id)
    ensures forall p :: PostOk(s, p) ==> PostOk(t, p)
    ensures forall w :: WorkerOk(s, w) ==> WorkerOk(t, w)
  {
  }

  /** The handler's channel is the one of the connection on its slot. */
  lemma ChannelOfOwner(net: Net, id: nat)
    requires NetInv(net) && LiveSlot(net, id)
    ensures ChannelOf(net, id) == net.connections[net.owner[id]].Channel()
  {
  }

  predicate MovesTasks(step: Step) {
    step.PushTask? || step.Pop? || step.Notify? || step.Deliver? || step.Retire?
  }

  lemma TasksUntouched(s: State, step: Step)
    requires Enabled(s, step) && !MovesTasks(step)
    ensures Next(s, step).queue == s.queue && Next(s, step).workers == s.workers
  {
  }

  lemma TasksStepPush(s: State, ok: bool)
    requires Inv(s) && Enabled(s, PushTask(ok))
    requires forall ch, id :: Addressed(s, ch, id) ==> Addressed(Next(s, PushTask(ok)), ch, id)
    requires forall w :: WorkerOk(s, w) ==> WorkerOk(Next(s, PushTask(ok)), w)
    ensures TasksOk(Next(s, PushTask(ok)))
  {
    ChannelOfOwner(s.net, s.select.slot);
    var t := Next(s, PushTask(ok));
    assert t.workers == s.workers;
    if ok {
      assert t.queue == s.queue + [Task(s.select.id, ChannelOf(s.net, s.select.slot))];
      assert Addressed(t, ChannelOf(s.net, s.select.slot), s.select.id);
    }
  }

  lemma TasksStepWorker(s: State, step: Step)
    requires Inv(s) && Enabled(s, step) && ByWorker(step)
    requires forall ch, id :: Addressed(s, ch, id) ==> Addressed(Next(s, step), ch, id)
    requires forall w :: WorkerOk(s, w) ==> WorkerOk(Next(s, step), w)
    ensures TasksOk(Next(s, step))
  {
    var t := Next(s, step);
    var w := step.worker;
    assert t.queue == s.queue || t.queue == s.queue[1..];
    assert WorkerOk(s, s.workers[w]);
    assert |t.workers| == |s.workers|;
    assert forall v :: 0 <= v < |s.workers| && v != w ==> t.workers[v] == s.workers[v];
    assert WorkerOk(t, t.workers[w]);
  }

  lemma TasksStep(s: State, step: Step)
    requires Inv(s) && Enabled(s, step)
    ensures TasksOk(Next(s, step))
  {
    StepExtends(s, step);
    StillAddressed(s, Next(s, step));
    if step.PushTask? {
      TasksStepPush(s, step.ok);
    } else if MovesTasks(step) {
      TasksStepWorker(s, step);
    } else {
      TasksUntouched(s, step);
    }
  }

  predicate ByWorker(step: Step) {
    step.Pop? || step.Notify? || step.Deliver? || step.Retire?
  }

  lemma WorkerLeavesHandler(s: State, step: Step)
    requires Enabled(s, step) && ByWorker(step)
    ensures var t := Next(s, step);
            && t.select == s.select && t.enqueued == s.enqueued && t.origin == s.origin
            && t.handled == s.handled && (t.barrier == s.barrier || step.Notify?)
  {
  }

  lemma HandlerStepWorker(s: State, step: Step, t: State)
    requires Inv(s) && SameTenants(s.net, t.net) && Extends(s, t) && NetInv(t.net)
    requires t.select == s.select && t.enqueued == s.enqueued
    requires forall p :: PostOk(s, p) ==> PostOk(t, p)
    ensures HandlerOk(t)
  {
    StaysOnLiveSlot(s, t);
  }

  /** Select steps before the reply is known. */
  lemma HandlerStepEarly(s: State, step: Step)
    requires Inv(s) && Enabled(s, step) && NetInv(Next(s, step).net) && SelectOnLiveSlot(Next(s, step))
    requires step.MarkWaiting? || step.CreateSubmission? || step.PushTask? || step.Answer?
    requires OriginOk(s)
    ensures HandlerOk(Next(s, step))
  {
    assert s.nextId !in s.origin;
  }

  lemma HandlerStepRelease(s: State, body: seq<byte>)
    requires Inv(s) && Enabled(s, ReleaseBarrier(body))
    requires SelectOnLiveSlot(Next(s, ReleaseBarrier(body)))
    requires forall p :: PostOk(s, p) ==> PostOk(Next(s, ReleaseBarrier(body)), p)
    ensures HandlerOk(Next(s, ReleaseBarrier(body)))
  {
  }

  /** Select steps after it: the deferred list is carried along unchanged. */
  lemma HandlerStepLate(s: State, step: Step)
    requires Inv(s) && Enabled(s, step) && NetInv(Next(s, step).net) && SelectOnLiveSlot(Next(s, step))
    requires step.QueueReply? || step.MakeWritable? || step.Flush?
    requires SameTenants(s.net, Next(s, step).net)
    requires forall p :: PostOk(s, p) ==> PostOk(Next(s, step), p)
    ensures HandlerOk(Next(s, step))
  {
    var t := Next(s, step);
    assert t.select.slot == s.select.slot && t.select.deferred == s.select.deferred;
    assert ChannelOf(t.net, s.select.slot) == ChannelOf(s.net, s.select.slot);
  }

  predicate LeavesNothingToAnswer(step: Step) {
    || step.Accept? || step.Hangup? || step.Read? || step.FinishFlush? || step.CopyPending? || step.FindNothing?
    || step.SendBytes? || step.SendBlocked? || step.SendFailed? || step.ConsumeSent? || step.MakeReadable?
  }

  lemma HandlerStepOther(s: State, step: Step)
    requires Enabled(s, step) && LeavesNothingToAnswer(step)
    requires Shape(Next(s, step).net) && SelectOnLiveSlot(Next(s, step))
    ensures HandlerOk(Next(s, step))
  {
    var t := Next(s, step);
    assert t.select.Free? || t.select.Got? || t.select.Copied? || t.select.Sent? || t.select.Drained?;
  }

  lemma HandlerStep(s: State, step: Step)
    requires Inv(s) && Enabled(s, step)
    ensures HandlerOk(Next(s, step))
  {
    NetStep(s, step);
    StepExtends(s, step);
    var t := Next(s, step);
    StillAddressed(s, t);
    if ByWorker(step) {
      WorkerLeavesHandler(s, step);
      HandlerStepWorker(s, step, t);
    } else if step.QueueReply? || step.MakeWritable? || step.Flush? {
      HandlerStepLate(s, step);
    } else if step.ReleaseBarrier? {
      HandlerStepRelease(s, step.body);
    } else if LeavesNothingToAnswer(step) {
      HandlerStepOther(s, step);
    } else {
      HandlerStepEarly(s, step);
    }
  }

  // ---------- The barrier ----------

  lemma BarrierStepMark(s: State)
    requires Inv(s) && Enabled(s, MarkWaiting)
    ensures BarrierOk(Next(s, MarkWaiting))
  {
    var t := Next(s, MarkWaiting);
    assert t.barrier.awaiting == {ChannelOf(s.net, s.select.slot)};
  }

  lemma BarrierStepRelease(s: State, body: seq<byte>)
    requires Inv(s) && Enabled(s, ReleaseBarrier(body))
    ensures BarrierOk(Next(s, ReleaseBarrier(body)))
  {
    var t := Next(s, ReleaseBarrier(body));
    assert t.barrier.awaiting == {};
    assert t.barrier.deferred.Keys == {};
  }

  lemma BarrierStepNotify(s: State, w: nat, body: seq<byte>)
    requires Inv(s) && Enabled(s, Notify(w, body))
    requires forall p :: PostOk(s, p) ==> PostOk(Next(s, Notify(w, body)), p)
    ensures BarrierOk(Next(s, Notify(w, body)))
  {
    var t := Next(s, Notify(w, body));
    var task := s.workers[w].task;
    assert WorkerOk(s, s.workers[w]);
    assert t.net == s.net && t.select == s.select;
    if task.channel in s.barrier.awaiting {
      var posted := Posted(s.nextSerial, task.channel, Message(Event, task.id, body));
      assert t.barrier == Defer(s.barrier, task.channel, posted);
      DeferAppends(s.barrier, task.channel, posted);
      assert PostOk(t, posted);
      forall ch, k | ch in t.barrier.deferred && 0 <= k < |t.barrier.deferred[ch]|
        ensures PostOk(t, t.barrier.deferred[ch][k]) && t.barrier.deferred[ch][k].channel == ch
      {
        if ch == task.channel && k == |s.barrier.DeferredFor(ch)| {
          assert t.barrier.deferred[ch][k] == posted;
        } else {
          assert ch in s.barrier.deferred && t.barrier.deferred[ch][k] == s.barrier.deferred[ch][k];
        }
      }
    } else {
      assert t.barrier == s.barrier;
    }
  }

  /** Nothing waits outside a submit, so flushed messages are never put aside again. */
  lemma FlushNeverDefers(s: State)
    requires Inv(s) && Enabled(s, Flush)
    ensures Next(s, Flush) == Land(s, s.select.deferred[s.select.next]).(select := s.select.(next := s.select.next + 1))
  {
    assert s.barrier.awaiting == {};
  }

  lemma BarrierUntouched(s: State, step: Step)
    requires Inv(s) && Enabled(s, step) && !step.MarkWaiting? && !step.ReleaseBarrier? && !step.Notify?
    ensures Next(s, step).barrier == s.barrier
    ensures var t := Next(s, step).select;
            (t.Marked? || t.Created? || t.Enqueued?) == (s.select.Marked? || s.select.Created? || s.select.Enqueued?)
    ensures var t := Next(s, step).select;
            t.Marked? || t.Created? || t.Enqueued? ==> SlotOf(t) == SlotOf(s.select) && !ChangesTenants(step)
  {
    if step.Flush? {
      FlushNeverDefers(s);
    }
  }

  lemma BarrierStep(s: State, step: Step)
    requires Inv(s) && Enabled(s, step)
    ensures BarrierOk(Next(s, step))
  {
    NetStep(s, step);
    StepExtends(s, step);
    StillAddressed(s, Next(s, step));
    if step.MarkWaiting? {
      BarrierStepMark(s);
    } else if step.ReleaseBarrier? {
      BarrierStepRelease(s, step.body);
    } else if step.Notify? {
      BarrierStepNotify(s, step.worker, step.body);
    } else {
      BarrierUntouched(s, step);
    }
  }

  // ---------- Runs ----------

  lemma InvInitial(s: State)
    requires Initial(s)
    ensures Inv(s)
  {
    R.AllFreeValid(|s.net.registry.slots|);
  }

  lemma InvStep(s: State, step: Step)
    requires Inv(s) && Enabled(s, step)
    ensures Inv(Next(s, step))
  {
    NetStep(s, step);
    StepExtends(s, step);
    TasksStep(s, step);
    HandlerStep(s, step);
    BarrierStep(s, step);
  }

  lemma {:induction false} InvRun(s: State, steps: seq<Step>)
    requires Inv(s) && Legal(s, steps)
    ensures Inv(Exec(s, steps))
    decreases |steps|
  {
    if steps != [] {
      InvStep(s, steps[0]);
      InvRun(Next(s, steps[0]), steps[1..]);
    }
  }
}
