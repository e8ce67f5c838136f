/** Two whole-run results about the bytes of a connection: a worker's message is appended
    only to the connection its submission came from, and what was sent plus what is still
    unsent is exactly the framing of everything accepted, in order. */
module ReplyDelivery {
  import opened Framing
  import opened ReplyChannels
  import opened ReplyInvariant
  import opened ReplyProtocol
  import opened Slots
  import opened Wrappers

  // ---------- No stale delivery ----------

  /** A posted message resolves to the slot of its submission's connection while that
      connection still holds the slot, and to nothing afterwards. */
  lemma TargetIsOrigin(s: State, p: Posted)
    requires NetInv(s.net) && PostOk(s, p)
    ensures var k := s.origin[p.message.about];
            var c := s.net.connections[k];
            var slot := s.net.registry.slots[c.slot];
            && Target(s.net, p.channel) == (if slot.Live() && slot.session == c.session then Some(c.slot) else None)
            && (Target(s.net, p.channel).Some? ==> s.net.owner[c.slot] == k)
  {
    var k := s.origin[p.message.about];
    var c := s.net.connections[k];
    ParseText(ReplyChannel(c.slot, c.session));
  }

  predicate Home(s: State, c: nat, entry: Entry)
    requires c < |s.net.connections|
  {
    entry.Push? ==>
      var p := entry.posted;
      && PostOk(s, p) && s.origin[p.message.about] == c && p.channel == s.net.connections[c].Channel()
  }

  /** Every worker message on a connection is addressed to that very connection. */
  predicate NoStale(s: State) {
    forall c, i :: 0 <= c < |s.net.connections| && 0 <= i < |s.net.connections[c].accepted| ==>
      Home(s, c, s.net.connections[c].accepted[i])
  }

  /** Logs a step leaves alone or extends by one entry. */
  predicate OnlyLogs(a: Net, b: Net, c: nat, entry: Entry) {
    && c < |a.connections| && |b.connections| == |a.connections|
    && b.connections[c].accepted == a.connections[c].accepted + [entry]
    && (forall d :: 0 <= d < |a.connections| && d != c ==> b.connections[d].accepted == a.connections[d].accepted)
  }

  predicate SameLogs(a: Net, b: Net) {
    && |a.connections| <= |b.connections|
    && (forall d :: 0 <= d < |a.connections| ==> b.connections[d].accepted == a.connections[d].accepted)
    && (forall d :: |a.connections| <= d < |b.connections| ==> b.connections[d].accepted == [])
  }

  /** What a step can do to the accepted responses. */
  predicate LogEffect(s: State, step: Step, t: State)
    requires Enabled(s, step)
  {
    match step
    case QueueReply => OnlyLogs(s.net, t.net, s.net.owner[s.select.slot], Direct(s.select.reply))
    case Flush =>
      var p := s.select.deferred[s.select.next];
      var target := Target(s.net, p.channel);
      if target.None? then SameLogs(s.net, t.net) else OnlyLogs(s.net, t.net, s.net.owner[target.value], Push(p))
    case Deliver(w) =>
      var p := s.workers[w].posted;
      var target := Target(s.net, p.channel);
      if target.None? then SameLogs(s.net, t.net) else OnlyLogs(s.net, t.net, s.net.owner[target.value], Push(p))
    case _ => SameLogs(s.net, t.net)
  }

  lemma LandLogs(s: State, p: Posted)
    requires Shape(s.net)
    ensures var t := Land(s, p);
            var target := Target(s.net, p.channel);
            if target.None? then t.net == s.net
            else t.net == QueuePosted(s.net, target.value, p)
                 && OnlyLogs(s.net, t.net, s.net.owner[target.value], Push(p))
  {
  }

  lemma StepLogs(s: State, step: Step)
    requires Inv(s) && Enabled(s, step)
    ensures LogEffect(s, step, Next(s, step))
  {
    match step
    case Flush =>
      FlushNeverDefers(s);
      LandLogs(s, s.select.deferred[s.select.next]);
    case Deliver(w) =>
      LandLogs(s, s.workers[w].posted);
      assert Next(s, step).net == Land(s, s.workers[w].posted).net;
    case _ =>
  }

  lemma NoStaleAfterLog(s: State, t: State, c: nat, entry: Entry)
    requires NoStale(s) && OnlyLogs(s.net, t.net, c, entry) && OriginOk(s) && Extends(s, t)
    requires entry.Push? ==> PostOk(s, entry.posted) && s.origin[entry.posted.message.about] == c
    ensures NoStale(t)
  {
    StillAddressed(s, t);
  }

  lemma NoStaleAfterQuiet(s: State, t: State)
    requires NoStale(s) && SameLogs(s.net, t.net) && OriginOk(s) && Extends(s, t)
    ensures NoStale(t)
  {
    StillAddressed(s, t);
  }

  lemma NoStaleStep(s: State, step: Step)
    requires Inv(s) && NoStale(s) && Enabled(s, step)
    ensures NoStale(Next(s, step))
  {
    StepExtends(s, step);
    StepLogs(s, step);
    var t := Next(s, step);
    if step.QueueReply? {
      NoStaleAfterLog(s, t, s.net.owner[s.select.slot], Direct(s.select.reply));
    } else if step.Flush? || step.Deliver? {
      var p := if step.Flush? then s.select.deferred[s.select.next] else s.workers[step.worker].posted;
      TargetIsOrigin(s, p);
      if Target(s.net, p.channel).Some? {
        NoStaleAfterLog(s, t, s.origin[p.message.about], Push(p));
      } else {
        NoStaleAfterQuiet(s, t);
      }
    } else {
      NoStaleAfterQuiet(s, t);
    }
  }

  lemma {:induction false} NoStaleRun(s: State, steps: seq<Step>)
    requires Inv(s) && NoStale(s) && Legal(s, steps)
    ensures Inv(Exec(s, steps)) && NoStale(Exec(s, steps))
    decreases |steps|
  {
    if steps != [] {
      InvStep(s, steps[0]);
      NoStaleStep(s, steps[0]);
      NoStaleRun(Next(s, steps[0]), steps[1..]);
    }
  }

  /** In every run, a worker's message lands only on the connection registered for its
      channel, which is the one its submission came from; no two connections share a
      session, so a reused slot never receives an old submission's message. */
  lemma NoStaleDelivery(s: State, steps: seq<Step>)
    requires Initial(s) && Legal(s, steps)
    ensures var t := Exec(s, steps);
            && NoStale(t)
            && (forall c, d :: 0 <= c < d < |t.net.connections| ==>
                  t.net.connections[c].session != t.net.connections[d].session)
  {
    InitialIsBalanced(s);
    NoStaleRun(s, steps);
  }

  // ---------- Outbound conservation ----------

  function Bodies(entries: seq<Entry>): seq<seq<byte>> {
    seq(|entries|, i requires 0 <= i < |entries| => entries[i].Msg().body)
  }

  /** The bytes a connection should receive: the frames of its accepted responses. */
  function Stream(c: Connection): seq<byte> {
    FrameAll(Bodies(c.accepted))
  }

  /** Bytes already handed to the kernel but not yet consumed from the slot. */
  function InTransit(select: Select, id: nat): nat {
    if select.Sent? && select.slot == id then select.count else 0
  }

  predicate Balanced(c: Connection, slot: Slot, n: nat) {
    slot.Valid() && n <= |slot.Unsent()| && c.sent + slot.Unsent()[n..] == Stream(c)
  }

  predicate Conserved(s: State) {
    && Shape(s.net)
    && (forall id :: 0 <= id < |s.net.registry.slots| && s.net.registry.slots[id].Live() ==>
          Balanced(s.net.connections[s.net.owner[id]], s.net.registry.slots[id], InTransit(s.select, id)))
    && (forall c :: 0 <= c < |s.net.connections| ==> s.net.connections[c].sent <= Stream(s.net.connections[c]))
    && CopyIsCurrent(s)
  }

  /** The copy a write handler works on is still the front of the unsent bytes. */
  predicate CopyIsCurrent(s: State)
    requires Shape(s.net)
  {
    s.select.Copied? ==>
      && LiveSlot(s.net, s.select.slot)
      && s.select.data <= s.net.registry.slots[s.select.slot].Unsent()
  }

  lemma StreamOfAppend(c: Connection, entry: Entry)
    ensures Stream(c.(accepted := c.accepted + [entry])) == Stream(c) + Frame(entry.Msg().body)
  {
    assert Bodies(c.accepted + [entry]) == Bodies(c.accepted) + [entry.Msg().body];
    FrameAllSnoc(Bodies(c.accepted), entry.Msg().body);
  }

  /** Queueing a response and logging it keeps the balance, also between send and consume. */
  lemma BalancedQueue(c: Connection, slot: Slot, n: nat, entry: Entry, status: Status)
    requires Balanced(c, slot, n)
    ensures Balanced(c.(accepted := c.accepted + [entry]), Queue(slot, entry.Msg().body).(status := status), n)
  {
    StreamOfAppend(c, entry);
    QueueAppends(slot, entry.Msg().body);
    var frame := Frame(entry.Msg().body);
    assert (slot.Unsent() + frame)[n..] == slot.Unsent()[n..] + frame;
    assert c.sent + (slot.Unsent()[n..] + frame) == Stream(c) + frame;
  }

  lemma BalancedSend(c: Connection, slot: Slot, count: nat)
    requires Balanced(c, slot, 0) && count <= |slot.Unsent()|
    ensures Balanced(c.(sent := c.sent + slot.Unsent()[..count]), slot, count)
  {
    var u := slot.Unsent();
    assert u == u[..count] + u[count..];
    assert c.sent + u[..count] + u[count..] == c.sent + u;
    assert Stream(c.(sent := c.sent + u[..count])) == Stream(c);
  }

  lemma BalancedConsume(c: Connection, slot: Slot, count: nat)
    requires Balanced(c, slot, count)
    ensures Balanced(c, Consume(slot, count), 0)
  {
    ConsumeDrops(slot, count);
    var u := Consume(slot, count).Unsent();
    assert u[0..] == u;
  }

  /** Connections on other slots are not affected by a step on one slot. */
  lemma OtherOwners(net: Net, id: nat, other: nat)
    requires NetInv(net) && LiveSlot(net, id) && LiveSlot(net, other) && id != other
    ensures net.owner[id] != net.owner[other]
  {
  }

  lemma ConservedQueue(s: State, id: nat, entry: Entry, status: Status, t: State)
    requires NetInv(s.net) && Conserved(s) && LiveSlot(s.net, id)
    requires t.net == Record(WithSlot(s.net, id, Queue(s.net.registry.slots[id], entry.Msg().body).(status := status)),
                             s.net.owner[id], entry)
    requires t.select == s.select || (s.select.Replying? && t.select.Replied?) || (s.select.Flushing? && t.select.Flushing?)
    ensures Conserved(t)
  {
    var c := s.net.owner[id];
    var slot := s.net.registry.slots[id];
    BalancedQueue(s.net.connections[c], slot, InTransit(s.select, id), entry, status);
    StreamOfAppend(s.net.connections[c], entry);
    QueueAppends(slot, entry.Msg().body);
    forall k: nat | LiveSlot(s.net, k) && k != id
      ensures s.net.owner[k] != c
    {
      OtherOwners(s.net, id, k);
    }
  }

  /** Steps that change a status or the handler's place, not the bytes. */
  lemma ConservedSameBytes(s: State, t: State)
    requires Conserved(s) && SameTenants(s.net, t.net) && t.net.connections == s.net.connections && Shape(t.net)
    requires forall id :: 0 <= id < |s.net.registry.slots| ==>
               && t.net.registry.slots[id].pending == s.net.registry.slots[id].pending
               && t.net.registry.slots[id].offset == s.net.registry.slots[id].offset
    requires forall id :: InTransit(t.select, id) == InTransit(s.select, id)
    requires CopyIsCurrent(t)
    ensures Conserved(t)
  {
  }

  lemma ConservedAccept(s: State, fd: int)
    requires NetInv(s.net) && Conserved(s) && Enabled(s, Accept(fd))
    ensures Conserved(Next(s, Accept(fd)))
  {
    var t := Next(s, Accept(fd));
    if s.net.registry.free != [] {
      var id := s.net.registry.free[0];
      assert t.net.connections == s.net.connections + [Connection(id, s.net.nextSession, [], [])];
      assert t.net.registry.slots == s.net.registry.slots[id := Opened(fd, s.net.nextSession)];
      assert Stream(Connection(id, s.net.nextSession, [], [])) == [];
      assert forall k :: 0 <= k < |s.net.registry.slots| && k != id ==> t.net.owner[k] == s.net.owner[k];
    }
  }

  lemma ConservedDisconnect(s: State, id: nat, t: State)
    requires Conserved(s) && LiveSlot(s.net, id) && t.net == Disconnect(s.net, id)
    requires t.select == Free && !s.select.Sent?
    ensures Conserved(t)
  {
    assert t.net.registry.slots == s.net.registry.slots[id := CLEARED];
  }

  lemma ConservedSend(s: State, count: nat)
    requires NetInv(s.net) && Conserved(s) && Enabled(s, SendBytes(count))
    ensures Conserved(Next(s, SendBytes(count)))
  {
    var id := s.select.slot;
    var c := s.net.owner[id];
    var slot := s.net.registry.slots[id];
    var t := Next(s, SendBytes(count));
    assert s.select.data[..count] == slot.Unsent()[..count];
    BalancedSend(s.net.connections[c], slot, count);
    forall k: nat | LiveSlot(s.net, k) && k != id
      ensures s.net.owner[k] != c
    {
      OtherOwners(s.net, id, k);
    }
    assert t.net.registry == s.net.registry && t.net.owner == s.net.owner;
  }

  lemma ConservedConsume(s: State)
    requires NetInv(s.net) && Conserved(s) && Enabled(s, ConsumeSent)
    ensures Conserved(Next(s, ConsumeSent))
  {
    var id := s.select.slot;
    BalancedConsume(s.net.connections[s.net.owner[id]], s.net.registry.slots[id], s.select.count);
    var t := Next(s, ConsumeSent);
    assert t.net.connections == s.net.connections && t.net.owner == s.net.owner;
    assert forall k :: 0 <= k < |s.net.registry.slots| && k != id ==> t.net.registry.slots[k] == s.net.registry.slots[k];
  }

  lemma ConservedLand(s: State, p: Posted, t: State)
    requires NetInv(s.net) && Conserved(s) && t.net == Land(s, p).net
    requires t.select == s.select || (s.select.Flushing? && t.select.Flushing?)
    ensures Conserved(t)
  {
    LandLogs(s, p);
    var target := Target(s.net, p.channel);
    if target.Some? {
      ConservedQueue(s, target.value, Push(p), Writable, t);
    }
  }

  predicate MovesBytes(step: Step) {
    || step.Accept? || step.Hangup? || step.SendFailed? || step.QueueReply? || step.Flush? || step.Deliver?
    || step.SendBytes? || step.ConsumeSent?
  }

  /** The write handler, and the other steps that leave every slot as it is. */
  lemma ConservedStepQuiet(s: State, step: Step)
    requires Inv(s) && Conserved(s) && Enabled(s, step) && !MovesBytes(step) && Quiet(step)
    ensures Conserved(Next(s, step))
  {
    NetStepQuiet(s, step);
    var t := Next(s, step);
    assert !t.select.Sent? || t.select == s.select;
    assert !s.select.Sent? || t.select == s.select;
    assert CopyIsCurrent(t);
    ConservedSameBytes(s, t);
  }

  lemma ConservedStepStatus(s: State, step: Step)
    requires Inv(s) && Conserved(s) && Enabled(s, step) && !MovesBytes(step) && !Quiet(step)
    ensures Conserved(Next(s, step))
  {
    NetStepOwnSlot(s, step);
    var t := Next(s, step);
    assert !t.select.Sent? && !s.select.Sent? && !t.select.Copied?;
    ConservedSameBytes(s, t);
  }

  lemma ConservedReply(s: State)
    requires Inv(s) && Conserved(s) && Enabled(s, QueueReply)
    ensures Conserved(Next(s, QueueReply))
  {
    var slot := s.net.registry.slots[s.select.slot];
    var t := Next(s, QueueReply);
    assert Queue(slot, s.select.reply.body).(status := slot.status) == Queue(slot, s.select.reply.body);
    assert t.net == QueueDirect(s.net, s.select.slot, s.select.reply);
    ConservedQueue(s, s.select.slot, Direct(s.select.reply), slot.status, t);
  }

  lemma ConservedFlush(s: State)
    requires Inv(s) && Conserved(s) && Enabled(s, Flush)
    ensures Conserved(Next(s, Flush))
  {
    FlushNeverDefers(s);
    ConservedLand(s, s.select.deferred[s.select.next], Next(s, Flush));
  }

  lemma ConservedDeliver(s: State, w: nat)
    requires Inv(s) && Conserved(s) && Enabled(s, Deliver(w))
    ensures Conserved(Next(s, Deliver(w)))
  {
    var t := Next(s, Deliver(w));
    assert t.net == Land(s, s.workers[w].posted).net && t.select == s.select;
    ConservedLand(s, s.workers[w].posted, t);
  }

  lemma ConservedStep(s: State, step: Step)
    requires Inv(s) && Conserved(s) && Enabled(s, step)
    ensures Conserved(Next(s, step))
  {
    if step.Accept? {
      ConservedAccept(s, step.fd);
    } else if step.Hangup? {
      ConservedDisconnect(s, step.slot, Next(s, step));
    } else if step.SendFailed? {
      ConservedDisconnect(s, s.select.slot, Next(s, step));
    } else if step.QueueReply? {
      ConservedReply(s);
    } else if step.Flush? {
      ConservedFlush(s);
    } else if step.Deliver? {
      ConservedDeliver(s, step.worker);
    } else if step.SendBytes? {
      ConservedSend(s, step.count);
    } else if step.ConsumeSent? {
      ConservedConsume(s);
    } else if Quiet(step) {
      ConservedStepQuiet(s, step);
    } else {
      ConservedStepStatus(s, step);
    }
  }

  lemma {:induction false} ConservedRun(s: State, steps: seq<Step>)
    requires Inv(s) && Conserved(s) && Legal(s, steps)
    ensures Conserved(Exec(s, steps))
    decreases |steps|
  {
    if steps != [] {
      InvStep(s, steps[0]);
      ConservedStep(s, steps[0]);
      ConservedRun(Next(s, steps[0]), steps[1..]);
    }
  }

  /** After every run, whatever the interleaving: the bytes sent on a live connection,
      followed by its unsent bytes, are the frames of the responses accepted for it in
      order, and the bytes sent on a closed one are the front of them. */
  lemma OutboundConservation(s: State, steps: seq<Step>)
    requires Initial(s) && Legal(s, steps)
    ensures Conserved(Exec(s, steps))
  {
    InitialIsBalanced(s);
    ConservedRun(s, steps);
  }

  /** So a client that reads what was sent decodes the first responses and nothing else. */
  lemma ClientDecodes(s: State, c: nat)
    requires Conserved(s) && c < |s.net.connections|
    requires Framable(Bodies(s.net.connections[c].accepted))
    ensures Drain(s.net.connections[c].sent).messages <= Bodies(s.net.connections[c].accepted)
  {
    var connection := s.net.connections[c];
    var rest := Stream(connection)[|connection.sent|..];
    assert connection.sent + rest == Stream(connection);
    DrainPrefix(connection.sent, rest, Bodies(connection.accepted));
  }

  lemma InitialIsBalanced(s: State)
    requires Initial(s)
    ensures Inv(s) && NoStale(s) && Conserved(s)
  {
    InvInitial(s);
    assert forall id :: 0 <= id < |s.net.registry.slots| ==> s.net.registry.slots[id] == CLEARED;
  }

  // ---------- The write handler ----------

  /** What a write handler does when the kernel takes `n` bytes of what it copied. */
  function WriteHandler(slot: nat, n: nat): seq<Step> {
    [CopyPending(slot), SendBytes(n), ConsumeSent]
  }

  lemma CopyEffect(s: State, slot: nat)
    requires Enabled(s, CopyPending(slot))
    ensures var t := Next(s, CopyPending(slot));
            t.net == s.net && t.select == Copied(slot, s.net.registry.slots[slot].Unsent())
  {
  }

  lemma SendEffect(s: State, n: nat)
    requires NetInv(s.net) && Enabled(s, SendBytes(n))
    ensures var t, c := Next(s, SendBytes(n)), s.net.owner[s.select.slot];
            && Enabled(t, ConsumeSent) && c < |s.net.connections| == |t.net.connections|
            && t.net.connections[c].sent == s.net.connections[c].sent + s.select.data[..n]
            && t.select == Sent(s.select.slot, n) && t.net.registry == s.net.registry
  {
    NetStepOwnSlot(s, SendBytes(n));
  }

  lemma ConsumeEffect(s: State)
    requires Enabled(s, ConsumeSent) && s.select.count <= |s.net.registry.slots[s.select.slot].Unsent()|
    ensures var t, slot := Next(s, ConsumeSent), s.select.slot;
            && t.net.connections == s.net.connections
            && t.select == if s.select.count == |s.net.registry.slots[slot].Unsent()| then Drained(slot) else Free
  {
    ConsumeDrops(s.net.registry.slots[s.select.slot], s.select.count);
  }

  lemma FrontOf(sent: seq<byte>, unsent: seq<byte>, n: nat)
    requires n <= |unsent|
    ensures sent + unsent[..n] == (sent + unsent)[..|sent| + n]
    ensures n == |unsent| <==> sent + unsent[..n] == sent + unsent
  {
    if sent + unsent[..n] == sent + unsent {
      assert |sent + unsent[..n]| == |sent| + n;
    }
    assert unsent[..|unsent|] == unsent;
  }

  /** A write handler that is not disturbed may send up to everything its connection has
      unsent, and sends the next bytes of the connection's stream; when the kernel takes all of
      them the whole stream is out and nothing is left to send. */
  lemma WriteHandlerSends(s: State, slot: nat, n: nat)
    requires Inv(s) && Conserved(s) && Enabled(s, CopyPending(slot)) && n <= |s.net.registry.slots[slot].Unsent()|
    ensures Legal(s, WriteHandler(slot, n))
    ensures var t, c := Exec(s, WriteHandler(slot, n)), s.net.owner[slot];
            && c < |s.net.connections| == |t.net.connections|
            && |s.net.connections[c].sent| + n <= |Stream(s.net.connections[c])|
            && t.net.connections[c].sent == Stream(s.net.connections[c])[..|s.net.connections[c].sent| + n]
            && (n == |s.net.registry.slots[slot].Unsent()| <==> t.net.connections[c].sent == Stream(s.net.connections[c]))
            && (n == |s.net.registry.slots[slot].Unsent()| <==> t.select == Drained(slot))
  {
    var c, unsent := s.net.owner[slot], s.net.registry.slots[slot].Unsent();
    assert Balanced(s.net.connections[c], s.net.registry.slots[slot], 0);
    FrontOf(s.net.connections[c].sent, unsent, n);
    CopyEffect(s, slot);
    SendEffect(Next(s, CopyPending(slot)), n);
    ConsumeEffect(Next(Next(s, CopyPending(slot)), SendBytes(n)));
    HandlerRuns(s, slot, n);
  }

  lemma HandlerRuns(s: State, slot: nat, n: nat)
    requires Enabled(s, CopyPending(slot)) && Enabled(Next(s, CopyPending(slot)), SendBytes(n))
    requires Enabled(Next(Next(s, CopyPending(slot)), SendBytes(n)), ConsumeSent)
    ensures Legal(s, WriteHandler(slot, n))
    ensures Exec(s, WriteHandler(slot, n)) == Next(Next(Next(s, CopyPending(slot)), SendBytes(n)), ConsumeSent)
  {
    var steps := WriteHandler(slot, n);
    var a := Next(s, steps[0]);
    var b := Next(a, steps[1]);
    assert steps[1..][0] == steps[1] && steps[1..][1..] == steps[2..] && steps[2..][0] == steps[2] && steps[2..][1..] == [];
    assert Legal(Next(b, steps[2]), []);
    assert Legal(b, steps[2..]) && Exec(b, steps[2..]) == Next(b, steps[2]);
    assert Legal(a, steps[1..]);
  }
}
