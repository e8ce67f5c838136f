/** Two runs the locks allow and the documentation does not: a result that overtakes its
    ack, and bytes left on a connection the loop no longer writes to. Both exist on every
    server with a slot and a worker. */
module ReplyWitnesses {
  import opened Framing
  import opened ReplyAckOrder
  import opened ReplyChannels
  import opened ReplyDelivery
  import opened ReplyInvariant
  import opened ReplyProtocol
  import opened ReplySelectSets
  import opened Slots
  import opened Wrappers

  // ---------- Building runs ----------

  lemma Prepend(s: State, step: Step, rest: seq<Step>)
    requires Enabled(s, step) && Legal(Next(s, step), rest)
    ensures Legal(s, [step] + rest) && Exec(s, [step] + rest) == Exec(Next(s, step), rest)
    ensures EarlyDelivery(s, step) ==> HasEarlyDelivery(s, [step] + rest)
    ensures HasEarlyDelivery(Next(s, step), rest) ==> HasEarlyDelivery(s, [step] + rest)
    ensures LostWakeup(s, step) ==> HasLostWakeup(s, [step] + rest)
    ensures HasLostWakeup(Next(s, step), rest) ==> HasLostWakeup(s, [step] + rest)
  {
    assert ([step] + rest)[1..] == rest;
  }

  lemma Two(s: State, a: Step, b: Step)
    requires Enabled(s, a) && Enabled(Next(s, a), b)
    ensures Legal(s, [a, b]) && Exec(s, [a, b]) == Next(Next(s, a), b)
    ensures EarlyDelivery(Next(s, a), b) ==> HasEarlyDelivery(s, [a, b])
    ensures LostWakeup(Next(s, a), b) ==> HasLostWakeup(s, [a, b])
  {
    Prepend(Next(s, a), b, []);
    assert [b] + [] == [b];
    Prepend(s, a, [b]);
    assert [a] + [b] == [a, b];
  }

  lemma {:induction false} RunsCompose(s: State, first: seq<Step>, second: seq<Step>)
    requires Legal(s, first) && Legal(Exec(s, first), second)
    ensures Legal(s, first + second) && Exec(s, first + second) == Exec(Exec(s, first), second)
    decreases |first|
  {
    if first == [] {
      assert first + second == second;
    } else {
      assert (first + second)[0] == first[0] && (first + second)[1..] == first[1..] + second;
      RunsCompose(Next(s, first[0]), first[1..], second);
    }
  }

  /** A bad step in the second part of a run is a bad step of the run. */
  lemma {:induction false} BadSuffix(s: State, first: seq<Step>, second: seq<Step>)
    requires Legal(s, first) && Legal(Exec(s, first), second)
    ensures Legal(s, first + second)
    ensures HasEarlyDelivery(Exec(s, first), second) ==> HasEarlyDelivery(s, first + second)
    ensures HasLostWakeup(Exec(s, first), second) ==> HasLostWakeup(s, first + second)
    decreases |first|
  {
    RunsCompose(s, first, second);
    if first == [] {
      assert first + second == second;
    } else {
      var rest := first[1..] + second;
      assert first + second == [first[0]] + rest;
      BadSuffix(Next(s, first[0]), first[1..], second);
      RunsCompose(Next(s, first[0]), first[1..], second);
      Prepend(s, first[0], rest);
    }
  }

  // ---------- A submit on the first slot ----------

  const READ_STEPS := [Read(0, Submit), MarkWaiting]
  const PUSH_STEPS := [CreateSubmission, PushTask(true)]
  const SUBMIT_STEPS := [Accept(3)] + (READ_STEPS + PUSH_STEPS)

  lemma ReadRuns(s: State)
    requires Inv(s) && s.select.Free? && LiveSlot(s.net, 0)
    ensures Legal(s, READ_STEPS)
    ensures var t := Exec(s, READ_STEPS);
            && Inv(t) && t.select == Marked(0) && t.workers == s.workers && t.queue == s.queue && t.nextId == s.nextId
            && t.barrier.deferred == s.barrier.deferred
            && t.net.registry.slots[0].pending == s.net.registry.slots[0].pending
  {
    InvStep(s, Read(0, Submit));
    var s1 := Next(s, Read(0, Submit));
    assert s1.net.registry.slots[0] == s.net.registry.slots[0].(status := Idle);
    InvStep(s1, MarkWaiting);
    Two(s, Read(0, Submit), MarkWaiting);
  }

  lemma PushRuns(s: State)
    requires Inv(s) && s.select == Marked(0)
    ensures Legal(s, PUSH_STEPS)
    ensures var t := Exec(s, PUSH_STEPS);
            && Inv(t) && t.select == Enqueued(0, s.nextId, true) && t.workers == s.workers
            && t.queue == s.queue + [Task(s.nextId, ChannelOf(s.net, 0))]
            && t.barrier == s.barrier && t.net == s.net
  {
    InvStep(s, CreateSubmission);
    InvStep(Next(s, CreateSubmission), PushTask(true));
    Two(s, CreateSubmission, PushTask(true));
  }

  lemma AcceptRuns(s: State)
    requires Initial(s) && |s.net.registry.slots| > 0
    ensures Enabled(s, Accept(3))
    ensures var t := Next(s, Accept(3));
            && Inv(t) && t.select.Free? && LiveSlot(t.net, 0) && t.net.registry.slots[0].pending == []
            && t.workers == s.workers && t.queue == [] && t.nextId == 1 && t.barrier.deferred == map[]
  {
    InvInitial(s);
    InvStep(s, Accept(3));
    assert Next(s, Accept(3)).net.registry.slots[0] == Opened(3, 1);
  }

  lemma SubmitRuns(s: State)
    requires Initial(s) && |s.net.registry.slots| > 0
    ensures Legal(s, SUBMIT_STEPS)
    ensures var t := Exec(s, SUBMIT_STEPS);
            && Inv(t) && t.select == Enqueued(0, 1, true) && t.queue == [Task(1, ChannelOf(t.net, 0))]
            && t.workers == s.workers && t.barrier.deferred == map[] && t.net.registry.slots[0].pending == []
  {
    AcceptRuns(s);
    var s1 := Next(s, Accept(3));
    ReadRuns(s1);
    PushRuns(Exec(s1, READ_STEPS));
    RunsCompose(s1, READ_STEPS, PUSH_STEPS);
    Prepend(s, Accept(3), READ_STEPS + PUSH_STEPS);
  }

  // ---------- The ack is overtaken ----------

  /** The select thread is preempted right after the release; the worker is quick. */
  const RELEASE_STEPS := [ReleaseBarrier([]), Pop(0)]
  const OVERTAKE_STEPS := [Notify(0, []), Deliver(0)]

  lemma ReleaseRuns(s: State)
    requires Inv(s) && |s.workers| > 0 && s.workers[0] == Waiting
    requires s.select.Enqueued? && s.select.ok && s.queue != [] && s.queue[0].id == s.select.id
    ensures Legal(s, RELEASE_STEPS)
    ensures var t := Exec(s, RELEASE_STEPS);
            && Inv(t) && AckInHand(t.select, s.select.id)
            && |t.workers| > 0 && t.workers[0] == Holding(s.queue[0])
  {
    InvStep(s, ReleaseBarrier([]));
    InvStep(Next(s, ReleaseBarrier([])), Pop(0));
    Two(s, ReleaseBarrier([]), Pop(0));
  }

  lemma OvertakeRuns(s: State, id: int)
    requires Inv(s) && AckInHand(s.select, id) && |s.workers| > 0 && s.workers[0].Holding? && s.workers[0].task.id == id
    ensures Legal(s, OVERTAKE_STEPS) && HasEarlyDelivery(s, OVERTAKE_STEPS)
  {
    assert s.barrier.awaiting == {};
    var s1 := Next(s, Notify(0, []));
    InvStep(s, Notify(0, []));
    assert s1.workers[0].Carrying? && s1.select == s.select;
    Two(s, Notify(0, []), Deliver(0));
  }

  /** The code as it stands does not keep the promise: this run puts the result of
      submission 1 on the connection before its ack. */
  lemma AckCanBeOvertaken(s: State)
    requires Initial(s) && |s.net.registry.slots| > 0 && |s.workers| > 0
    ensures var steps := SUBMIT_STEPS + (RELEASE_STEPS + OVERTAKE_STEPS);
            Legal(s, steps) && !AckFirst(Exec(s, steps))
  {
    SubmitRuns(s);
    var t := Exec(s, SUBMIT_STEPS);
    ReleaseRuns(t);
    OvertakeRuns(Exec(t, RELEASE_STEPS), 1);
    BadSuffix(t, RELEASE_STEPS, OVERTAKE_STEPS);
    BadSuffix(s, SUBMIT_STEPS, RELEASE_STEPS + OVERTAKE_STEPS);
    AckFirstExactly(s, SUBMIT_STEPS + (RELEASE_STEPS + OVERTAKE_STEPS));
  }

  // ---------- The wakeup is lost ----------

  /** The handler queues the empty ack; the worker takes the task and posts, past the
      barrier; the write handler sends the four bytes of the ack. */
  const REPLY_STEPS := [ReleaseBarrier([]), QueueReply]
  const FLUSH_STEPS := [MakeWritable, FinishFlush]
  const POST_STEPS := [Pop(0), Notify(0, [])]
  const COPY_STEPS := [CopyPending(0), SendBytes(4)]
  const LOSE_STEPS := [Deliver(0), MakeReadable]

  lemma ReplyRuns(s: State)
    requires Inv(s) && s.select.Enqueued? && s.select.slot == 0 && s.barrier.deferred == map[]
    requires s.net.registry.slots[0].pending == []
    ensures Legal(s, REPLY_STEPS)
    ensures var t := Exec(s, REPLY_STEPS);
            && Inv(t) && t.select.Replied? && t.select.slot == 0 && t.select.deferred == []
            && t.queue == s.queue && t.workers == s.workers
            && t.net.registry.slots[0].pending == Frame([]) && t.net.registry.slots[0].offset == 0
            && ChannelOf(t.net, 0) == ChannelOf(s.net, 0)
  {
    InvStep(s, ReleaseBarrier([]));
    var s1 := Next(s, ReleaseBarrier([]));
    assert s1.select.deferred == [] && s1.select.reply.body == [];
    InvStep(s1, QueueReply);
    assert Next(s1, QueueReply).net.registry.slots[0] == Queue(s.net.registry.slots[0], []);
    Two(s, ReleaseBarrier([]), QueueReply);
  }

  lemma FlushRuns(s: State)
    requires Inv(s) && s.select.Replied? && s.select.slot == 0 && s.select.deferred == []
    ensures Legal(s, FLUSH_STEPS)
    ensures var t := Exec(s, FLUSH_STEPS);
            && Inv(t) && t.select.Free? && t.queue == s.queue && t.workers == s.workers && LiveSlot(t.net, 0)
            && t.net.registry.slots[0] == s.net.registry.slots[0].(status := Writable)
  {
    InvStep(s, MakeWritable);
    var s1 := Next(s, MakeWritable);
    assert s1.net.registry.slots[0] == s.net.registry.slots[0].(status := Writable);
    InvStep(s1, FinishFlush);
    Two(s, MakeWritable, FinishFlush);
  }

  lemma PostRuns(s: State)
    requires Inv(s) && s.select.Free? && s.queue != [] && |s.workers| > 0 && s.workers[0] == Waiting
    ensures Legal(s, POST_STEPS)
    ensures var t := Exec(s, POST_STEPS);
            && Inv(t) && t.select.Free? && t.net == s.net && |t.workers| > 0
            && t.workers[0].Carrying? && t.workers[0].posted.channel == s.queue[0].channel
  {
    InvStep(s, Pop(0));
    var s1 := Next(s, Pop(0));
    assert s1.barrier.awaiting == {};
    InvStep(s1, Notify(0, []));
    Two(s, Pop(0), Notify(0, []));
  }

  lemma CopyRuns(s: State)
    requires Inv(s) && s.select.Free? && LiveSlot(s.net, 0) && s.net.registry.slots[0].status == Writable
    requires s.net.registry.slots[0].pending == Frame([]) && s.net.registry.slots[0].offset == 0
    ensures Legal(s, COPY_STEPS)
    ensures var t := Exec(s, COPY_STEPS);
            && Inv(t) && t.select == Sent(0, 4) && t.workers == s.workers
            && t.net.registry == s.net.registry
  {
    InvStep(s, CopyPending(0));
    assert |Next(s, CopyPending(0)).select.data| == 4;
    InvStep(Next(s, CopyPending(0)), SendBytes(4));
    Two(s, CopyPending(0), SendBytes(4));
  }

  lemma ConsumeRuns(s: State)
    requires Inv(s) && s.select == Sent(0, 4)
    requires s.net.registry.slots[0].pending == Frame([]) && s.net.registry.slots[0].offset == 0
    ensures Enabled(s, ConsumeSent)
    ensures var t := Next(s, ConsumeSent);
            Inv(t) && t.select == Drained(0) && t.workers == s.workers && ChannelOf(t.net, 0) == ChannelOf(s.net, 0)
  {
    InvStep(s, ConsumeSent);
    assert Next(s, ConsumeSent).net.registry.slots[0] == Consume(s.net.registry.slots[0], 4);
  }

  lemma LoseRuns(s: State)
    requires Inv(s) && s.select == Drained(0) && |s.workers| > 0 && s.workers[0].Carrying?
    requires s.workers[0].posted.channel == ChannelOf(s.net, 0)
    ensures Legal(s, LOSE_STEPS) && HasLostWakeup(s, LOSE_STEPS)
  {
    var p := s.workers[0].posted;
    ParseText(ReplyChannel(0, s.net.registry.slots[0].session));
    ChannelOfOwner(s.net, 0);
    assert Target(s.net, p.channel) == Some(0);
    LandLogs(s, p);
    InvStep(s, Deliver(0));
    var s1 := Next(s, Deliver(0));
    assert s1.net.registry.slots[0].pending == s.net.registry.slots[0].pending + Frame(p.message.body);
    Two(s, Deliver(0), MakeReadable);
  }

  const UP_TO_POST := SUBMIT_STEPS + (REPLY_STEPS + (FLUSH_STEPS + POST_STEPS))

  lemma PostedRuns(s: State)
    requires Initial(s) && |s.net.registry.slots| > 0 && |s.workers| > 0
    ensures Legal(s, UP_TO_POST)
    ensures var t := Exec(s, UP_TO_POST);
            && Inv(t) && t.select.Free? && LiveSlot(t.net, 0) && t.net.registry.slots[0].status == Writable
            && t.net.registry.slots[0].pending == Frame([]) && t.net.registry.slots[0].offset == 0
            && |t.workers| > 0 && t.workers[0].Carrying? && t.workers[0].posted.channel == ChannelOf(t.net, 0)
  {
    SubmitRuns(s);
    var s1 := Exec(s, SUBMIT_STEPS);
    ReplyRuns(s1);
    var s2 := Exec(s1, REPLY_STEPS);
    FlushRuns(s2);
    var s3 := Exec(s2, FLUSH_STEPS);
    PostRuns(s3);
    RunsCompose(s2, FLUSH_STEPS, POST_STEPS);
    RunsCompose(s1, REPLY_STEPS, FLUSH_STEPS + POST_STEPS);
    RunsCompose(s, SUBMIT_STEPS, REPLY_STEPS + (FLUSH_STEPS + POST_STEPS));
  }

  /** And a wakeup is lost: this run ends with the result queued on a connection that is
      only read from, so the client waits until somebody writes to it again. */
  lemma WakeupCanBeLost(s: State)
    requires Initial(s) && |s.net.registry.slots| > 0 && |s.workers| > 0
    ensures var steps := UP_TO_POST + (COPY_STEPS + ([ConsumeSent] + LOSE_STEPS));
            Legal(s, steps) && !ReadyThroughout(s, steps)
  {
    PostedRuns(s);
    var s1 := Exec(s, UP_TO_POST);
    CopyRuns(s1);
    var s2 := Exec(s1, COPY_STEPS);
    ConsumeRuns(s2);
    LoseRuns(Next(s2, ConsumeSent));
    Prepend(s2, ConsumeSent, LOSE_STEPS);
    BadSuffix(s1, COPY_STEPS, [ConsumeSent] + LOSE_STEPS);
    BadSuffix(s, UP_TO_POST, COPY_STEPS + ([ConsumeSent] + LOSE_STEPS));
    ReadyExactly(s, UP_TO_POST + (COPY_STEPS + ([ConsumeSent] + LOSE_STEPS)));
  }
}
