/** The reply protocol as a step system. One select thread runs the accept, read and write
    handlers; any number of workers pop tasks and post messages. A step is one critical
    section (one locked call) or one system call of one thread, so every interleaving the
    locks allow is a run. Histories kept beside the state: per connection the responses
    accepted and the bytes sent, and per worker message what became of it. */
module ReplyProtocol {
  import opened AckBarriers
  import opened Framing
  import opened ReplyChannels
  import opened Slots
  import opened Wrappers
  import R = Registries

  /** Ack and Refusal answer a submit, Event is a worker's update or final result,
      Snapshot a query that found its submission, Failure every other error reply. */
  datatype Kind = Ack | Refusal | Event | Snapshot | Failure

  /** An encoded response, tagged with what it is and the submission it is about. */
  datatype Message = Message(kind: Kind, about: int, body: seq<byte>)

  /** A message a worker sends to a channel. */
  datatype Posted = Posted(serial: nat, channel: string, message: Message)

  /** A response accepted on a connection: queued by the select thread itself, or posted. */
  datatype Entry = Direct(direct: Message) | Push(posted: Posted) {
    function Msg(): Message {
      match this case Direct(m) => m case Push(p) => p.message
    }
  }

  /** One registered client connection and its history. */
  datatype Connection = Connection(slot: nat, session: nat, accepted: seq<Entry>, sent: seq<byte>) {
    function Channel(): string {
      ReplyChannel(slot, session).Text()
    }
  }

  datatype Net = Net(registry: R.Registry, owner: seq<nat>, connections: seq<Connection>, nextSession: nat)

  datatype Task = Task(id: int, channel: string)

  datatype Worker = Waiting | Holding(task: Task) | Carrying(task: Task, posted: Posted)

  datatype Request = Submit | Ask(id: int) | Garbage

  /** Where the select thread stands. */
  datatype Select =
    | Free
    | Got(slot: nat, request: Request)                             // read_message returned a frame
    | Marked(slot: nat)                                            // barrier marked
    | Created(slot: nat, id: int)                                  // record created
    | Enqueued(slot: nat, id: int, ok: bool)                       // push answered
    | Replying(slot: nat, reply: Message, deferred: seq<Posted>)   // barrier released
    | Replied(slot: nat, replyAt: nat, deferred: seq<Posted>)      // response queued
    | Flushing(slot: nat, replyAt: nat, deferred: seq<Posted>, next: nat)
    | Copied(slot: nat, data: seq<byte>)
    | Sent(slot: nat, count: nat)
    | Drained(slot: nat)                                           // about to set_readable

  /** What became of a worker's message. */
  datatype Fate =
    | Deferred(handler: nat, index: nat)
    | InFlight(worker: nat)
    | Landed(connection: nat, position: nat)
    | Dropped

  /** A finished read handler: where its reply was queued and what it flushed after it. */
  datatype Handled = Handled(connection: nat, replyAt: nat, deferred: seq<Posted>)

  datatype State = State(
    net: Net,
    barrier: Barrier<Posted>,
    select: Select,
    nextId: int,
    origin: map<int, nat>,
    enqueued: set<int>,
    queue: seq<Task>,
    workers: seq<Worker>,
    nextSerial: nat,
    fate: map<nat, Fate>,
    handled: seq<Handled>)

  datatype Step =
    | Accept(fd: int)
    | Hangup(slot: nat)
    | Read(slot: nat, request: Request)
    | MarkWaiting
    | CreateSubmission
    | PushTask(ok: bool)
    | ReleaseBarrier(body: seq<byte>)
    | Answer(reply: Message)
    | QueueReply
    | MakeWritable
    | Flush
    | FinishFlush
    | CopyPending(slot: nat)
    | FindNothing(slot: nat)
    | SendBytes(count: nat)
    | SendBlocked
    | SendFailed
    | ConsumeSent
    | MakeReadable
    | Pop(worker: nat)
    | Notify(worker: nat, body: seq<byte>)
    | Deliver(worker: nat)
    | Retire(worker: nat)

  // ---------- Operations on the network part ----------

  /** Slots refer to connections that exist. Implied by the invariant below. */
  predicate Shape(net: Net) {
    && |net.owner| == |net.registry.slots|
    && (forall id :: 0 <= id < |net.registry.slots| ==>
          net.registry.slots[id].Valid() && (net.registry.slots[id].Live() ==> net.owner[id] < |net.connections|))
    && (forall i :: 0 <= i < |net.registry.free| ==> net.registry.free[i] < |net.registry.slots|)
  }

  predicate LiveSlot(net: Net, id: nat) {
    id < |net.registry.slots| && net.registry.slots[id].Live()
  }

  function WithSlot(net: Net, id: nat, slot: Slot): Net
    requires id < |net.registry.slots|
  {
    net.(registry := net.registry.(slots := net.registry.slots[id := slot]))
  }

  function Record(net: Net, c: nat, entry: Entry): Net
    requires c < |net.connections|
  {
    net.(connections := net.connections[c := net.connections[c].(accepted := net.connections[c].accepted + [entry])])
  }

  function LogSent(net: Net, c: nat, bytes: seq<byte>): Net
    requires c < |net.connections|
  {
    net.(connections := net.connections[c := net.connections[c].(sent := net.connections[c].sent + bytes)])
  }

  /** `register_client_socket`: a full registry still uses up a session id. */
  function Register(net: Net, fd: int): Net
    requires Shape(net)
  {
    if net.registry.free == [] then net.(nextSession := net.nextSession + 1)
    else
      var id := net.registry.free[0];
      Net(R.Acquire(net.registry, fd, net.nextSession),
          net.owner[id := |net.connections|],
          net.connections + [Connection(id, net.nextSession, [], [])],
          net.nextSession + 1)
  }

  function Disconnect(net: Net, id: nat): Net
    requires id < |net.registry.slots|
  {
    net.(registry := R.Release(net.registry, id))
  }

  /** The channel text the submit handler builds for a slot. */
  function ChannelOf(net: Net, id: nat): string
    requires id < |net.registry.slots|
  {
    ReplyChannel(id, net.registry.slots[id].session).Text()
  }

  /** The slot a posted message will be appended to, if any:
      `resolve_reply_channel_for_delivery` and the session check of the slot. */
  function Target(net: Net, channel: string): (r: Option<nat>)
    ensures r.Some? ==> LiveSlot(net, r.value)
  {
    var parsed := Parse(channel);
    if parsed.None? || parsed.value.slot < 0 || parsed.value.slot >= |net.registry.slots| then None
    else if Accepts(net.registry.slots[parsed.value.slot], parsed.value.session) then Some(parsed.value.slot)
    else None
  }

  /** `set_pending_response` by the select thread on its own slot. */
  function QueueDirect(net: Net, id: nat, message: Message): Net
    requires Shape(net) && LiveSlot(net, id)
  {
    Record(WithSlot(net, id, Queue(net.registry.slots[id], message.body)), net.owner[id], Direct(message))
  }

  /** `set_pending_response_if_session` on the slot the channel resolves to. */
  function QueuePosted(net: Net, id: nat, posted: Posted): Net
    requires Shape(net) && LiveSlot(net, id)
  {
    var slot := net.registry.slots[id];
    Record(WithSlot(net, id, QueueIfSession(slot, slot.session, posted.message.body)), net.owner[id], Push(posted))
  }

  /** The second half of `queue_protocol_response_for_channel`. */
  function Land(s: State, posted: Posted): State
    requires Shape(s.net)
  {
    var target := Target(s.net, posted.channel);
    if target.None? then s.(fate := s.fate[posted.serial := Dropped])
    else
      var c := s.net.owner[target.value];
      s.(net := QueuePosted(s.net, target.value, posted),
         fate := s.fate[posted.serial := Landed(c, |s.net.connections[c].accepted|)])
  }

  // ---------- Steps ----------

  function SlotOf(select: Select): Option<nat> {
    match select
    case Free => None
    case _ => Some(select.slot)
  }

  predicate SelectOnLiveSlot(s: State) {
    s.select.Free? || LiveSlot(s.net, s.select.slot)
  }

  /** The kernel hands out descriptors that are not open. */
  predicate FdFree(net: Net, fd: int) {
    forall id :: 0 <= id < |net.registry.slots| ==> net.registry.slots[id].fd != fd
  }

  predicate Enabled(s: State, step: Step) {
    Shape(s.net) && SelectOnLiveSlot(s) &&
    match step
    case Accept(fd) => s.select.Free? && fd > 0 && FdFree(s.net, fd) && s.net.nextSession < UINT64_MAX
    case Hangup(slot) => s.select.Free? && LiveSlot(s.net, slot)
    case Read(slot, _) => s.select.Free? && LiveSlot(s.net, slot)
    case MarkWaiting => s.select.Got? && s.select.request == Submit
    case CreateSubmission => s.select.Marked?
    case PushTask(_) => s.select.Created?
    case ReleaseBarrier(_) => s.select.Enqueued?
    case Answer(reply) =>
      && s.select.Got? && s.select.request != Submit
      && (reply.kind == Failure ||
          (reply.kind == Snapshot && s.select.request == Ask(reply.about) && reply.about in s.origin))
    case QueueReply => s.select.Replying?
    case MakeWritable => s.select.Replied?
    case Flush => s.select.Flushing? && s.select.next < |s.select.deferred|
    case FinishFlush => s.select.Flushing? && s.select.next == |s.select.deferred|
    case CopyPending(slot) =>
      && s.select.Free? && LiveSlot(s.net, slot)
      && s.net.registry.slots[slot].status == Writable && s.net.registry.slots[slot].pending != []
    case FindNothing(slot) =>
      && s.select.Free? && LiveSlot(s.net, slot)
      && s.net.registry.slots[slot].status == Writable && s.net.registry.slots[slot].pending == []
    case SendBytes(count) => s.select.Copied? && count <= |s.select.data|
    case SendBlocked => s.select.Copied?
    case SendFailed => s.select.Copied?
    case ConsumeSent => s.select.Sent?
    case MakeReadable => s.select.Drained?
    case Pop(w) => w < |s.workers| && s.workers[w].Waiting? && s.queue != []
    case Notify(w, _) => w < |s.workers| && s.workers[w].Holding?
    case Deliver(w) => w < |s.workers| && s.workers[w].Carrying?
    case Retire(w) => w < |s.workers| && s.workers[w].Holding?
  }

  function SetStatusOf(net: Net, id: nat, status: Status): Net
    requires id < |net.registry.slots|
  {
    WithSlot(net, id, net.registry.slots[id].(status := status))
  }

  /** The first half of `queue_protocol_response_for_channel` in a worker: either the
      barrier keeps the message, or the worker carries it on to the slot. */
  function PostFrom(s: State, w: nat, body: seq<byte>): State
    requires w < |s.workers| && s.workers[w].Holding?
  {
    var task := s.workers[w].task;
    var posted := Posted(s.nextSerial, task.channel, Message(Event, task.id, body));
    if task.channel in s.barrier.awaiting then
      s.(barrier := Defer(s.barrier, task.channel, posted),
         nextSerial := s.nextSerial + 1,
         fate := s.fate[s.nextSerial := Deferred(|s.handled|, |s.barrier.DeferredFor(task.channel)|)])
    else
      s.(workers := s.workers[w := Carrying(task, posted)],
         nextSerial := s.nextSerial + 1,
         fate := s.fate[s.nextSerial := InFlight(w)])
  }

  function Next(s: State, step: Step): State
    requires Enabled(s, step)
  {
    match step
    case Accept(fd) => s.(net := Register(s.net, fd))
    case Hangup(slot) => s.(net := Disconnect(s.net, slot))
    case Read(slot, request) =>
      s.(net := SetStatusOf(s.net, slot, Idle), select := Got(slot, request))
    case MarkWaiting =>
      var slot := s.select.slot;
      s.(barrier := Mark(s.barrier, ChannelOf(s.net, slot)), select := Marked(slot))
    case CreateSubmission =>
      var slot := s.select.slot;
      s.(nextId := s.nextId + 1, origin := s.origin[s.nextId := s.net.owner[slot]], select := Created(slot, s.nextId))
    case PushTask(ok) =>
      var slot, id := s.select.slot, s.select.id;
      if ok then
        s.(queue := s.queue + [Task(id, ChannelOf(s.net, slot))], enqueued := s.enqueued + {id},
           select := Enqueued(slot, id, true))
      else s.(select := Enqueued(slot, id, false))
    case ReleaseBarrier(body) =>
      var slot := s.select.slot;
      var channel := ChannelOf(s.net, slot);
      var reply := Message(if s.select.ok then Ack else Refusal, s.select.id, body);
      s.(barrier := Release(s.barrier, channel),
         select := Replying(slot, reply, s.barrier.DeferredFor(channel)))
    case Answer(reply) => s.(select := Replying(s.select.slot, reply, []))
    case QueueReply =>
      var slot := s.select.slot;
      var at := |s.net.connections[s.net.owner[slot]].accepted|;
      s.(net := QueueDirect(s.net, slot, s.select.reply), select := Replied(slot, at, s.select.deferred))
    case MakeWritable =>
      var slot := s.select.slot;
      s.(net := SetStatusOf(s.net, slot, Writable),
         select := Flushing(slot, s.select.replyAt, s.select.deferred, 0))
    case Flush =>
      var posted := s.select.deferred[s.select.next];
      var next := s.select.(next := s.select.next + 1);
      if posted.channel in s.barrier.awaiting then
        s.(barrier := Defer(s.barrier, posted.channel, posted), select := next)
      else Land(s, posted).(select := next)
    case FinishFlush =>
      s.(handled := s.handled + [Handled(s.net.owner[s.select.slot], s.select.replyAt, s.select.deferred)],
         select := Free)
    case CopyPending(slot) => s.(select := Copied(slot, s.net.registry.slots[slot].Unsent()))
    case FindNothing(slot) => s.(select := Drained(slot))
    case SendBytes(count) =>
      var slot := s.select.slot;
      s.(net := LogSent(s.net, s.net.owner[slot], s.select.data[..count]), select := Sent(slot, count))
    case SendBlocked => s.(select := Free)
    case SendFailed => s.(net := Disconnect(s.net, s.select.slot), select := Free)
    case ConsumeSent =>
      var slot := s.select.slot;
      var after := Consume(s.net.registry.slots[slot], s.select.count);
      s.(net := WithSlot(s.net, slot, after), select := if after.pending == [] then Drained(slot) else Free)
    case MakeReadable =>
      s.(net := SetStatusOf(s.net, s.select.slot, Readable), select := Free)
    case Pop(w) =>
      s.(queue := s.queue[1..], workers := s.workers[w := Holding(s.queue[0])])
    case Notify(w, body) => PostFrom(s, w, body)
    case Deliver(w) =>
      Land(s, s.workers[w].posted).(workers := s.workers[w := Holding(s.workers[w].task)])
    case Retire(w) => s.(workers := s.workers[w := Waiting])
  }

  predicate Initial(s: State) {
    && |s.net.registry.slots| <= INT32_MAX
    && s.net == Net(R.AllFree(|s.net.registry.slots|), seq(|s.net.registry.slots|, _ => 0), [], 1)
    && s.barrier == Barrier({}, map[])
    && s.select == Free
    && s.nextId == 1 && s.origin == map[] && s.enqueued == {} && s.queue == []
    && (forall w :: 0 <= w < |s.workers| ==> s.workers[w] == Waiting)
    && s.nextSerial == 0 && s.fate == map[] && s.handled == []
  }

  /** Runs: the steps taken in order, each enabled when its turn comes. */
  predicate Legal(s: State, steps: seq<Step>)
    decreases |steps|
  {
    steps == [] || (Enabled(s, steps[0]) && Legal(Next(s, steps[0]), steps[1..]))
  }

  function Exec(s: State, steps: seq<Step>): State
    requires Legal(s, steps)
    decreases |steps|
  {
    if steps == [] then s else Exec(Next(s, steps[0]), steps[1..])
  }
}
