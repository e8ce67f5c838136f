/** One client connection: descriptor, session, select status, input buffer and the
    framed bytes waiting to be sent. */
module Slots {
  import opened Buffers
  import opened Framing
  import opened Wrappers

  datatype Status = Readable | Writable | Idle

  /** The part of a slot behind its mutex. Every operation below is one critical section. */
  datatype Slot = Slot(fd: int, session: nat, status: Status, pending: seq<byte>, offset: nat) {
    predicate Live() {
      fd != 0
    }

    /** An offset inside the pending bytes, reset whenever everything is sent. */
    predicate Valid() {
      if pending == [] then offset == 0 else offset < |pending|
    }

    function Unsent(): seq<byte>
      requires Valid()
    {
      pending[offset..]
    }
  }

  const CLEARED := Slot(0, 0, Readable, [], 0)

  function Opened(fd: int, session: nat): Slot {
    Slot(fd, session, Readable, [], 0)
  }

  /** `queue_response_locked`. */
  function Queue(slot: Slot, response: seq<byte>): Slot {
    slot.(pending := slot.pending + Frame(response))
  }

  predicate Accepts(slot: Slot, session: nat) {
    slot.session == session && slot.Live()
  }

  /** `set_pending_response_if_session`. */
  function QueueIfSession(slot: Slot, session: nat, response: seq<byte>): Slot {
    if Accepts(slot, session) then Queue(slot, response).(status := Writable) else slot
  }

  /** `consume_pending_response`; the slot is drained when nothing is left. */
  function Consume(slot: Slot, bytes: nat): Slot {
    if slot.offset + bytes >= |slot.pending|
    then slot.(pending := [], offset := 0)
    else slot.(offset := slot.offset + bytes)
  }

  /** Appending a response appends its frame to the unsent bytes. */
  lemma QueueAppends(slot: Slot, response: seq<byte>)
    requires slot.Valid()
    ensures Queue(slot, response).Valid()
    ensures Queue(slot, response).Unsent() == slot.Unsent() + Frame(response)
  {
  }

  /** Consuming what was sent drops exactly that much, even if responses were appended
      between the copy and the call. */
  lemma ConsumeDrops(slot: Slot, bytes: nat)
    requires slot.Valid() && bytes <= |slot.Unsent()|
    ensures Consume(slot, bytes).Valid()
    ensures Consume(slot, bytes).Unsent() == slot.Unsent()[bytes..]
    ensures Consume(slot, bytes).pending == [] <==> bytes == |slot.Unsent()|
  {
  }

  class ConnectionSlot {
    var fd: int
    var session: nat
    var status: Status
    const input: Buffer
    var pending: seq<byte>
    var offset: nat

    ghost predicate Valid()
      reads this, input
    {
      input.Valid() && View().Valid()
    }

    ghost function View(): Slot
      reads this
    {
      Slot(fd, session, status, pending, offset)
    }

    constructor ()
      ensures Valid() && fresh(input) && fresh(input.store)
      ensures View() == CLEARED && input.Content() == []
    {
      fd, session, status, pending, offset := 0, 0, Readable, [], 0;
      input := new Buffer(INITIAL_SIZE);
    }

    method Init(newFd: int, newSession: nat)
      requires Valid()
      modifies this, input`reader, input`writer
      ensures Valid() && View() == Opened(newFd, newSession) && input.Content() == []
    {
      fd := newFd;
      session := newSession;
      status := Readable;
      input.RetrieveAll();
      pending := [];
      offset := 0;
    }

    /** Returns the descriptor it closed, if there was one. */
    method Clear() returns (closed: Option<int>)
      requires Valid()
      modifies this, input`reader, input`writer
      ensures Valid() && View() == CLEARED && input.Content() == []
      ensures closed == (if old(View()).Live() then Some(old(fd)) else None)
    {
      closed := None;
      if fd != 0 {
        closed := Some(fd);
      }
      fd := 0;
      session := 0;
      status := Readable;
      input.RetrieveAll();
      pending := [];
      offset := 0;
    }

    method SetStatus(next: Status)
      requires Valid()
      modifies this`status
      ensures Valid() && View() == old(View()).(status := next)
    {
      status := next;
    }

    /** The framing half of `read_message`: takes the first frame if it is whole. */
    method TakeFrame() returns (body: Option<seq<byte>>)
      requires Valid()
      modifies input`reader, input`writer
      ensures Valid()
      ensures Receive(old(input.Content()), []) == Receipt(input.Content(), body)
    {
      ghost var all := input.Content();
      ReceiveNow(all);
      if input.ReadableBytes() < HEADER {
        return None;
      }
      var header := input.store[input.reader..input.reader + HEADER];
      assert header == all[..HEADER];
      var length := HostOrder(header);
      if input.ReadableBytes() < HEADER + length {
        return None;
      }
      input.Retrieve(HEADER);
      ghost var rest := input.Content();
      assert rest == all[HEADER..];
      var text := input.RetrieveAsString(length);
      assert text == rest[..length] && input.Content() == rest[length..];
      assert text == all[HEADER..HEADER + length] && input.Content() == all[HEADER + length..];
      body := Some(text);
    }

    /** `read_message`. At most one frame is taken, and only after a read that delivered
        bytes; any failed read, "try again" included, reports -1. */
    method ReadMessage(outcome: ReadOutcome) returns (totRead: int, body: Option<seq<byte>>)
      requires Valid()
      requires outcome.Got? ==> |outcome.bytes| <= input.ReadCapacity()
      modifies this`status, input, input.store
      ensures Valid() && (input.store == old(input.store) || fresh(input.store))
      ensures totRead == if outcome.Got? then |outcome.bytes| else -1
      ensures View() == if body.Some? then old(View()).(status := Idle) else old(View())
      ensures outcome.Failed? || outcome.bytes == [] ==>
                body == None && input.Content() == old(input.Content())
      ensures outcome.Got? && outcome.bytes != [] ==>
                Receive(old(input.Content()), outcome.bytes) == Receipt(input.Content(), body)
    {
      body := None;
      var n, savedErrno := input.ReadFd(outcome);
      totRead := n;
      if n < 0 {
        return;
      }
      if n == 0 {
        return;
      }
      ReceiveAppended(old(input.Content()), outcome.bytes);
      body := TakeFrame();
      if body.Some? {
        SetStatus(Idle);
      }
    }

    method SetPendingResponse(response: seq<byte>)
      requires Valid()
      modifies this`pending
      ensures Valid() && View() == Queue(old(View()), response)
    {
      pending := pending + NetworkOrder(|response| % UINT32_MODULUS);
      pending := pending + response;
      assert pending == old(pending) + Frame(response);
    }

    method SetPendingResponseIfSession(expected: nat, response: seq<byte>) returns (accepted: bool)
      requires Valid()
      modifies this`pending, this`status
      ensures Valid() && View() == QueueIfSession(old(View()), expected, response)
      ensures accepted == Accepts(old(View()), expected)
    {
      if session != expected || fd == 0 {
        return false;
      }
      SetPendingResponse(response);
      status := Writable;
      return true;
    }

    method CopyPendingResponse() returns (data: seq<byte>)
      requires Valid()
      ensures data == View().Unsent()
    {
      data := pending[offset..];
    }

    method ConsumePendingResponse(bytes: nat) returns (drained: bool)
      requires Valid()
      modifies this`pending, this`offset
      ensures Valid() && View() == Consume(old(View()), bytes)
      ensures drained == (pending == [])
    {
      offset := offset + bytes;
      if offset >= |pending| {
        pending := [];
        offset := 0;
        return true;
      }
      return false;
    }
  }
}
