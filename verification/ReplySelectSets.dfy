/** The select loop: which runs leave every live connection in exactly one descriptor set,
    in the write set whenever it has unsent bytes. */
module ReplySelectSets {
  import opened ReplyDelivery
  import opened ReplyInvariant
  import opened ReplyProtocol
  import opened Slots

  /** A read handler between the frame it took and `set_writable`. */
  predicate Busy(select: Select, id: nat) {
    && (select.Got? || select.Marked? || select.Created? || select.Enqueued? || select.Replying? || select.Replied?)
    && select.slot == id
  }

  predicate Ready(slot: Slot) {
    slot.status != Idle && (slot.pending != [] ==> slot.status == Writable)
  }

  /** No connection is idle outside its own handler, and unsent bytes mean writable. */
  predicate AllReady(s: State) {
    forall id :: 0 <= id < |s.net.registry.slots| && s.net.registry.slots[id].Live() && !Busy(s.select, id) ==>
      Ready(s.net.registry.slots[id])
  }

  /** `set_readable` over a slot to which a worker appended after the handler found it empty. */
  predicate LostWakeup(s: State, step: Step) {
    && step.MakeReadable? && s.select.Drained? && s.select.slot < |s.net.registry.slots|
    && s.net.registry.slots[s.select.slot].pending != []
  }

  /** No two live connections share a descriptor. */
  predicate FdsDistinct(net: Net) {
    forall i, j :: 0 <= i < j < |net.registry.slots| && net.registry.slots[i].Live() ==>
      net.registry.slots[i].fd != net.registry.slots[j].fd
  }

  /** Connection `id` is in exactly one of the sets, the write set if and only if it has unsent
      bytes. */
  ghost predicate SetRight(slots: seq<Slot>, id: nat)
    requires id < |slots|
  {
    && R.InSet(slots, Readable, slots[id].fd) != R.InSet(slots, Writable, slots[id].fd)
    && (slots[id].pending != [] <==> R.InSet(slots, Writable, slots[id].fd))
  }

  /** What the loop needs when it rebuilds its sets. */
  ghost predicate SetsRight(net: Net) {
    forall id :: 0 <= id < |net.registry.slots| && net.registry.slots[id].Live() ==> SetRight(net.registry.slots, id)
  }

  lemma OnlyItsOwnSet(slots: seq<Slot>, id: nat, status: Status)
    requires id < |slots| && slots[id].Live()
    requires forall i, j :: 0 <= i < j < |slots| && slots[i].Live() ==> slots[i].fd != slots[j].fd
    ensures R.InSet(slots, status, slots[id].fd) <==> slots[id].status == status
  {
    if slots[id].status == status {
      assert slots[id].Live() && slots[id].fd == slots[id].fd;
    }
  }

  /** A connection that is watched for writing has something to write. */
  predicate Loaded(slot: Slot, draining: bool) {
    slot.Live() && slot.status == Writable && !draining ==> slot.pending != []
  }

  predicate Draining(select: Select, id: nat) {
    select.Drained? && select.slot == id
  }

  /** So it is but for the slot a write handler has just found drained; and a queued reply is
      still there when its handler turns to it. */
  predicate WritersLoaded(s: State) {
    && (forall id :: 0 <= id < |s.net.registry.slots| ==> Loaded(s.net.registry.slots[id], Draining(s.select, id)))
    && (s.select.Replied? && s.select.slot < |s.net.registry.slots| ==> s.net.registry.slots[s.select.slot].pending != [])
  }

  /** The sets are right exactly when every live connection is ready. */
  lemma SetsRightExactly(s: State)
    requires FdsDistinct(s.net) && WritersLoaded(s) && s.select.Free?
    ensures SetsRight(s.net) <==> AllReady(s)
  {
    var slots := s.net.registry.slots;
    forall id | 0 <= id < |slots| && slots[id].Live()
      ensures SetRight(slots, id) <==> Ready(slots[id])
    {
      OnlyItsOwnSet(slots, id, Readable);
      OnlyItsOwnSet(slots, id, Writable);
      assert Loaded(slots[id], Draining(s.select, id));
    }
  }

  // ---------- One step ----------

  /** Which slots a step rewrites. */
  predicate OnlySlot(a: Net, b: Net, id: nat) {
    && |b.registry.slots| == |a.registry.slots| && id < |a.registry.slots|
    && (forall k :: 0 <= k < |a.registry.slots| && k != id ==> b.registry.slots[k] == a.registry.slots[k])
  }

  lemma ReadyTenants(s: State, step: Step)
    requires Inv(s) && AllReady(s) && Enabled(s, step) && ChangesTenants(step)
    ensures AllReady(Next(s, step))
  {
    var t := Next(s, step);
    if step.Accept? {
      if s.net.registry.free != [] {
        var id := s.net.registry.free[0];
        assert t.net.registry.slots == s.net.registry.slots[id := Opened(step.fd, s.net.nextSession)];
      }
    } else {
      var id := if step.Hangup? then step.slot else s.select.slot;
      assert t.net.registry.slots == s.net.registry.slots[id := CLEARED];
    }
  }

  lemma ReadyOwnSlot(s: State, step: Step)
    requires Inv(s) && AllReady(s) && Enabled(s, step)
    requires step.Read? || step.QueueReply? || step.MakeWritable? || step.ConsumeSent? || step.SendBytes?
    ensures AllReady(Next(s, step))
  {
    var t := Next(s, step);
    var id := if step.Read? then step.slot else s.select.slot;
    assert OnlySlot(s.net, t.net, id);
    assert forall k :: k != id ==> !Busy(s.select, k) && !Busy(t.select, k);
    if !Busy(t.select, id) {
      assert Ready(t.net.registry.slots[id]);
    }
  }

  lemma ReadyMakeReadable(s: State)
    requires Inv(s) && AllReady(s) && Enabled(s, MakeReadable)
    ensures AllReady(Next(s, MakeReadable)) <==> !LostWakeup(s, MakeReadable)
  {
    var t := Next(s, MakeReadable);
    var id := s.select.slot;
    assert OnlySlot(s.net, t.net, id);
    assert t.net.registry.slots[id] == s.net.registry.slots[id].(status := Readable);
    assert forall k :: !Busy(s.select, k) && !Busy(t.select, k);
  }

  lemma ReadyLand(s: State, p: Posted, t: State)
    requires Inv(s) && AllReady(s) && t.net == Land(s, p).net
    requires forall k :: Busy(t.select, k) == Busy(s.select, k)
    ensures AllReady(t)
  {
    LandLogs(s, p);
    var target := Target(s.net, p.channel);
    if target.Some? {
      assert OnlySlot(s.net, t.net, target.value);
      assert Ready(t.net.registry.slots[target.value]);
    }
  }

  lemma ReadyQuiet(s: State, step: Step)
    requires Inv(s) && AllReady(s) && Enabled(s, step) && Quiet(step)
    ensures AllReady(Next(s, step))
  {
    NetStepQuiet(s, step);
    QuietKeepsBusy(s, step);
  }

  lemma QuietKeepsBusy(s: State, step: Step)
    requires Enabled(s, step) && Quiet(step)
    ensures forall k :: Busy(Next(s, step).select, k) == Busy(s.select, k)
  {
  }

  lemma ReadyPosted(s: State, step: Step)
    requires Inv(s) && AllReady(s) && Enabled(s, step) && (step.Flush? || step.Deliver?)
    ensures AllReady(Next(s, step))
  {
    var t := Next(s, step);
    if step.Flush? {
      FlushNeverDefers(s);
      ReadyLand(s, s.select.deferred[s.select.next], t);
    } else {
      assert t.net == Land(s, s.workers[step.worker].posted).net && t.select == s.select;
      ReadyLand(s, s.workers[step.worker].posted, t);
    }
  }

  lemma ReadyStep(s: State, step: Step)
    requires Inv(s) && AllReady(s) && Enabled(s, step)
    ensures AllReady(Next(s, step)) <==> !LostWakeup(s, step)
  {
    if step.MakeReadable? {
      ReadyMakeReadable(s);
    } else if ChangesTenants(step) {
      ReadyTenants(s, step);
    } else if step.Flush? || step.Deliver? {
      ReadyPosted(s, step);
    } else if Quiet(step) {
      ReadyQuiet(s, step);
    } else {
      ReadyOwnSlot(s, step);
    }
  }

  // ---------- Runs ----------

  predicate ReadyThroughout(s: State, steps: seq<Step>)
    requires Legal(s, steps)
    decreases |steps|
  {
    AllReady(s) && (steps != [] ==> ReadyThroughout(Next(s, steps[0]), steps[1..]))
  }

  predicate HasLostWakeup(s: State, steps: seq<Step>)
    requires Legal(s, steps)
    decreases |steps|
  {
    steps != [] && (LostWakeup(s, steps[0]) || HasLostWakeup(Next(s, steps[0]), steps[1..]))
  }

  lemma {:induction false} ReadyRun(s: State, steps: seq<Step>)
    requires Inv(s) && AllReady(s) && Legal(s, steps)
    ensures ReadyThroughout(s, steps) <==> !HasLostWakeup(s, steps)
    decreases |steps|
  {
    if steps != [] {
      InvStep(s, steps[0]);
      ReadyStep(s, steps[0]);
      if AllReady(Next(s, steps[0])) {
        ReadyRun(Next(s, steps[0]), steps[1..]);
      }
    }
  }

  /** The exact condition: every point of a run has all its connections in the right set if
      and only if no `set_readable` overwrites the WRITABLE of a worker. */
  lemma ReadyExactly(s: State, steps: seq<Step>)
    requires Initial(s) && Legal(s, steps)
    ensures ReadyThroughout(s, steps) <==> !HasLostWakeup(s, steps)
  {
    InvInitial(s);
    assert forall id :: 0 <= id < |s.net.registry.slots| ==> s.net.registry.slots[id] == CLEARED;
    ReadyRun(s, steps);
  }

  /** Write handlers as atomic steps: nothing comes between the check that found the slot
      drained and `set_readable`. */
  predicate AtomicWrites(s: State, steps: seq<Step>)
    requires Legal(s, steps)
    decreases |steps|
  {
    steps != [] ==>
      && (s.select.Drained? ==> steps[0] == MakeReadable)
      && AtomicWrites(Next(s, steps[0]), steps[1..])
  }

  predicate DrainedIsEmpty(s: State) {
    s.select.Drained? && s.select.slot < |s.net.registry.slots| ==> s.net.registry.slots[s.select.slot].pending == []
  }

  lemma DrainedIsEmptyStep(s: State, step: Step)
    requires Enabled(s, step) && DrainedIsEmpty(s) && (s.select.Drained? ==> step == MakeReadable)
    ensures DrainedIsEmpty(Next(s, step)) && !LostWakeup(s, step)
  {
    if ByWorker(step) {
      WorkerLeavesHandler(s, step);
    } else if step.ConsumeSent? {
      var t := Next(s, step);
      assert t.net.registry.slots[s.select.slot] == Consume(s.net.registry.slots[s.select.slot], s.select.count);
    }
  }

  lemma {:induction false} AtomicWritesLoseNothing(s: State, steps: seq<Step>)
    requires Legal(s, steps) && AtomicWrites(s, steps) && DrainedIsEmpty(s)
    ensures !HasLostWakeup(s, steps)
    decreases |steps|
  {
    if steps != [] {
      DrainedIsEmptyStep(s, steps[0]);
      AtomicWritesLoseNothing(Next(s, steps[0]), steps[1..]);
    }
  }

  /** With atomic write handlers the select-set invariant holds at every point of every run. */
  lemma ReadyWhenAtomic(s: State, steps: seq<Step>)
    requires Initial(s) && Legal(s, steps) && AtomicWrites(s, steps)
    ensures ReadyThroughout(s, steps)
  {
    AtomicWritesLoseNothing(s, steps);
    ReadyExactly(s, steps);
  }

  // ---------- The sets of a run ----------

  lemma FdsStep(s: State, step: Step)
    requires Inv(s) && Enabled(s, step) && FdsDistinct(s.net)
    ensures FdsDistinct(Next(s, step).net)
  {
    NetStep(s, step);
    var a, b := s.net.registry.slots, Next(s, step).net.registry.slots;
    if !ChangesTenants(step) {
      assert forall i :: 0 <= i < |a| ==> b[i].fd == a[i].fd;
    } else {
      TenantFds(s, step);
    }
  }

  lemma TenantFds(s: State, step: Step)
    requires Inv(s) && Enabled(s, step) && FdsDistinct(s.net) && ChangesTenants(step)
    ensures FdsDistinct(Next(s, step).net)
  {
    var slots := s.net.registry.slots;
    match step
    case Accept(fd) =>
      if s.net.registry.free != [] {
        assert Next(s, step).net.registry.slots == slots[s.net.registry.free[0] := Opened(fd, s.net.nextSession)];
      }
    case Hangup(slot) => assert Next(s, step).net.registry.slots == slots[slot := CLEARED];
    case SendFailed => assert Next(s, step).net.registry.slots == slots[s.select.slot := CLEARED];
  }

  /** Whenever the loop rebuilds its sets, between two handlers, they are right. */
  ghost predicate SetsRightThroughout(s: State, steps: seq<Step>)
    requires Legal(s, steps)
    decreases |steps|
  {
    && (s.select.Free? ==> SetsRight(s.net))
    && (steps != [] ==> SetsRightThroughout(Next(s, steps[0]), steps[1..]))
  }

  lemma LoadedTenants(s: State, step: Step)
    requires Inv(s) && WritersLoaded(s) && Enabled(s, step) && ChangesTenants(step)
    ensures WritersLoaded(Next(s, step))
  {
    var t := Next(s, step);
    if step.Accept? {
      if s.net.registry.free != [] {
        assert t.net.registry.slots == s.net.registry.slots[s.net.registry.free[0] := Opened(step.fd, s.net.nextSession)];
      }
    } else {
      var id := if step.Hangup? then step.slot else s.select.slot;
      assert t.net.registry.slots == s.net.registry.slots[id := CLEARED];
    }
  }

  /** The acting handler's own slot. */
  lemma LoadedOwnSlot(s: State, step: Step)
    requires Inv(s) && WritersLoaded(s) && Enabled(s, step) && TouchesOwnSlot(step)
    ensures WritersLoaded(Next(s, step))
  {
    var t := Next(s, step);
    var id := if step.Read? then step.slot else s.select.slot;
    assert OnlySlot(s.net, t.net, id);
    assert Loaded(s.net.registry.slots[id], Draining(s.select, id));
    OwnSlotLoaded(s, step, id);
    assert forall k :: k != id ==> !Draining(s.select, k) && !Draining(t.select, k);
  }

  lemma OwnSlotLoaded(s: State, step: Step, id: nat)
    requires WritersLoaded(s) && Enabled(s, step) && TouchesOwnSlot(step) && id == if step.Read? then step.slot else s.select.slot
    ensures var t := Next(s, step);
            && id < |t.net.registry.slots| && Loaded(t.net.registry.slots[id], Draining(t.select, id))
            && (t.select.Replied? ==> t.select.slot == id && t.net.registry.slots[id].pending != [])
  {
    var slot := s.net.registry.slots[id];
    assert Loaded(slot, Draining(s.select, id));
    match step
    case QueueReply => assert |Queue(slot, s.select.reply.body).pending| >= |slot.pending| + 4;
    case _ =>
  }

  lemma LoadedLand(s: State, p: Posted, t: State)
    requires Inv(s) && WritersLoaded(s) && t.net == Land(s, p).net
    requires forall k: nat :: Draining(t.select, k) == Draining(s.select, k)
    requires t.select.Replied? ==> t.select == s.select
    ensures WritersLoaded(t)
  {
    LandLogs(s, p);
    var target := Target(s.net, p.channel);
    if target.Some? {
      var slot := s.net.registry.slots[target.value];
      assert OnlySlot(s.net, t.net, target.value);
      assert |Queue(slot, p.message.body).pending| >= |slot.pending| + 4;
    }
  }

  lemma LoadedPosted(s: State, step: Step)
    requires Inv(s) && WritersLoaded(s) && Enabled(s, step) && (step.Flush? || step.Deliver?)
    ensures WritersLoaded(Next(s, step))
  {
    var t := Next(s, step);
    if step.Flush? {
      FlushNeverDefers(s);
      LoadedLand(s, s.select.deferred[s.select.next], t);
    } else {
      assert t.net == Land(s, s.workers[step.worker].posted).net && t.select == s.select;
      LoadedLand(s, s.workers[step.worker].posted, t);
    }
  }

  lemma QuietKeepsDraining(s: State, step: Step)
    requires Enabled(s, step) && Quiet(step)
    ensures forall k: nat :: Draining(s.select, k) ==> Draining(Next(s, step).select, k)
    ensures Next(s, step).select.Replied? ==> Next(s, step).select == s.select
  {
  }

  lemma LoadedStep(s: State, step: Step)
    requires Inv(s) && WritersLoaded(s) && Enabled(s, step)
    ensures WritersLoaded(Next(s, step))
  {
    if ChangesTenants(step) {
      LoadedTenants(s, step);
    } else if step.Flush? || step.Deliver? {
      LoadedPosted(s, step);
    } else if Quiet(step) {
      NetStepQuiet(s, step);
      QuietKeepsDraining(s, step);
    } else {
      LoadedOwnSlot(s, step);
    }
  }

  /** A lost wakeup leaves the select thread free and a connection in the wrong set. */
  lemma LostWakeupShows(s: State, step: Step)
    requires Enabled(s, step) && LostWakeup(s, step)
    ensures Next(s, step).select.Free? && !AllReady(Next(s, step))
  {
    var t := Next(s, step);
    assert t.net.registry.slots[s.select.slot].pending != [] && t.net.registry.slots[s.select.slot].status == Readable;
  }

  lemma {:induction false} SetsRun(s: State, steps: seq<Step>)
    requires Inv(s) && AllReady(s) && FdsDistinct(s.net) && WritersLoaded(s) && Legal(s, steps)
    ensures SetsRightThroughout(s, steps) <==> !HasLostWakeup(s, steps)
    decreases |steps|
  {
    if s.select.Free? {
      SetsRightExactly(s);
    }
    if steps != [] {
      var t := Next(s, steps[0]);
      InvStep(s, steps[0]);
      ReadyStep(s, steps[0]);
      FdsStep(s, steps[0]);
      LoadedStep(s, steps[0]);
      if LostWakeup(s, steps[0]) {
        LostWakeupShows(s, steps[0]);
        SetsRightExactly(t);
      } else {
        SetsRun(t, steps[1..]);
      }
    }
  }

  /** Over whole runs: every time the loop rebuilds its sets, each live connection is in exactly
      one of them, the write set just when it has unsent bytes, if and only if no wakeup is
      lost. */
  lemma SetsExactly(s: State, steps: seq<Step>)
    requires Initial(s) && Legal(s, steps)
    ensures SetsRightThroughout(s, steps) <==> !HasLostWakeup(s, steps)
  {
    InvInitial(s);
    assert forall id :: 0 <= id < |s.net.registry.slots| ==> s.net.registry.slots[id] == CLEARED;
    SetsRun(s, steps);
  }

  /** With atomic write handlers the sets are always right. */
  lemma SetsRightWhenAtomic(s: State, steps: seq<Step>)
    requires Initial(s) && Legal(s, steps) && AtomicWrites(s, steps)
    ensures SetsRightThroughout(s, steps)
  {
    AtomicWritesLoseNothing(s, steps);
    SetsExactly(s, steps);
  }
}
