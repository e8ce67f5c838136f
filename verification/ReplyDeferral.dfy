/** Messages put aside by the barrier: each is appended exactly once, after the reply of
    the submit that held it back, in the order in which they were put aside. */
module ReplyDeferral {
  import opened AckBarriers
  import opened Framing
  import opened ReplyChannels
  import opened ReplyDelivery
  import opened ReplyInvariant
  import opened ReplyProtocol
  import opened Wrappers

  predicate HasFate(fate: map<nat, Fate>, p: Posted, f: Fate) {
    p.serial in fate && fate[p.serial] == f
  }

  /** Every pushed entry is where its message's fate says it is; a fate is one place, so
      no message is appended twice. */
  predicate LogsFated(fate: map<nat, Fate>, net: Net) {
    forall c, i :: 0 <= c < |net.connections| && 0 <= i < |net.connections[c].accepted| ==>
      (net.connections[c].accepted[i].Push? ==> HasFate(fate, net.connections[c].accepted[i].posted, Landed(c, i)))
  }

  predicate BarrierFated(fate: map<nat, Fate>, barrier: Barrier<Posted>, handler: nat) {
    forall ch, k :: ch in barrier.deferred && 0 <= k < |barrier.deferred[ch]| ==>
      HasFate(fate, barrier.deferred[ch][k], Deferred(handler, k))
  }

  predicate WorkersFated(fate: map<nat, Fate>, workers: seq<Worker>) {
    forall w :: 0 <= w < |workers| ==> (workers[w].Carrying? ==> HasFate(fate, workers[w].posted, InFlight(w)))
  }

  predicate StillDeferred(fate: map<nat, Fate>, posts: seq<Posted>, from: nat, handler: nat) {
    forall j :: from <= j < |posts| ==> HasFate(fate, posts[j], Deferred(handler, j))
  }

  /** The first n posts are on connection c, behind the reply and in their order. */
  predicate InOrder(fate: map<nat, Fate>, net: Net, c: nat, replyAt: nat, posts: seq<Posted>, n: nat) {
    && n <= |posts| && c < |net.connections|
    && replyAt < |net.connections[c].accepted| && net.connections[c].accepted[replyAt].Direct?
    && (forall j :: 0 <= j < n ==>
          && posts[j].serial in fate && fate[posts[j].serial].Landed?
          && fate[posts[j].serial].connection == c
          && replyAt < fate[posts[j].serial].position < |net.connections[c].accepted|)
    && (forall i, j :: 0 <= i < j < n ==>
          fate[posts[i].serial].position < fate[posts[j].serial].position)
  }

  predicate SelectFated(s: State) {
    SelectOnLiveSlot(s) && Shape(s.net) &&
    match s.select
    case Replying(slot, _, deferred) => StillDeferred(s.fate, deferred, 0, |s.handled|)
    case Replied(slot, replyAt, deferred) =>
      && StillDeferred(s.fate, deferred, 0, |s.handled|)
      && InOrder(s.fate, s.net, s.net.owner[slot], replyAt, deferred, 0)
    case Flushing(slot, replyAt, deferred, next) =>
      && StillDeferred(s.fate, deferred, next, |s.handled|)
      && InOrder(s.fate, s.net, s.net.owner[slot], replyAt, deferred, next)
    case _ => true
  }

  predicate HandledFated(fate: map<nat, Fate>, net: Net, handled: seq<Handled>) {
    forall h :: 0 <= h < |handled| ==>
      InOrder(fate, net, handled[h].connection, handled[h].replyAt, handled[h].deferred, |handled[h].deferred|)
  }

  /** The list of put-aside messages the running handler still has to append. */
  function Held(s: State): seq<Posted>
    requires SelectOnLiveSlot(s)
  {
    match s.select
    case Marked(slot) => s.barrier.DeferredFor(ChannelOf(s.net, slot))
    case Created(slot, _) => s.barrier.DeferredFor(ChannelOf(s.net, slot))
    case Enqueued(slot, _, _) => s.barrier.DeferredFor(ChannelOf(s.net, slot))
    case Replying(_, _, deferred) => deferred
    case Replied(_, _, deferred) => deferred
    case Flushing(_, _, deferred, _) => deferred
    case _ => []
  }

  function Flushed(select: Select): nat {
    if select.Flushing? then select.next else 0
  }

  /** Nothing put aside is lost: it is in the running handler's list, not yet flushed. */
  predicate NoneLost(fate: map<nat, Fate>, held: seq<Posted>, flushed: nat, handler: nat) {
    forall n :: n in fate && fate[n].Deferred? ==>
      fate[n].handler == handler && flushed <= fate[n].index < |held| && held[fate[n].index].serial == n
  }

  predicate FateInv(s: State) {
    && SelectOnLiveSlot(s)
    && (forall n :: n in s.fate ==> n < s.nextSerial)
    && NoneLost(s.fate, Held(s), Flushed(s.select), |s.handled|)
    && LogsFated(s.fate, s.net)
    && BarrierFated(s.fate, s.barrier, |s.handled|)
    && WorkersFated(s.fate, s.workers)
    && SelectFated(s)
    && HandledFated(s.fate, s.net, s.handled)
  }

  // ---------- Updating one fate ----------

  lemma InOrderStays(a: map<nat, Fate>, b: map<nat, Fate>, m: Net, n: Net, c: nat, at: nat, posts: seq<Posted>, k: nat)
    requires InOrder(a, m, c, at, posts, k) && Grows(m, n)
    requires forall x :: x in a && a[x].Landed? ==> x in b && b[x] == a[x]
    ensures InOrder(b, n, c, at, posts, k)
  {
    assert m.connections[c].accepted <= n.connections[c].accepted;
  }

  /** Landing one more post keeps the order, because it goes to the end of the log. */
  lemma InOrderNext(fate: map<nat, Fate>, m: Net, n: Net, c: nat, at: nat, posts: seq<Posted>, k: nat)
    requires InOrder(fate, m, c, at, posts, k) && k < |posts|
    requires OnlyLogs(m, n, c, Push(posts[k]))
    requires posts[k].serial in fate ==> !fate[posts[k].serial].Landed?
    ensures InOrder(fate[posts[k].serial := Landed(c, |m.connections[c].accepted|)], n, c, at, posts, k + 1)
  {
    var log := m.connections[c].accepted;
    assert n.connections[c].accepted == log + [Push(posts[k])];
  }

  lemma BarrierStays(a: map<nat, Fate>, b: map<nat, Fate>, barrier: Barrier<Posted>, handler: nat)
    requires BarrierFated(a, barrier, handler)
    requires forall x :: x in a && a[x].Deferred? ==> x in b && b[x] == a[x]
    ensures BarrierFated(b, barrier, handler)
  {
  }

  lemma WorkersStay(a: map<nat, Fate>, b: map<nat, Fate>, workers: seq<Worker>)
    requires WorkersFated(a, workers)
    requires forall w :: 0 <= w < |workers| && workers[w].Carrying? && workers[w].posted.serial in a ==>
               workers[w].posted.serial in b && b[workers[w].posted.serial] == a[workers[w].posted.serial]
    ensures WorkersFated(b, workers)
  {
  }

  lemma LogsKeepFates(a: map<nat, Fate>, b: map<nat, Fate>, net: Net)
    requires LogsFated(a, net)
    requires forall x :: x in a && a[x].Landed? ==> x in b && b[x] == a[x]
    ensures LogsFated(b, net)
  {
  }

  lemma BarrierGains(fate: map<nat, Fate>, a: Barrier<Posted>, b: Barrier<Posted>, p: Posted, handler: nat)
    requires BarrierFated(fate, a, handler)
    requires b.deferred == a.deferred[p.channel := a.DeferredFor(p.channel) + [p]]
    requires HasFate(fate, p, Deferred(handler, |a.DeferredFor(p.channel)|))
    ensures BarrierFated(fate, b, handler)
  {
  }

  lemma HeldGains(fate: map<nat, Fate>, held: seq<Posted>, p: Posted, handler: nat)
    requires NoneLost(fate, held, 0, handler) && p.serial !in fate
    ensures NoneLost(fate[p.serial := Deferred(handler, |held|)], held + [p], 0, handler)
  {
  }

  lemma HeldFlushed(fate: map<nat, Fate>, held: seq<Posted>, k: nat, f: Fate, handler: nat)
    requires NoneLost(fate, held, k, handler) && StillDeferred(fate, held, k, handler) && k < |held| && f.Landed?
    ensures NoneLost(fate[held[k].serial := f], held, k + 1, handler)
    ensures StillDeferred(fate[held[k].serial := f], held, k + 1, handler)
  {
    assert HasFate(fate, held[k], Deferred(handler, k));
  }

  // ---------- One step ----------

  lemma HandledStays(s: State, t: State)
    requires HandledFated(s.fate, s.net, s.handled) && Grows(s.net, t.net) && t.handled == s.handled
    requires forall x :: x in s.fate && s.fate[x].Landed? ==> x in t.fate && t.fate[x] == s.fate[x]
    ensures HandledFated(t.fate, t.net, t.handled)
  {
    forall h | 0 <= h < |s.handled|
      ensures InOrder(t.fate, t.net, s.handled[h].connection, s.handled[h].replyAt, s.handled[h].deferred, |s.handled[h].deferred|)
    {
      var r := s.handled[h];
      InOrderStays(s.fate, t.fate, s.net, t.net, r.connection, r.replyAt, r.deferred, |r.deferred|);
    }
  }

  /** The handler's own bookkeeping when another thread moves. */
  lemma SelectStays(s: State, t: State)
    requires SelectFated(s) && SameTenants(s.net, t.net) && Grows(s.net, t.net) && Shape(t.net)
    requires t.select == s.select && |t.handled| == |s.handled|
    requires forall x :: x in s.fate && (s.fate[x].Landed? || s.fate[x].Deferred?) ==> x in t.fate && t.fate[x] == s.fate[x]
    ensures SelectFated(t)
  {
    StaysOnLiveSlot(s, t);
    match s.select
    case Replied(slot, replyAt, deferred) =>
      InOrderStays(s.fate, t.fate, s.net, t.net, s.net.owner[slot], replyAt, deferred, 0);
    case Flushing(slot, replyAt, deferred, next) =>
      InOrderStays(s.fate, t.fate, s.net, t.net, s.net.owner[slot], replyAt, deferred, next);
    case _ =>
  }

  lemma LogsStay(fate: map<nat, Fate>, m: Net, n: Net)
    requires LogsFated(fate, m) && SameLogs(m, n)
    ensures LogsFated(fate, n)
  {
  }

  lemma LogsPlusDirect(fate: map<nat, Fate>, m: Net, n: Net, c: nat, message: Message)
    requires LogsFated(fate, m) && OnlyLogs(m, n, c, Direct(message))
    ensures LogsFated(fate, n)
  {
  }

  lemma LogsPlusPush(fate: map<nat, Fate>, m: Net, n: Net, c: nat, p: Posted)
    requires LogsFated(fate, m) && OnlyLogs(m, n, c, Push(p))
    requires p.serial in fate ==> !fate[p.serial].Landed?
    ensures LogsFated(fate[p.serial := Landed(c, |m.connections[c].accepted|)], n)
  {
  }

  // Notify

  lemma NotifyEffects(s: State, w: nat, body: seq<byte>)
    requires Inv(s) && Enabled(s, Notify(w, body))
    ensures var t := Next(s, Notify(w, body));
            var task := s.workers[w].task;
            var posted := Posted(s.nextSerial, task.channel, Message(Event, task.id, body));
            && t.net == s.net && t.select == s.select && t.handled == s.handled && t.nextSerial == s.nextSerial + 1
            && (if task.channel in s.barrier.awaiting
                then NotifyDeferred(s, t, posted)
                else NotifyCarried(s, t, w, posted))
  {
    DeferAppendsHere(s, w, body);
  }

  predicate NotifyDeferred(s: State, t: State, posted: Posted) {
    var before := s.barrier.DeferredFor(posted.channel);
    && t.workers == s.workers
    && t.fate == s.fate[posted.serial := Deferred(|s.handled|, |before|)]
    && t.barrier.DeferredFor(posted.channel) == before + [posted]
    && t.barrier.deferred == s.barrier.deferred[posted.channel := before + [posted]]
  }

  predicate NotifyCarried(s: State, t: State, w: nat, posted: Posted) {
    && t.barrier == s.barrier && w < |s.workers| && s.workers[w].Holding?
    && t.workers == s.workers[w := Carrying(s.workers[w].task, posted)]
    && t.fate == s.fate[posted.serial := InFlight(w)]
  }

  lemma DeferAppendsHere(s: State, w: nat, body: seq<byte>)
    requires Inv(s) && w < |s.workers| && s.workers[w].Holding?
    ensures var task := s.workers[w].task;
            var posted := Posted(s.nextSerial, task.channel, Message(Event, task.id, body));
            task.channel in s.barrier.awaiting ==>
              Defer(s.barrier, task.channel, posted).DeferredFor(task.channel) == s.barrier.DeferredFor(task.channel) + [posted]
  {
  }

  /** A new message: its serial is fresh, so all recorded fates stand. */
  lemma FateAfterDeferral(s: State, t: State, posted: Posted)
    requires Inv(s) && FateInv(s) && posted.serial == s.nextSerial && posted.channel in s.barrier.awaiting
    requires t.net == s.net && t.select == s.select && t.handled == s.handled && t.nextSerial == s.nextSerial + 1
    requires NotifyDeferred(s, t, posted)
    ensures FateInv(t)
  {
    HandledStays(s, t);
    SelectStays(s, t);
    assert posted.serial !in s.fate;
    LogsKeepFates(s.fate, t.fate, s.net);
    WorkersStay(s.fate, t.fate, s.workers);
    BarrierStays(s.fate, t.fate, s.barrier, |s.handled|);
    BarrierGains(t.fate, s.barrier, t.barrier, posted, |s.handled|);
    assert s.select.Marked? || s.select.Created? || s.select.Enqueued?;
    assert Held(s) == s.barrier.DeferredFor(posted.channel);
    HeldGains(s.fate, Held(s), posted, |s.handled|);
  }

  lemma FateAfterCarry(s: State, t: State, w: nat, posted: Posted)
    requires Inv(s) && FateInv(s) && posted.serial == s.nextSerial
    requires t.net == s.net && t.select == s.select && t.handled == s.handled && t.nextSerial == s.nextSerial + 1
    requires NotifyCarried(s, t, w, posted)
    ensures FateInv(t)
  {
    HandledStays(s, t);
    SelectStays(s, t);
    assert posted.serial !in s.fate;
    LogsKeepFates(s.fate, t.fate, s.net);
    BarrierStays(s.fate, t.fate, s.barrier, |s.handled|);
    WorkersStay(s.fate, t.fate, s.workers);
    assert Held(t) == Held(s);
  }

  lemma FateStepNotify(s: State, w: nat, body: seq<byte>)
    requires Inv(s) && FateInv(s) && Enabled(s, Notify(w, body))
    ensures FateInv(Next(s, Notify(w, body)))
  {
    NotifyEffects(s, w, body);
    var task := s.workers[w].task;
    var posted := Posted(s.nextSerial, task.channel, Message(Event, task.id, body));
    if task.channel in s.barrier.awaiting {
      FateAfterDeferral(s, Next(s, Notify(w, body)), posted);
    } else {
      FateAfterCarry(s, Next(s, Notify(w, body)), w, posted);
    }
  }

  // Flush

  /** The handler's channel always resolves to its own slot. */
  lemma FlushLandsHome(s: State, p: Posted)
    requires Inv(s) && s.select.Flushing? && PostOk(s, p) && p.channel == ChannelOf(s.net, s.select.slot)
    ensures Target(s.net, p.channel) == Some(s.select.slot)
  {
    var slot := s.select.slot;
    var c := s.net.connections[s.origin[p.message.about]];
    TextInjective(ReplyChannel(c.slot, c.session), ReplyChannel(slot, s.net.registry.slots[slot].session));
    TargetIsOrigin(s, p);
  }

  lemma FlushEffects(s: State)
    requires Inv(s) && Enabled(s, Flush)
    ensures var t := Next(s, Flush);
            var p, c := s.select.deferred[s.select.next], s.net.owner[s.select.slot];
            && t.barrier == s.barrier && t.workers == s.workers && t.handled == s.handled && t.nextSerial == s.nextSerial
            && t.select == s.select.(next := s.select.next + 1)
            && t.fate == s.fate[p.serial := Landed(c, |s.net.connections[c].accepted|)]
            && OnlyLogs(s.net, t.net, c, Push(p)) && SameTenants(s.net, t.net) && Grows(s.net, t.net) && Shape(t.net)
  {
    var p := s.select.deferred[s.select.next];
    FlushLandsHome(s, p);
    FlushNeverDefers(s);
    LandLogs(s, p);
    LandKeeps(s, p);
  }

  lemma FateAfterFlush(s: State, t: State, p: Posted, c: nat)
    requires Inv(s) && FateInv(s) && s.select.Flushing? && s.select.next < |s.select.deferred|
    requires p == s.select.deferred[s.select.next] && c == s.net.owner[s.select.slot]
    requires t.barrier == s.barrier && t.workers == s.workers && t.handled == s.handled && t.nextSerial == s.nextSerial
    requires t.select == s.select.(next := s.select.next + 1)
    requires c < |s.net.connections| && t.fate == s.fate[p.serial := Landed(c, |s.net.connections[c].accepted|)]
    requires OnlyLogs(s.net, t.net, c, Push(p)) && SameTenants(s.net, t.net) && Grows(s.net, t.net) && Shape(t.net)
    ensures FateInv(t)
  {
    assert HasFate(s.fate, p, Deferred(|s.handled|, s.select.next));
    LogsPlusPush(s.fate, s.net, t.net, c, p);
    HandledStays(s, t);
    InOrderNext(s.fate, s.net, t.net, c, s.select.replyAt, s.select.deferred, s.select.next);
    StaysOnLiveSlot(s, t);
    WorkersStay(s.fate, t.fate, s.workers);
    HeldFlushed(s.fate, s.select.deferred, s.select.next, t.fate[p.serial], |s.handled|);
    assert s.barrier.deferred.Keys == {};
    assert Held(s) == s.select.deferred && Held(t) == t.select.deferred;
  }

  lemma FateStepFlush(s: State)
    requires Inv(s) && FateInv(s) && Enabled(s, Flush)
    ensures FateInv(Next(s, Flush))
  {
    FlushEffects(s);
    FateAfterFlush(s, Next(s, Flush), s.select.deferred[s.select.next], s.net.owner[s.select.slot]);
  }

  // Deliver

  lemma DeliverEffects(s: State, w: nat)
    requires Inv(s) && Enabled(s, Deliver(w))
    ensures var t := Next(s, Deliver(w));
            var p := s.workers[w].posted;
            && t.barrier == s.barrier && t.handled == s.handled && t.nextSerial == s.nextSerial && t.select == s.select
            && t.workers == s.workers[w := Holding(s.workers[w].task)]
            && t.net == Land(s, p).net && t.fate == Land(s, p).fate
            && SameTenants(s.net, t.net) && Grows(s.net, t.net) && Shape(t.net)
  {
    LandKeeps(s, s.workers[w].posted);
  }

  lemma LandFates(s: State, p: Posted)
    requires NetInv(s.net) && LogsFated(s.fate, s.net) && (p.serial in s.fate ==> !s.fate[p.serial].Landed?)
    ensures LogsFated(Land(s, p).fate, Land(s, p).net)
    ensures p.serial in Land(s, p).fate && !Land(s, p).fate[p.serial].Deferred?
    ensures Land(s, p).fate == s.fate[p.serial := Land(s, p).fate[p.serial]]
  {
    LandLogs(s, p);
    var target := Target(s.net, p.channel);
    if target.Some? {
      LogsPlusPush(s.fate, s.net, Land(s, p).net, s.net.owner[target.value], p);
    }
  }

  lemma FateAfterDeliver(s: State, t: State, w: nat, serial: nat)
    requires Inv(s) && FateInv(s) && w < |s.workers| && s.workers[w].Carrying? && serial == s.workers[w].posted.serial
    requires t.barrier == s.barrier && t.handled == s.handled && t.nextSerial == s.nextSerial && t.select == s.select
    requires t.workers == s.workers[w := Holding(s.workers[w].task)]
    requires SameTenants(s.net, t.net) && Grows(s.net, t.net) && Shape(t.net)
    requires serial in t.fate && !t.fate[serial].Deferred? && t.fate == s.fate[serial := t.fate[serial]]
    requires LogsFated(t.fate, t.net)
    ensures FateInv(t)
  {
    assert HasFate(s.fate, s.workers[w].posted, InFlight(w));
    HandledStays(s, t);
    SelectStays(s, t);
    BarrierStays(s.fate, t.fate, s.barrier, |s.handled|);
    assert Held(t) == Held(s);
  }

  lemma FateStepDeliver(s: State, w: nat)
    requires Inv(s) && FateInv(s) && Enabled(s, Deliver(w))
    ensures FateInv(Next(s, Deliver(w)))
  {
    DeliverEffects(s, w);
    assert HasFate(s.fate, s.workers[w].posted, InFlight(w));
    LandFates(s, s.workers[w].posted);
    FateAfterDeliver(s, Next(s, Deliver(w)), w, s.workers[w].posted.serial);
  }

  // The other steps of the handler

  lemma FateStepReply(s: State)
    requires Inv(s) && FateInv(s) && Enabled(s, QueueReply)
    ensures FateInv(Next(s, QueueReply))
  {
    NetStepOwnSlot(s, QueueReply);
    StepLogs(s, QueueReply);
    FateAfterReply(s, Next(s, QueueReply));
  }

  lemma FateAfterReply(s: State, t: State)
    requires Inv(s) && FateInv(s) && s.select.Replying? && SelectOnLiveSlot(t) && Shape(t.net)
    requires SameTenants(s.net, t.net) && Grows(s.net, t.net) && OnlyLogs(s.net, t.net, s.net.owner[s.select.slot], Direct(s.select.reply))
    requires t.fate == s.fate && t.barrier == s.barrier && t.workers == s.workers && t.handled == s.handled && t.nextSerial == s.nextSerial
    requires t.select == Replied(s.select.slot, |s.net.connections[s.net.owner[s.select.slot]].accepted|, s.select.deferred)
    ensures FateInv(t)
  {
    var slot := s.select.slot;
    var c := s.net.owner[slot];
    LogsPlusDirect(s.fate, s.net, t.net, c, s.select.reply);
    HandledStays(s, t);
  }

  lemma FateStepRelease(s: State, body: seq<byte>)
    requires Inv(s) && FateInv(s) && Enabled(s, ReleaseBarrier(body))
    ensures FateInv(Next(s, ReleaseBarrier(body)))
  {
    var t := Next(s, ReleaseBarrier(body));
    var ch := ChannelOf(s.net, s.select.slot);
    assert t.net == s.net && t.fate == s.fate && t.workers == s.workers && t.handled == s.handled;
    assert t.select.deferred == s.barrier.DeferredFor(ch);
    assert t.barrier.deferred == s.barrier.deferred - {ch};
    assert StillDeferred(t.fate, t.select.deferred, 0, |t.handled|);
  }

  lemma FateStepFinish(s: State)
    requires Inv(s) && FateInv(s) && Enabled(s, FinishFlush)
    ensures FateInv(Next(s, FinishFlush))
  {
    var t := Next(s, FinishFlush);
    assert t.net == s.net && t.fate == s.fate && t.workers == s.workers && t.barrier == s.barrier;
    assert s.barrier.deferred.Keys == {};
    var last := Handled(s.net.owner[s.select.slot], s.select.replyAt, s.select.deferred);
    assert t.handled == s.handled + [last];
    assert InOrder(t.fate, t.net, last.connection, last.replyAt, last.deferred, |last.deferred|);
  }

  predicate Bookkeeping(step: Step) {
    step.Notify? || step.Flush? || step.Deliver? || step.QueueReply? || step.ReleaseBarrier? || step.FinishFlush?
  }

  /** The remaining steps leave fates alone and list nothing new. */
  lemma PlainEffects(s: State, step: Step)
    requires Enabled(s, step) && !Bookkeeping(step)
    ensures var t := Next(s, step);
            && t.fate == s.fate && t.handled == s.handled && t.nextSerial == s.nextSerial
            && t.barrier.deferred == s.barrier.deferred
            && |t.workers| == |s.workers|
            && (forall w :: 0 <= w < |t.workers| && t.workers[w].Carrying? ==> t.workers[w] == s.workers[w])
            && (t.select == s.select || !(t.select.Replying? || t.select.Replied? || t.select.Flushing?)
                || step.Answer? || step.MakeWritable?)
  {
  }

  lemma PlainSelect(s: State, step: Step)
    requires Inv(s) && FateInv(s) && Enabled(s, step) && !Bookkeeping(step) && NetStepOk(s, step)
    ensures SelectFated(Next(s, step))
  {
    PlainEffects(s, step);
    var t := Next(s, step);
    if step.Answer? {
      assert t.select.deferred == [];
    } else if step.MakeWritable? {
      var slot, at, deferred := s.select.slot, s.select.replyAt, s.select.deferred;
      assert t.select == Flushing(slot, at, deferred, 0);
      InOrderStays(s.fate, t.fate, s.net, t.net, s.net.owner[slot], at, deferred, 0);
    } else if t.select.Replying? || t.select.Replied? || t.select.Flushing? {
      assert t.select == s.select && !ChangesTenants(step);
      SelectStays(s, t);
    }
  }

  lemma FateStepPlain(s: State, step: Step)
    requires Inv(s) && FateInv(s) && Enabled(s, step) && !Bookkeeping(step)
    ensures FateInv(Next(s, step))
  {
    NetStep(s, step);
    StepLogs(s, step);
    PlainEffects(s, step);
    PlainSelect(s, step);
    var t := Next(s, step);
    LogsStay(s.fate, s.net, t.net);
    HandledStays(s, t);
    PlainHeld(s, step);
  }

  predicate Lists(select: Select) {
    || select.Marked? || select.Created? || select.Enqueued?
    || select.Replying? || select.Replied? || select.Flushing?
  }

  lemma PlainSubmit(s: State, step: Step)
    requires Inv(s) && Enabled(s, step)
    requires step.MarkWaiting? || step.CreateSubmission? || step.PushTask? || step.Answer? || step.MakeWritable?
    requires SelectOnLiveSlot(Next(s, step))
    ensures Held(Next(s, step)) == Held(s) && Flushed(Next(s, step).select) == Flushed(s.select)
  {
    if step.MarkWaiting? {
      assert s.barrier.awaiting == {};
    }
  }

  lemma PlainElsewhere(s: State, step: Step)
    requires Enabled(s, step) && !Bookkeeping(step) && !ByWorker(step)
    requires !(step.MarkWaiting? || step.CreateSubmission? || step.PushTask? || step.Answer? || step.MakeWritable?)
    ensures !Lists(s.select) && !Lists(Next(s, step).select)
  {
  }

  /** The list of the running handler is passed on unchanged; before its mark and after its
      last flush there is none. */
  lemma PlainHeld(s: State, step: Step)
    requires Inv(s) && Enabled(s, step) && !Bookkeeping(step) && NetStepOk(s, step)
    ensures Held(Next(s, step)) == Held(s) && Flushed(Next(s, step).select) == Flushed(s.select)
  {
    if ByWorker(step) {
      WorkerLeavesHandler(s, step);
      NetStepQuiet(s, step);
    } else if step.MarkWaiting? || step.CreateSubmission? || step.PushTask? || step.Answer? || step.MakeWritable? {
      PlainSubmit(s, step);
    } else {
      PlainElsewhere(s, step);
    }
  }

  lemma FateStep(s: State, step: Step)
    requires Inv(s) && FateInv(s) && Enabled(s, step)
    ensures FateInv(Next(s, step))
  {
    if step.Notify? {
      FateStepNotify(s, step.worker, step.body);
    } else if step.Flush? {
      FateStepFlush(s);
    } else if step.Deliver? {
      FateStepDeliver(s, step.worker);
    } else if step.QueueReply? {
      FateStepReply(s);
    } else if step.ReleaseBarrier? {
      FateStepRelease(s, step.body);
    } else if step.FinishFlush? {
      FateStepFinish(s);
    } else {
      FateStepPlain(s, step);
    }
  }

  lemma {:induction false} FateRun(s: State, steps: seq<Step>)
    requires Inv(s) && FateInv(s) && Legal(s, steps)
    ensures FateInv(Exec(s, steps))
    decreases |steps|
  {
    if steps != [] {
      InvStep(s, steps[0]);
      FateStep(s, steps[0]);
      FateRun(Next(s, steps[0]), steps[1..]);
    }
  }

  /** In every interleaving, for every finished handler: each message put aside between
      mark and release is on the handler's connection, exactly once, after the reply, and
      in the order in which it was put aside; and between handlers nothing is left aside. */
  lemma DeferredExactlyOnceInOrder(s: State, steps: seq<Step>)
    requires Initial(s) && Legal(s, steps)
    ensures var t := Exec(s, steps);
            && HandledFated(t.fate, t.net, t.handled)
            && LogsFated(t.fate, t.net)
            && (t.select.Free? ==> forall n :: n in t.fate ==> !t.fate[n].Deferred?)
  {
    InvInitial(s);
    FateRun(s, steps);
  }
}
