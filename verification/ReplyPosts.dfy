/** Where a worker's message can be, and that it never gets lost on the way: it is carried by
    its worker, put aside, on a connection, or dropped because its connection is closed. */
module ReplyPosts {
  import opened AckBarriers
  import opened Framing
  import opened ReplyBooking
  import opened ReplyChannels
  import opened ReplyDeferral
  import opened ReplyDelivery
  import opened ReplyInvariant
  import opened ReplyProtocol

  // ---------- Places ----------

  predicate InLog(net: Net, p: Posted) {
    exists c, i :: 0 <= c < |net.connections| && 0 <= i < |net.connections[c].accepted| && net.connections[c].accepted[i] == Push(p)
  }

  predicate InBarrier(b: Barrier<Posted>, p: Posted) {
    exists ch :: ch in b.deferred && p in b.deferred[ch]
  }

  predicate WithWorker(workers: seq<Worker>, p: Posted) {
    exists w :: 0 <= w < |workers| && workers[w].Carrying? && workers[w].posted == p
  }

  predicate WithHandler(select: Select, p: Posted) {
    (select.Replying? || select.Replied? || select.Flushing?) && p in select.deferred
  }

  predicate Somewhere(s: State, p: Posted) {
    InLog(s.net, p) || InBarrier(s.barrier, p) || WithWorker(s.workers, p) || WithHandler(s.select, p)
  }

  /** The message a worker's post creates. */
  function NewPost(s: State, w: nat, body: seq<byte>): Posted
    requires w < |s.workers| && s.workers[w].Holding?
  {
    Posted(s.nextSerial, s.workers[w].task.channel, Message(Event, s.workers[w].task.id, body))
  }

  lemma LogBack(s: State, step: Step, p: Posted)
    requires Inv(s) && Enabled(s, step) && InLog(Next(s, step).net, p)
    ensures InLog(s.net, p) || (step.Flush? && p in s.select.deferred) || (step.Deliver? && p == s.workers[step.worker].posted)
  {
    StepLogs(s, step);
    LogOneEntry(s.net, Next(s, step).net, p);
  }

  /** Logs that stay or gain one entry hold nothing else that is new. */
  lemma LogOneEntry(a: Net, b: Net, p: Posted)
    requires InLog(b, p)
    ensures forall c, e :: OnlyLogs(a, b, c, e) ==> InLog(a, p) || e == Push(p)
    ensures SameLogs(a, b) ==> InLog(a, p)
  {
    var c, i :| 0 <= c < |b.connections| && 0 <= i < |b.connections[c].accepted| && b.connections[c].accepted[i] == Push(p);
    if c < |a.connections| && i < |a.connections[c].accepted| && a.connections[c].accepted[i] == Push(p) {
      assert InLog(a, p);
    }
  }

  lemma BarrierBack(s: State, step: Step, p: Posted)
    requires Inv(s) && Enabled(s, step) && InBarrier(Next(s, step).barrier, p)
    ensures InBarrier(s.barrier, p) || (step.Notify? && p == NewPost(s, step.worker, step.body))
  {
    var t := Next(s, step);
    var ch :| ch in t.barrier.deferred && p in t.barrier.deferred[ch];
    if step.Notify? {
      NotifyEffects(s, step.worker, step.body);
    } else {
      BarrierOnlyLoses(s, step);
    }
  }

  lemma BarrierOnlyLoses(s: State, step: Step)
    requires Inv(s) && Enabled(s, step) && !step.Notify?
    ensures forall ch :: ch in Next(s, step).barrier.deferred ==>
              ch in s.barrier.deferred && Next(s, step).barrier.deferred[ch] == s.barrier.deferred[ch]
  {
    if step.Flush? {
      FlushNeverDefers(s);
    }
  }

  lemma WorkerBack(s: State, step: Step, p: Posted)
    requires Inv(s) && Enabled(s, step) && WithWorker(Next(s, step).workers, p)
    ensures WithWorker(s.workers, p) || (step.Notify? && p == NewPost(s, step.worker, step.body))
  {
    var t := Next(s, step);
    var w :| 0 <= w < |t.workers| && t.workers[w].Carrying? && t.workers[w].posted == p;
    WorkersOf(s, step);
    if w < |s.workers| && t.workers[w] == s.workers[w] {
      assert WithWorker(s.workers, p);
    }
  }

  /** What a step does to the workers. */
  lemma WorkersOf(s: State, step: Step)
    requires Enabled(s, step)
    ensures
      var t := Next(s, step);
      match step
      case Pop(w) => t.workers == s.workers[w := Holding(s.queue[0])]
      case Notify(w, body) =>
        t.workers == s.workers || t.workers == s.workers[w := Carrying(s.workers[w].task, NewPost(s, w, body))]
      case Deliver(w) => t.workers == s.workers[w := Holding(s.workers[w].task)]
      case Retire(w) => t.workers == s.workers[w := Waiting]
      case _ => t.workers == s.workers
  {
  }

  lemma HandlerBack(s: State, step: Step, p: Posted)
    requires Inv(s) && Enabled(s, step) && WithHandler(Next(s, step).select, p)
    ensures WithHandler(s.select, p) || InBarrier(s.barrier, p)
  {
    if ByWorker(step) {
      WorkerLeavesHandler(s, step);
    } else if step.Flush? {
      FlushNeverDefers(s);
    } else if step.ReleaseBarrier? {
      var ch := ChannelOf(s.net, s.select.slot);
      assert p in s.barrier.DeferredFor(ch);
    }
  }

  /** Messages come from posts only: wherever one is after a step, it was somewhere before, or
      this step posted it. */
  lemma SomewhereBefore(s: State, step: Step, p: Posted)
    requires Inv(s) && Enabled(s, step) && Somewhere(Next(s, step), p)
    ensures Somewhere(s, p) || (step.Notify? && p == NewPost(s, step.worker, step.body))
  {
    var t := Next(s, step);
    if InLog(t.net, p) {
      LogBack(s, step, p);
      if step.Deliver? && p == s.workers[step.worker].posted {
        assert WithWorker(s.workers, p);
      }
    } else if InBarrier(t.barrier, p) {
      BarrierBack(s, step, p);
    } else if WithWorker(t.workers, p) {
      WorkerBack(s, step, p);
    } else {
      HandlerBack(s, step, p);
    }
  }

  // ---------- Fates ----------

  /** Every message has a fate, and one in flight is with that worker. */
  predicate Tracked(fate: map<nat, Fate>, workers: seq<Worker>, nextSerial: nat) {
    && (forall n :: 0 <= n < nextSerial ==> n in fate)
    && (forall n :: n in fate && fate[n].InFlight? ==> CarriedBy(workers, fate[n].worker, n))
  }

  predicate CarriedBy(workers: seq<Worker>, w: nat, n: nat) {
    w < |workers| && workers[w].Carrying? && workers[w].posted.serial == n
  }

  lemma TrackedStep(s: State, step: Step)
    requires Inv(s) && FateInv(s) && Enabled(s, step) && Tracked(s.fate, s.workers, s.nextSerial)
    ensures Tracked(Next(s, step).fate, Next(s, step).workers, Next(s, step).nextSerial)
  {
    if step.Notify? {
      NotifyTracked(s, step.worker, step.body);
    } else if step.Flush? {
      FlushTracked(s);
    } else if step.Deliver? {
      DeliverTracked(s, step.worker);
    } else {
      PlainTracked(s, step);
    }
  }

  lemma NotifyTracked(s: State, w: nat, body: seq<byte>)
    requires Inv(s) && FateInv(s) && Enabled(s, Notify(w, body)) && Tracked(s.fate, s.workers, s.nextSerial)
    ensures var t := Next(s, Notify(w, body)); Tracked(t.fate, t.workers, t.nextSerial)
  {
    NotifyEffects(s, w, body);
    var t := Next(s, Notify(w, body));
    FateAdded(s.fate, s.workers, t.workers, w, s.nextSerial, t.fate[s.nextSerial]);
  }

  lemma FateAdded(fate: map<nat, Fate>, before: seq<Worker>, after: seq<Worker>, w: nat, n: nat, f: Fate)
    requires Tracked(fate, before, n) && w < |before| && !before[w].Carrying?
    requires |after| == |before| && forall v :: 0 <= v < |before| && v != w ==> after[v] == before[v]
    requires f.InFlight? ==> f.worker == w && CarriedBy(after, w, n)
    ensures Tracked(fate[n := f], after, n + 1)
  {
  }

  lemma FlushTracked(s: State)
    requires Inv(s) && Enabled(s, Flush) && Tracked(s.fate, s.workers, s.nextSerial)
    ensures var t := Next(s, Flush); Tracked(t.fate, t.workers, t.nextSerial)
  {
    FlushEffects(s);
    FateLanded(s.fate, s.workers, s.nextSerial, s.select.deferred[s.select.next].serial, Next(s, Flush).fate);
  }

  lemma FateLanded(fate: map<nat, Fate>, workers: seq<Worker>, nextSerial: nat, n: nat, after: map<nat, Fate>)
    requires Tracked(fate, workers, nextSerial) && n in after && after[n].Landed? && after == fate[n := after[n]]
    ensures Tracked(after, workers, nextSerial)
  {
  }

  lemma PlainTracked(s: State, step: Step)
    requires Enabled(s, step) && Tracked(s.fate, s.workers, s.nextSerial) && !step.Notify? && !step.Flush? && !step.Deliver?
    ensures var t := Next(s, step); Tracked(t.fate, t.workers, t.nextSerial)
  {
    FatesUntouched(s, step);
    SerialsOf(s, step);
    SameCarriers(s, step);
  }

  /** Without a post or a delivery the same workers carry the same messages. */
  lemma SameCarriers(s: State, step: Step)
    requires Enabled(s, step) && !step.Notify? && !step.Deliver?
    ensures forall w, n :: CarriedBy(s.workers, w, n) ==> CarriedBy(Next(s, step).workers, w, n)
  {
    WorkersOf(s, step);
  }

  lemma SerialsOf(s: State, step: Step)
    requires Enabled(s, step)
    ensures Next(s, step).nextSerial == s.nextSerial + if step.Notify? then 1 else 0
  {
  }

  lemma DeliverTracked(s: State, w: nat)
    requires Inv(s) && FateInv(s) && Enabled(s, Deliver(w)) && Tracked(s.fate, s.workers, s.nextSerial)
    ensures var t := Next(s, Deliver(w)); Tracked(t.fate, t.workers, t.nextSerial)
  {
    DeliverLands(s, w);
    WorkersOf(s, Deliver(w));
    SerialsOf(s, Deliver(w));
    OthersTracked(s.fate, Next(s, Deliver(w)).fate, s.workers, Next(s, Deliver(w)).workers, w, s.workers[w].posted.serial, s.nextSerial);
  }

  lemma DeliverLands(s: State, w: nat)
    requires Inv(s) && FateInv(s) && Enabled(s, Deliver(w))
    ensures
      var n, after := s.workers[w].posted.serial, Next(s, Deliver(w)).fate;
      n in after && (after[n].Landed? || after[n].Dropped?) && after == s.fate[n := after[n]]
  {
    DeliverEffects(s, w);
    assert HasFate(s.fate, s.workers[w].posted, InFlight(w));
    LandFates(s, s.workers[w].posted);
    LandIsFinal(s, s.workers[w].posted);
  }

  lemma LandIsFinal(s: State, p: Posted)
    requires Shape(s.net)
    ensures p.serial in Land(s, p).fate && (Land(s, p).fate[p.serial].Landed? || Land(s, p).fate[p.serial].Dropped?)
  {
  }

  lemma OthersTracked(a: map<nat, Fate>, b: map<nat, Fate>, before: seq<Worker>, after: seq<Worker>, w: nat, n: nat, nextSerial: nat)
    requires Tracked(a, before, nextSerial) && w < |before| && before[w].Carrying? && before[w].posted.serial == n
    requires n in b && !b[n].InFlight? && b == a[n := b[n]]
    requires |after| == |before| && forall v :: 0 <= v < |before| && v != w ==> after[v] == before[v]
    ensures Tracked(b, after, nextSerial)
  {
  }

  // ---------- Closed connections ----------

  /** The connection still holds its slot. */
  predicate Open(net: Net, c: nat) {
    && c < |net.connections| && net.connections[c].slot < |net.registry.slots|
    && net.registry.slots[net.connections[c].slot].Live()
    && net.registry.slots[net.connections[c].slot].session == net.connections[c].session
  }

  /** A closed connection stays closed: its session is never handed out again. */
  lemma ClosedStays(s: State, step: Step, c: nat)
    requires Inv(s) && Enabled(s, step) && c < |s.net.connections| && !Open(s.net, c)
    ensures !Open(Next(s, step).net, c)
  {
    NetStep(s, step);
    if step.Accept? {
      assert s.net.connections[c].session < s.net.nextSession;
    }
  }

  /** A message is dropped only when its connection is closed. */
  predicate DroppedOk(s: State, p: Posted) {
    HasFateAt(s, p.serial, Dropped) ==> p.message.about in s.origin && !Open(s.net, s.origin[p.message.about])
  }

  /** A step that drops a message finds its connection closed; a flush never drops. */
  lemma DroppedStep(s: State, step: Step, p: Posted)
    requires Inv(s) && FateInv(s) && Enabled(s, step) && PostOk(s, p) && DroppedOk(s, p)
    requires step.Deliver? && p.serial == s.workers[step.worker].posted.serial ==> p == s.workers[step.worker].posted
    ensures DroppedOk(Next(s, step), p)
  {
    NetStep(s, step);
    StepExtends(s, step);
    var t, c := Next(s, step), s.origin[p.message.about];
    if !Open(s.net, c) {
      ClosedStays(s, step, c);
    } else if step.Notify? {
      NotifyEffects(s, step.worker, step.body);
    } else if step.Flush? {
      FlushEffects(s);
    } else if step.Deliver? {
      DeliverDrops(s, step.worker, p);
    } else {
      FatesUntouched(s, step);
    }
  }

  lemma DeliverDrops(s: State, w: nat, p: Posted)
    requires Inv(s) && FateInv(s) && Enabled(s, Deliver(w)) && PostOk(s, p) && DroppedOk(s, p)
    requires p.serial == s.workers[w].posted.serial ==> p == s.workers[w].posted
    requires Open(s.net, s.origin[p.message.about])
    ensures !HasFateAt(Next(s, Deliver(w)), p.serial, Dropped)
  {
    DeliverEffects(s, w);
    LandFates(s, s.workers[w].posted);
    if p == s.workers[w].posted {
      TargetIsOrigin(s, p);
    }
  }

  // ---------- The book of posts ----------

  /** All messages ever posted, by serial: each is addressed to its submission's connection,
      dropped only if that is closed, and every message anywhere is in the book. */
  ghost predicate Book(s: State, posts: seq<Posted>) {
    && |posts| == s.nextSerial
    && (forall n :: 0 <= n < |posts| ==> posts[n].serial == n && PostOk(s, posts[n]) && DroppedOk(s, posts[n]))
    && (forall p :: Somewhere(s, p) ==> InBook(posts, p))
  }

  predicate InBook(posts: seq<Posted>, p: Posted) {
    p.serial < |posts| && posts[p.serial] == p
  }

  /** The book after a step. */
  function Booking(s: State, step: Step, posts: seq<Posted>): seq<Posted>
    requires Enabled(s, step)
  {
    if step.Notify? then posts + [NewPost(s, step.worker, step.body)] else posts
  }

  lemma BookStep(s: State, step: Step, posts: seq<Posted>)
    requires Inv(s) && FateInv(s) && Enabled(s, step) && Book(s, posts)
    ensures Book(Next(s, step), Booking(s, step, posts))
  {
    var t, after := Next(s, step), Booking(s, step, posts);
    StepExtends(s, step);
    StillAddressed(s, t);
    SerialsOf(s, step);
    forall n | 0 <= n < |after|
      ensures after[n].serial == n && PostOk(t, after[n]) && DroppedOk(t, after[n])
    {
      if n < |posts| {
        OldPost(s, step, posts, n);
      } else {
        FreshPost(s, step.worker, step.body);
      }
    }
    forall p | Somewhere(t, p)
      ensures InBook(after, p)
    {
      SomewhereBefore(s, step, p);
    }
  }

  lemma OldPost(s: State, step: Step, posts: seq<Posted>, n: nat)
    requires Inv(s) && FateInv(s) && Enabled(s, step) && Book(s, posts) && n < |posts|
    ensures DroppedOk(Next(s, step), posts[n])
  {
    if step.Deliver? {
      var p := s.workers[step.worker].posted;
      assert WithWorker(s.workers, p);
      assert Somewhere(s, p) && InBook(posts, p);
    }
    DroppedStep(s, step, posts[n]);
  }

  lemma FreshPost(s: State, w: nat, body: seq<byte>)
    requires Inv(s) && Enabled(s, Notify(w, body))
    ensures var t, p := Next(s, Notify(w, body)), NewPost(s, w, body); PostOk(t, p) && DroppedOk(t, p)
  {
    NotifyEffects(s, w, body);
    StepExtends(s, Notify(w, body));
    StillAddressed(s, Next(s, Notify(w, body)));
    assert WorkerOk(s, s.workers[w]);
  }

  /** Everything the protocol keeps about messages. */
  ghost predicate PostInv(s: State, posts: seq<Posted>) {
    Inv(s) && FateInv(s) && LandedThere(s.fate, s.net) && Tracked(s.fate, s.workers, s.nextSerial) && NoStale(s) && Book(s, posts)
  }

  lemma PostInvInitial(s: State)
    requires Initial(s)
    ensures PostInv(s, [])
  {
    InvInitial(s);
    InitialIsBalanced(s);
    FateRun(s, []);
  }

  lemma PostInvStep(s: State, step: Step, posts: seq<Posted>)
    requires PostInv(s, posts) && Enabled(s, step)
    ensures PostInv(Next(s, step), Booking(s, step, posts))
  {
    InvStep(s, step);
    FateStep(s, step);
    LandedThereStep(s, step);
    TrackedStep(s, step);
    NoStaleStep(s, step);
    BookStep(s, step, posts);
  }

  /** What became of a message: it is with its worker, put aside while a submit is answered, on
      its submission's connection and nowhere else, or its connection is closed. */
  ghost predicate Accounted(s: State, p: Posted)
    requires p.serial in s.fate && p.message.about in s.origin
  {
    var c := s.origin[p.message.about];
    match s.fate[p.serial]
    case InFlight(w) => CarriedBy(s.workers, w, p.serial)
    case Deferred(_, _) => !s.select.Free?
    case Landed(d, i) =>
      && d == c && c < |s.net.connections| && i < |s.net.connections[c].accepted|
      && s.net.connections[c].accepted[i] == Push(p) && NowhereElse(s, p.serial)
    case Dropped => !Open(s.net, c) && NowhereElse(s, p.serial)
  }

  lemma PostAccounted(s: State, posts: seq<Posted>, n: nat)
    requires PostInv(s, posts) && n < |posts|
    ensures posts[n].serial == n && n in s.fate && posts[n].message.about in s.origin && Accounted(s, posts[n])
  {
    var p := posts[n];
    assert PostOk(s, p) && DroppedOk(s, p);
    if s.fate[n].Landed? {
      LandedIsThePost(s, posts, n);
    }
  }

  lemma LandedIsThePost(s: State, posts: seq<Posted>, n: nat)
    requires PostInv(s, posts) && n < |posts| && n in s.fate && s.fate[n].Landed?
    ensures posts[n].serial == n && posts[n].message.about in s.origin && Accounted(s, posts[n])
  {
    var c, i := s.fate[n].connection, s.fate[n].position;
    assert EntryIs(s.net, c, i, n);
    var p := s.net.connections[c].accepted[i].posted;
    assert InLog(s.net, p);
    assert InBook(posts, p);
    assert Home(s, c, s.net.connections[c].accepted[i]);
  }

  lemma {:induction false} PostRun(s: State, steps: seq<Step>, posts: seq<Posted>) returns (all: seq<Posted>)
    requires PostInv(s, posts) && Legal(s, steps)
    ensures PostInv(Exec(s, steps), all) && posts <= all
    decreases |steps|
  {
    all := posts;
    if steps != [] {
      PostInvStep(s, steps[0], posts);
      all := PostRun(Next(s, steps[0]), steps[1..], Booking(s, steps[0], posts));
    }
  }

  /** In every run each message ever posted is accounted for. */
  lemma EveryPostAccounted(s: State, steps: seq<Step>) returns (posts: seq<Posted>)
    requires Initial(s) && Legal(s, steps)
    ensures var t := Exec(s, steps);
            && |posts| == t.nextSerial
            && forall n :: 0 <= n < |posts| ==>
                 posts[n].serial == n && n in t.fate && posts[n].message.about in t.origin && Accounted(t, posts[n])
  {
    PostInvInitial(s);
    posts := PostRun(s, steps, []);
    var t := Exec(s, steps);
    forall n | 0 <= n < |posts|
      ensures posts[n].serial == n && n in t.fate && posts[n].message.about in t.origin && Accounted(t, posts[n])
    {
      PostAccounted(t, posts, n);
    }
  }
}
