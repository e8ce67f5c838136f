/** Which connections are open, and that a slot comes back when one closes. */
module ReplyConnections {
  import opened ReplyInvariant
  import opened ReplyPosts
  import opened ReplyProtocol
  import opened Slots
  import R = Registries

  /** The connections that have been accepted and not closed since, counted from the steps
      alone: an accept while as many are open as there are slots is refused. */
  function OpenAfter(s: State, steps: seq<Step>, open: set<nat>): set<nat>
    requires Legal(s, steps)
    decreases |steps|
  {
    if steps == [] then open
    else OpenAfter(Next(s, steps[0]), steps[1..], OpenNext(s, steps[0], open))
  }

  function OpenNext(s: State, step: Step, open: set<nat>): set<nat>
    requires Enabled(s, step)
  {
    match step
    case Accept(_) => if |open| < |s.net.registry.slots| then open + {|s.net.connections|} else open
    case Hangup(slot) => open - {s.net.owner[slot]}
    case SendFailed => open - {s.net.owner[s.select.slot]}
    case _ => open
  }

  /** The set is the open connections, and the free slots make up the rest. */
  ghost predicate Counted(s: State, open: set<nat>) {
    && (forall c: nat :: c in open <==> Open(s.net, c))
    && |open| + |s.net.registry.free| == |s.net.registry.slots|
  }

  lemma OwnerIsOpen(net: Net, id: nat)
    requires NetInv(net) && LiveSlot(net, id)
    ensures Open(net, net.owner[id]) && net.connections[net.owner[id]].slot == id
  {
  }

  /** Two connections are never open on one slot. */
  lemma OpenIsOwner(net: Net, c: nat)
    requires NetInv(net) && Open(net, c)
    ensures net.owner[net.connections[c].slot] == c
  {
    var d := net.owner[net.connections[c].slot];
    assert net.connections[d].session == net.connections[c].session;
  }

  // ---------- Closing ----------

  /** A hangup or a failed send closes the slot's connection, and no other, and gives the slot
      back: cleared, and at the end of the free queue. */
  lemma ClosingFrees(s: State, step: Step, slot: nat)
    requires Inv(s) && Enabled(s, step)
    requires step == Hangup(slot) || (step == SendFailed && slot == s.select.slot)
    ensures var t, c := Next(s, step), s.net.owner[slot];
            && t.net.registry.slots[slot] == Slot(0, 0, Readable, [], 0)
            && t.net.registry.free == s.net.registry.free + [slot]
            && |t.net.registry.slots| == |s.net.registry.slots|
            && !Open(t.net, c) && (forall d: nat :: d != c ==> (Open(t.net, d) <==> Open(s.net, d)))
  {
    var t, c := Next(s, step), s.net.owner[slot];
    assert t.net.connections == s.net.connections;
    assert t.net.registry.slots == s.net.registry.slots[slot := CLEARED];
    forall d: nat | d != c
      ensures Open(t.net, d) <==> Open(s.net, d)
    {
      if Open(s.net, d) {
        OpenIsOwner(s.net, d);
      }
    }
  }

  // ---------- Accepting ----------

  /** An accept takes the first free slot for a new, open connection with a session of its own
      and nothing to send; without a free slot it changes no connection and no slot. */
  lemma AcceptOpens(s: State, fd: int)
    requires Inv(s) && Enabled(s, Accept(fd))
    ensures var t, c := Next(s, Accept(fd)), |s.net.connections|;
            if s.net.registry.free == [] then t.net.connections == s.net.connections && t.net.registry == s.net.registry
            else
              && |t.net.registry.slots| == |s.net.registry.slots|
              && |t.net.connections| == c + 1 && Open(t.net, c) && t.net.connections[c].slot == s.net.registry.free[0]
              && t.net.registry.slots[s.net.registry.free[0]] == Slot(fd, s.net.nextSession, Readable, [], 0)
              && t.net.registry.free == s.net.registry.free[1..]
              && (forall d: nat :: d != c ==> (Open(t.net, d) <==> Open(s.net, d)))
  {
    var t, c := Next(s, Accept(fd)), |s.net.connections|;
    if s.net.registry.free != [] {
      var id := s.net.registry.free[0];
      assert id in s.net.registry.free;
      assert forall d: nat :: d < c ==> t.net.connections[d] == s.net.connections[d];
      forall d: nat | d != c
        ensures Open(t.net, d) <==> Open(s.net, d)
      {
        if d < c {
          assert s.net.connections[d].session < s.net.nextSession;
        }
      }
    }
  }

  // ---------- Runs ----------

  lemma OpenElsewhere(s: State, step: Step)
    requires Inv(s) && Enabled(s, step) && !ChangesTenants(step)
    ensures var t := Next(s, step);
            && t.net.registry.free == s.net.registry.free && |t.net.registry.slots| == |s.net.registry.slots|
            && forall c: nat :: Open(t.net, c) <==> Open(s.net, c)
  {
    NetStep(s, step);
  }

  lemma CountedClose(s: State, t: State, open: set<nat>, c: nat)
    requires Counted(s, open) && Open(s.net, c) && !Open(t.net, c)
    requires forall d: nat :: d != c ==> (Open(t.net, d) <==> Open(s.net, d))
    requires |t.net.registry.free| == |s.net.registry.free| + 1 && |t.net.registry.slots| == |s.net.registry.slots|
    ensures Counted(t, open - {c})
  {
    assert c in open;
  }

  lemma CountedOpen(s: State, t: State, open: set<nat>, c: nat)
    requires Counted(s, open) && !Open(s.net, c) && Open(t.net, c)
    requires forall d: nat :: d != c ==> (Open(t.net, d) <==> Open(s.net, d))
    requires |t.net.registry.free| == |s.net.registry.free| - 1 && |t.net.registry.slots| == |s.net.registry.slots|
    ensures Counted(t, open + {c})
  {
    assert c !in open;
  }

  lemma CountedAccept(s: State, fd: int, open: set<nat>)
    requires Inv(s) && Enabled(s, Accept(fd)) && Counted(s, open)
    ensures Counted(Next(s, Accept(fd)), OpenNext(s, Accept(fd), open))
    ensures |Next(s, Accept(fd)).net.registry.slots| == |s.net.registry.slots|
  {
    AcceptOpens(s, fd);
    if s.net.registry.free != [] {
      CountedOpen(s, Next(s, Accept(fd)), open, |s.net.connections|);
    }
  }

  lemma CountedClosing(s: State, step: Step, slot: nat, open: set<nat>)
    requires Inv(s) && Enabled(s, step) && Counted(s, open)
    requires step == Hangup(slot) || (step == SendFailed && slot == s.select.slot)
    ensures Counted(Next(s, step), OpenNext(s, step, open))
    ensures |Next(s, step).net.registry.slots| == |s.net.registry.slots|
  {
    OwnerIsOpen(s.net, slot);
    ClosingFrees(s, step, slot);
    CountedClose(s, Next(s, step), open, s.net.owner[slot]);
  }

  lemma CountedStep(s: State, step: Step, open: set<nat>)
    requires Inv(s) && Enabled(s, step) && Counted(s, open)
    ensures Counted(Next(s, step), OpenNext(s, step, open))
    ensures |Next(s, step).net.registry.slots| == |s.net.registry.slots|
  {
    if step.Accept? {
      CountedAccept(s, step.fd, open);
    } else if step.Hangup? {
      CountedClosing(s, step, step.slot, open);
    } else if step.SendFailed? {
      CountedClosing(s, step, s.select.slot, open);
    } else {
      OpenElsewhere(s, step);
    }
  }

  lemma {:induction false} CountedRun(s: State, steps: seq<Step>, open: set<nat>)
    requires Inv(s) && Counted(s, open) && Legal(s, steps)
    ensures Counted(Exec(s, steps), OpenAfter(s, steps, open))
    ensures |Exec(s, steps).net.registry.slots| == |s.net.registry.slots|
    decreases |steps|
  {
    if steps != [] {
      InvStep(s, steps[0]);
      CountedStep(s, steps[0], open);
      CountedRun(Next(s, steps[0]), steps[1..], OpenNext(s, steps[0], open));
    }
  }

  lemma CountedInitial(s: State)
    requires Initial(s)
    ensures Inv(s) && Counted(s, {})
  {
    InvInitial(s);
  }

  /** In every run a connection is open exactly when it was accepted and neither hung up nor
      failed to be sent to since. */
  lemma OpenExactly(s: State, steps: seq<Step>, c: nat)
    requires Initial(s) && Legal(s, steps)
    ensures Open(Exec(s, steps).net, c) <==> c in OpenAfter(s, steps, {})
  {
    CountedInitial(s);
    CountedRun(s, steps, {});
  }

  /** A client is refused exactly when as many connections are open as there are slots. */
  lemma RefusedExactly(s: State, steps: seq<Step>, fd: int)
    requires Initial(s) && Legal(s, steps) && Enabled(Exec(s, steps), Accept(fd))
    ensures var t := Exec(s, steps);
            Next(t, Accept(fd)).net.connections == t.net.connections <==> |OpenAfter(s, steps, {})| == |s.net.registry.slots|
  {
    CountedInitial(s);
    InvRun(s, steps);
    CountedRun(s, steps, {});
    AcceptOpens(Exec(s, steps), fd);
  }
}
