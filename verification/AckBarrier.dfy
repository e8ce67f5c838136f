/** The ack barrier: while a channel awaits its ack, messages for it are put aside. */
module AckBarriers {

  /** The barrier's fields; M stands for an encoded protocol message. */
  datatype Barrier<M> = Barrier(awaiting: set<string>, deferred: map<string, seq<M>>) {
    function DeferredFor(channel: string): seq<M> {
      if channel in deferred then deferred[channel] else []
    }

    /** Messages are only ever put aside for channels that still await their ack. */
    predicate Valid() {
      deferred.Keys <= awaiting
    }
  }

  function Mark<M>(b: Barrier<M>, channel: string): Barrier<M> {
    b.(awaiting := b.awaiting + {channel})
  }

  function Release<M>(b: Barrier<M>, channel: string): Barrier<M> {
    Barrier(b.awaiting - {channel}, b.deferred - {channel})
  }

  function Defer<M>(b: Barrier<M>, channel: string, message: M): Barrier<M> {
    if channel !in b.awaiting then b
    else b.(deferred := b.deferred[channel := b.DeferredFor(channel) + [message]])
  }

  /** Puts a list of messages aside, one call each. */
  function DeferAll<M>(b: Barrier<M>, channel: string, messages: seq<M>): Barrier<M> {
    if messages == [] then b
    else Defer(DeferAll(b, channel, messages[..|messages| - 1]), channel, messages[|messages| - 1])
  }

  /** What one deferral does to a waiting channel, and what it does not touch. */
  lemma DeferAppends<M>(b: Barrier<M>, channel: string, message: M)
    requires b.Valid() && channel in b.awaiting
    ensures var next := Defer(b, channel, message);
            && next.Valid()
            && next.awaiting == b.awaiting
            && next.DeferredFor(channel) == b.DeferredFor(channel) + [message]
            && next.deferred - {channel} == b.deferred - {channel}
  {
  }

  /** Between mark and release the barrier is a queue: it keeps every message in order
      and hands all of them over, after which the channel is as if it had never waited. */
  lemma {:induction false} HoldAndRelease<M>(b: Barrier<M>, channel: string, messages: seq<M>)
    requires b.Valid() && channel !in b.awaiting
    ensures var held := DeferAll(Mark(b, channel), channel, messages);
            && held.Valid()
            && held.awaiting == b.awaiting + {channel}
            && held.DeferredFor(channel) == messages
            && held.deferred - {channel} == b.deferred
            && Release(held, channel) == b
  {
    var marked := Mark(b, channel);
    assert marked.awaiting - {channel} == b.awaiting;
    if messages == [] {
      assert b.deferred - {channel} == b.deferred;
    } else {
      var front, last := messages[..|messages| - 1], messages[|messages| - 1];
      HoldAndRelease(b, channel, front);
      DeferAppends(DeferAll(marked, channel, front), channel, last);
      assert messages == front + [last];
    }
  }

  class AckBarrier<M> {
    var awaiting: set<string>
    var deferred: map<string, seq<M>>

    ghost function View(): Barrier<M>
      reads this
    {
      Barrier(awaiting, deferred)
    }

    constructor ()
      ensures View() == Barrier({}, map[])
    {
      awaiting, deferred := {}, map[];
    }

    method MarkWaiting(channel: string)
      modifies this
      ensures View() == Mark(old(View()), channel)
    {
      awaiting := awaiting + {channel};
    }

    method ReleaseChannel(channel: string) returns (messages: seq<M>)
      modifies this
      ensures View() == Release(old(View()), channel)
      ensures messages == old(View()).DeferredFor(channel)
    {
      messages := [];
      awaiting := awaiting - {channel};
      if channel in deferred {
        messages := deferred[channel];
        deferred := deferred - {channel};
      } else {
        assert deferred - {channel} == deferred;
      }
    }

    method TryDefer(channel: string, message: M) returns (kept: bool)
      modifies this
      ensures View() == Defer(old(View()), channel, message)
      ensures kept == (channel in old(awaiting))
    {
      if channel !in awaiting {
        return false;
      }
      var before := if channel in deferred then deferred[channel] else [];
      deferred := deferred[channel := before + [message]];
      return true;
    }
  }
}
