/** The submit handler up to its answer: mark, submit, release, in that order. */
module SubmitHandlers {
  import opened AckBarriers

  /** The immediate response: `submission_ack` or "submission queue unavailable". */
  datatype Response = SubmissionAck(id: int) | QueueUnavailable

  /** `submitEnsuringAckFirst`. `submissionId` is what `submitAsync` returned and `raced`
      the messages workers posted to the channel while it ran. All of them come back in
      order behind the response, and the barrier is left as it was found. */
  method SubmitEnsuringAckFirst<M>(barrier: AckBarrier<M>, channel: string, submissionId: int, raced: seq<M>)
    returns (response: Response, deferred: seq<M>)
    requires barrier.View().Valid() && channel !in barrier.awaiting
    modifies barrier
    ensures response == if submissionId > 0 then SubmissionAck(submissionId) else QueueUnavailable
    ensures deferred == raced
    ensures barrier.View() == old(barrier.View())
  {
    ghost var before := barrier.View();
    barrier.MarkWaiting(channel);
    for i := 0 to |raced|
      invariant barrier.View() == DeferAll(Mark(before, channel), channel, raced[..i])
      invariant channel in barrier.awaiting
    {
      HoldAndRelease(before, channel, raced[..i]);
      var kept := barrier.TryDefer(channel, raced[i]);
      assert raced[..i + 1][..i] == raced[..i];
    }
    assert raced[..|raced|] == raced;
    HoldAndRelease(before, channel, raced);
    if submissionId <= 0 {
      response := QueueUnavailable;
      deferred := barrier.ReleaseChannel(channel);
      return;
    }
    response := SubmissionAck(submissionId);
    deferred := barrier.ReleaseChannel(channel);
  }
}
