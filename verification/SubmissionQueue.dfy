/** The blocking queue between the network thread and the judge workers. */
module SubmissionQueues {
  import opened Wrappers
  import opened Submissions
  import opened ResultCleanup
  import opened ResultStores
  import opened JudgeTraces

  /** A task, with what the runner will do for its request. */
  datatype Task = Task(id: int, script: Script)

  class SubmissionQueue {
    var queue: seq<Task>
    var closed: bool

    constructor ()
      ensures queue == [] && !closed
    {
      queue, closed := [], false;
    }

    method Push(task: Task) returns (ok: bool)
      modifies this
      ensures ok == !old(closed) && closed == old(closed)
      ensures queue == if ok then old(queue) + [task] else old(queue)
    {
      if closed {
        return false;
      }
      queue := queue + [task];
      ok := true;
    }

    /** The condition the caller waits for is a precondition. A closed queue is drained
        before it reports its end. */
    method Pop() returns (task: Option<Task>)
      requires closed || queue != []
      modifies this
      ensures closed == old(closed)
      ensures match task { case Some(head) => old(queue) == [head] + queue case None => old(closed) && old(queue) == [] == queue }
    {
      if queue == [] {
        return None;
      }
      task := Some(queue[0]);
      queue := queue[1..];
    }

    method Shutdown()
      modifies this
      ensures closed && queue == old(queue)
    {
      closed := true;
    }
  }

  /** `submitAsync`: the record is created first, so a refused push leaves it behind. */
  method SubmitAsync(store: ResultStore, queue: SubmissionQueue, script: Script, now: int, stamp: int, cfg: Config) returns (id: int)
    requires store.Valid()
    modifies store, queue
    ensures store.Valid() && queue.closed == old(queue.closed)
    ensures old(store.nextId) in store.results && store.results[old(store.nextId)].result.status == Queued
    ensures id == if old(queue.closed) then -1 else old(store.nextId)
    ensures queue.queue == old(queue.queue) + (if old(queue.closed) then [] else [Task(id, script)])
  {
    ghost var s, n := store.Value(), |store.ops|;
    InvRun(store.states, store.ops, n);
    id := store.CreateSubmission(now, stamp, cfg);
    assert StoreStep(store.states[n], store.states[n + 1], store.ops[n]);
    assert id == s.nextId;
    if id <= 0 {
      return -1;
    }
    var ok := queue.Push(Task(id, script));
    if !ok {
      return -1;
    }
  }
}
