/** Safety of the result store over every run of its operations, under any settings and any
    clock readings: concurrent callers are serialised by the store's mutex, so a run is a
    sequence of calls. */
module ResultStoreRuns {
  import opened Submissions
  import opened Wrappers
  import opened ResultCleanup
  import opened ResultStores

  function Statuses(snapshots: seq<SubmissionResult>): (path: seq<Status>)
    ensures |path| == |snapshots|
    ensures forall k :: 0 <= k < |path| ==> path[k] == snapshots[k].status
  {
    seq(|snapshots|, k requires 0 <= k < |snapshots| => snapshots[k].status)
  }

  // ---------- One step ----------

  /** The record of `id` across a call that does not write it: the snapshot stays, only a
      finished record can go, and only its creation brings it in. */
  ghost predicate Untouched(s: Store, t: Store, op: Op, id: int) {
    && (id in s.results && id in t.results ==>
          t.results[id].result == s.results[id].result && t.results[id].finishedAt == s.results[id].finishedAt)
    && (id in s.results && !Terminal(s.results[id].result.status) ==> id in t.results)
    && (id in t.results && id !in s.results ==>
          op.Create? && op.id == id && t.results[id].result == Fresh(id, 0).result)
  }

  /** The record of `id` across an accepted update of it. */
  ghost predicate Rewritten(s: Store, t: Store, op: Op, id: int)
    requires op.Update?
  {
    && Accepts(s.results, id, op.result.status)
    && (id in t.results ==> t.results[id].result == op.result.(submissionId := id))
    && (!Terminal(op.result.status) ==> id in t.results)
  }

  ghost predicate CounterStep(s: Store, t: Store, op: Op) {
    && t.nextId == s.nextId + (if op.Create? then 1 else 0)
    && (op.Create? ==> op.id == s.nextId)
  }

  lemma RecordStep(s: Store, t: Store, op: Op, id: int)
    requires StoreInv(s) && StoreStep(s, t, op)
    ensures CounterStep(s, t, op)
    ensures if Writes(op, id) then Rewritten(s, t, op, id) else Untouched(s, t, op, id)
  {
    var mid :| CleanedUp(s.results, mid, op.now, op.cfg) && Finishes(mid, t, s.nextId, op);
    CleanupKeeps(s.results, mid, op.now, op.cfg);
    UnfinishedStays(s.results, mid, id);
    if op.Update? && op.accepted {
      WrittenRecord(mid, t.results, op, id);
    }
  }

  /** The second cleanup of an accepted update, as the record of `id` sees it. */
  lemma WrittenRecord(mid: Results, after: Results, op: Op, id: int)
    requires op.Update? && Accepts(mid, op.id, op.result.status)
    requires CleanedUp(mid[op.id := Written(mid[op.id], op.id, op.result, op.now)], after, op.now, op.cfg)
    ensures id in after ==> id in mid && after[id] == if id == op.id then Written(mid[id], id, op.result, op.now) else mid[id]
    ensures id in mid && id != op.id && mid[id].finishedAt.None? ==> id in after
    ensures id == op.id && mid[id].finishedAt.None? && !Terminal(op.result.status) ==> id in after
  {
    var written := mid[op.id := Written(mid[op.id], op.id, op.result, op.now)];
    CleanupKeeps(written, after, op.now, op.cfg);
    UnfinishedStays(written, after, id);
  }

  lemma UnfinishedStays(before: Results, after: Results, id: int)
    requires Unfinished(after) == Unfinished(before)
    ensures id in before && before[id].finishedAt.None? ==> id in after
  {
    assert id in Unfinished(before) ==> id in Unfinished(after);
  }

  /** An update is refused exactly when there is no record that may take the new status. */
  lemma UpdateAnswers(s: Store, t: Store, op: Op)
    requires StoreInv(s) && StoreStep(s, t, op) && op.Update?
    ensures op.accepted == Accepts(s.results, op.id, op.result.status)
  {
    var mid :| CleanedUp(s.results, mid, op.now, op.cfg) && Finishes(mid, t, s.nextId, op);
    CleanupKeeps(s.results, mid, op.now, op.cfg);
    UnfinishedStays(s.results, mid, op.id);
  }

  // ---------- Whole runs ----------

  /** A run as the record of one id sees it. */
  ghost predicate Tracked(states: seq<Store>, ops: seq<Op>, id: int) {
    && |states| == |ops| + 1 && states[0] == EMPTY
    && (forall k :: 0 <= k < |states| ==> StoreInv(states[k]))
    && (forall k {:trigger ops[k]} :: 0 <= k < |ops| ==> RecordSees(states[k], states[k + 1], ops[k], id))
  }

  ghost predicate RecordSees(s: Store, t: Store, op: Op, id: int) {
    CounterStep(s, t, op) && if Writes(op, id) then Rewritten(s, t, op, id) else Untouched(s, t, op, id)
  }

  lemma RunTracked(states: seq<Store>, ops: seq<Op>, id: int)
    requires Run(states, ops)
    ensures Tracked(states, ops, id)
  {
    forall k | 0 <= k < |states|
      ensures StoreInv(states[k])
    {
      InvRun(states, ops, k);
    }
    forall k | 0 <= k < |ops|
      ensures RecordSees(states[k], states[k + 1], ops[k], id)
    {
      RecordStep(states[k], states[k + 1], ops[k], id);
    }
  }

  /** The counter never falls. */
  lemma {:induction false} CounterGrows(states: seq<Store>, ops: seq<Op>, id: int, i: nat, j: nat)
    requires Tracked(states, ops, id) && i <= j <= |ops|
    ensures states[i].nextId <= states[j].nextId
    ensures i < j && ops[i].Create? ==> states[i].nextId < states[j].nextId
    decreases j - i
  {
    if i < j {
      CounterGrows(states, ops, id, i, j - 1);
      assert CounterStep(states[j - 1], states[j], ops[j - 1]);
    }
  }

  lemma {:induction false} StaysRemoved(states: seq<Store>, ops: seq<Op>, i: nat, j: nat, id: int)
    requires Tracked(states, ops, id) && i <= j <= |ops|
    requires id < states[i].nextId && id !in states[i].results
    ensures id !in states[j].results
    decreases j - i
  {
    if i < j {
      StaysRemoved(states, ops, i, j - 1, id);
      CounterGrows(states, ops, id, i, j - 1);
      assert RecordSees(states[j - 1], states[j], ops[j - 1], id);
    }
  }

  lemma {:induction false} StaysFrozen(states: seq<Store>, ops: seq<Op>, i: nat, j: nat, id: int)
    requires Tracked(states, ops, id) && i <= j <= |ops|
    requires id in states[i].results && Terminal(states[i].results[id].result.status)
    requires id in states[j].results
    ensures states[j].results[id].result == states[i].results[id].result
    ensures states[j].results[id].finishedAt == states[i].results[id].finishedAt
    decreases j - i
  {
    if i < j {
      CounterGrows(states, ops, id, i, j - 1);
      if id !in states[j - 1].results {
        StaysRemoved(states, ops, j - 1, j, id);
        assert false;
      }
      StaysFrozen(states, ops, i, j - 1, id);
      assert RecordSees(states[j - 1], states[j], ops[j - 1], id);
    }
  }

  /** What has been accepted for `id` so far, against its record in `s`. */
  ghost predicate Reflects(s: Store, accepted: seq<SubmissionResult>, id: int) {
    && IsPath(Statuses(accepted))
    && (accepted != [] <==> 1 <= id < s.nextId)
    && (id in s.results ==> accepted != [] && s.results[id].result == Last(accepted))
    && (accepted != [] && id !in s.results ==> Terminal(Last(accepted).status))
  }

  lemma ReflectsStep(s: Store, t: Store, op: Op, was: seq<SubmissionResult>, id: int)
    requires StoreInv(s) && StoreInv(t) && RecordSees(s, t, op, id) && Reflects(s, was, id)
    requires op.Create? ==> op.id in t.results
    ensures Reflects(t, was + Gained(op, id), id)
  {
    var now := was + Gained(op, id);
    if Writes(op, id) {
      assert Statuses(now) == Statuses(was) + [op.result.status];
      PathExtends(Statuses(was), op.result.status);
    } else if op.Create? && op.id == id {
      assert was == [] && now == [Fresh(id, 0).result];
    } else {
      assert now == was;
    }
  }

  lemma {:induction false} ReflectsRun(states: seq<Store>, ops: seq<Op>, k: nat, id: int)
    requires Run(states, ops) && Tracked(states, ops, id) && k <= |ops|
    ensures Reflects(states[k], Accepted(ops[..k], id), id)
  {
    if k == 0 {
      assert ops[..0] == [];
    } else {
      ReflectsRun(states, ops, k - 1, id);
      assert ops[..k][..k - 1] == ops[..k - 1];
      CreatedIsThere(states[k - 1], states[k], ops[k - 1]);
      assert RecordSees(states[k - 1], states[k], ops[k - 1], id);
      ReflectsStep(states[k - 1], states[k], ops[k - 1], Accepted(ops[..k - 1], id), id);
    }
  }

  lemma CreatedIsThere(s: Store, t: Store, op: Op)
    requires StoreStep(s, t, op)
    ensures op.Create? ==> op.id in t.results
  {
  }

  // ---------- The theorems ----------

  /** An id is handed out once. */
  lemma IdsNeverReused(states: seq<Store>, ops: seq<Op>, i: nat, j: nat)
    requires Run(states, ops) && i < j < |ops| && ops[i].Create? && ops[j].Create?
    ensures ops[i].id < ops[j].id
  {
    RunTracked(states, ops, 0);
    CounterGrows(states, ops, 0, i, j);
    assert RecordSees(states[i], states[i + 1], ops[i], 0) && RecordSees(states[j], states[j + 1], ops[j], 0);
  }

  /** Once an id has been handed out and its record is gone, it stays gone. */
  lemma RemovedNeverReturns(states: seq<Store>, ops: seq<Op>, i: nat, j: nat, id: int)
    requires Run(states, ops) && i <= j <= |ops|
    requires id < states[i].nextId && id !in states[i].results
    ensures id !in states[j].results
  {
    RunTracked(states, ops, id);
    StaysRemoved(states, ops, i, j, id);
  }

  /** A terminal snapshot is never changed, only removed. */
  lemma TerminalFrozen(states: seq<Store>, ops: seq<Op>, i: nat, j: nat, id: int)
    requires Run(states, ops) && i <= j <= |ops|
    requires id in states[i].results && Terminal(states[i].results[id].result.status)
    requires id in states[j].results
    ensures states[j].results[id].result == states[i].results[id].result
    ensures states[j].results[id].finishedAt == states[i].results[id].finishedAt
  {
    RunTracked(states, ops, id);
    StaysFrozen(states, ops, i, j, id);
  }

  /** The accepted snapshots of an id follow the transition graph from QUEUED, and while the
      record is there it is the last accepted one. A record goes only after a terminal one. */
  lemma AcceptedFormAPath(states: seq<Store>, ops: seq<Op>, k: nat, id: int)
    requires Run(states, ops) && k <= |ops|
    ensures IsPath(Statuses(Accepted(ops[..k], id)))
    ensures Accepted(ops[..k], id) != [] <==> 1 <= id < states[k].nextId
    ensures id in states[k].results ==>
              Accepted(ops[..k], id) != [] && states[k].results[id].result == Last(Accepted(ops[..k], id))
    ensures 1 <= id < states[k].nextId && id !in states[k].results ==> Terminal(Last(Accepted(ops[..k], id)).status)
  {
    RunTracked(states, ops, id);
    ReflectsRun(states, ops, k, id);
  }

  /** What a query answers: the last accepted snapshot, or nothing, and nothing only for an id
      never handed out or one whose last snapshot was terminal. */
  lemma QueryAnswersLatest(states: seq<Store>, ops: seq<Op>, k: nat)
    requires Run(states, ops) && k < |ops| && ops[k].Get?
    ensures ops[k].found.Some? ==> Accepted(ops[..k], ops[k].id) != [] && ops[k].found.value == Last(Accepted(ops[..k], ops[k].id))
    ensures ops[k].found.None? ==> Accepted(ops[..k], ops[k].id) == [] || Terminal(Last(Accepted(ops[..k], ops[k].id)).status)
  {
    var s, t, op := states[k], states[k + 1], ops[k];
    AcceptedFormAPath(states, ops, k, op.id);
    InvRun(states, ops, k);
    GetAnswers(s, t, op);
  }

  lemma GetAnswers(s: Store, t: Store, op: Op)
    requires StoreInv(s) && StoreStep(s, t, op) && op.Get?
    ensures op.found.Some? ==> op.id in s.results && op.found.value == s.results[op.id].result
    ensures op.found.None? && op.id in s.results ==> Terminal(s.results[op.id].result.status)
  {
    var mid :| CleanedUp(s.results, mid, op.now, op.cfg) && Finishes(mid, t, s.nextId, op);
    CleanupKeeps(s.results, mid, op.now, op.cfg);
    UnfinishedStays(s.results, mid, op.id);
  }

  // ---------- Survival and size ----------

  /** A result that has just become terminal is still stored when `updateResult` returns
      exactly when retention is not zero and the other unfinished records leave room. */
  lemma FreshResultSurvives(s: Store, t: Store, op: Op)
    requires StoreInv(s) && StoreStep(s, t, op) && Writes(op, op.id) && Terminal(op.result.status)
    ensures op.id in t.results <==>
            op.cfg.retentionSeconds != 0 && (op.cfg.maxStored <= 0 || |Unfinished(s.results) - {op.id}| < op.cfg.maxStored)
  {
    var mid :| CleanedUp(s.results, mid, op.now, op.cfg) && Finishes(mid, t, s.nextId, op);
    CleanupKeeps(s.results, mid, op.now, op.cfg);
    SecondCleanup(mid, op, t.results);
    assert Unfinished(s.results) == Unfinished(mid);
  }

  /** The second cleanup of an accepted terminal update, after a first one gave `mid`. */
  lemma SecondCleanup(mid: Results, op: Op, after: Results)
    requires op.Update? && Terminal(op.result.status) && op.id in mid && mid[op.id].finishedAt.None?
    requires forall id :: id in mid ==> !Expired(mid[id], op.now, op.cfg)
    requires op.cfg.maxStored > 0 && AnyFinished(mid) ==> |mid| <= op.cfg.maxStored
    requires CleanedUp(mid[op.id := Written(mid[op.id], op.id, op.result, op.now)], after, op.now, op.cfg)
    ensures op.id in after <==>
            op.cfg.retentionSeconds != 0 && (op.cfg.maxStored <= 0 || |Unfinished(mid) - {op.id}| < op.cfg.maxStored)
  {
    var cfg, id := op.cfg, op.id;
    var written := mid[id := Written(mid[id], id, op.result, op.now)];
    var base := Unexpired(written, op.now, cfg);
    var others := Unfinished(mid) - {id};
    if cfg.retentionSeconds == 0 {
      assert id !in base;
    } else {
      assert cfg.retentionSeconds > 0 ==> cfg.retentionSeconds * TICKS_PER_SECOND > 0;
      forall x
        ensures x in base <==> x in written
      {
      }
      SameMap(base, written);
      assert written.Keys == mid.Keys;
      if cfg.maxStored > 0 {
        OthersCount(mid, id);
        EvictsFresh(mid, written, id, after, cfg);
      } else {
        assert after == written;
      }
    }
  }

  lemma OthersCount(mid: Results, id: int)
    requires id in mid && mid[id].finishedAt.None?
    ensures |Unfinished(mid) - {id}| < |mid|
    ensures !AnyFinished(mid) ==> |Unfinished(mid) - {id}| == |mid| - 1
  {
    assert Unfinished(mid) - {id} <= mid.Keys - {id};
    CardinalityOfSubset(Unfinished(mid) - {id}, mid.Keys - {id});
    if !AnyFinished(mid) {
      forall x
        ensures x in Unfinished(mid) - {id} <==> x in mid.Keys - {id}
      {
      }
      assert Unfinished(mid) - {id} == mid.Keys - {id};
    }
  }

  lemma EvictsFresh(mid: Results, written: Results, id: int, after: Results, cfg: Config)
    requires cfg.maxStored > 0 && id in mid && mid[id].finishedAt.None? && written.Keys == mid.Keys
    requires forall x :: x in mid && x != id ==> written[x] == mid[x]
    requires written[id].finishedAt.Some?
    requires AnyFinished(mid) ==> |mid| <= cfg.maxStored
    requires |Unfinished(mid) - {id}| < |mid|
    requires !AnyFinished(mid) ==> |Unfinished(mid) - {id}| == |mid| - 1
    requires Evicted(written, after, cfg)
    ensures id in after <==> |Unfinished(mid) - {id}| < cfg.maxStored
  {
    assert |written| == |mid|;
    SubmapSize(after, written);
    if |mid| <= cfg.maxStored {
      assert |after| >= cfg.maxStored ==> |after| == |written|;
      assert after == written;
    } else if id in after {
      forall x | x in written
        ensures x in after
      {
        assert !Removed(written, after, x);
      }
      SameMap(after, written);
      assert AnyFinished(after);
    }
  }

  /** With a positive maximum, holding any finished record bounds the whole store. */
  lemma StoreBound(states: seq<Store>, ops: seq<Op>, max: int, k: nat)
    requires Run(states, ops) && k <= |ops| && max > 0
    requires forall i :: 0 <= i < |ops| ==> ops[i].cfg.maxStored == max
    ensures AnyFinished(states[k].results) ==> |states[k].results| <= max + 1
  {
    if k > 0 && AnyFinished(states[k].results) {
      StepBound(states[k - 1], states[k], ops[k - 1]);
    }
  }

  /** One call bounds the store by the maximum it read, plus the record a creation adds. */
  lemma StepBound(s: Store, t: Store, op: Op)
    requires StoreStep(s, t, op) && op.cfg.maxStored > 0 && AnyFinished(t.results)
    ensures |t.results| <= op.cfg.maxStored + (if op.Create? then 1 else 0)
  {
    var mid :| CleanedUp(s.results, mid, op.now, op.cfg) && Finishes(mid, t, s.nextId, op);
    CleanupKeeps(s.results, mid, op.now, op.cfg);
    if op.Update? && op.accepted {
      CleanupKeeps(mid[op.id := Written(mid[op.id], op.id, op.result, op.now)], t.results, op.now, op.cfg);
    } else if op.Create? {
      assert t.results.Keys == mid.Keys + {op.id};
      var id :| id in t.results && t.results[id].finishedAt.Some?;
      assert id in mid && mid[id].finishedAt.Some?;
    } else {
      assert t.results.Keys == mid.Keys;
      var id :| id in t.results && t.results[id].finishedAt.Some?;
      assert id in mid && mid[id].finishedAt.Some?;
    }
  }

  // ---------- Retention ----------

  /** The record a terminal write leaves carries that write's time. */
  lemma StampedByWrite(s: Store, t: Store, op: Op)
    requires StoreInv(s) && StoreStep(s, t, op) && Writes(op, op.id) && Terminal(op.result.status) && op.id in t.results
    ensures t.results[op.id].finishedAt == Some(op.now) && Terminal(t.results[op.id].result.status)
  {
    var mid :| CleanedUp(s.results, mid, op.now, op.cfg) && Finishes(mid, t, s.nextId, op);
    WrittenRecord(mid, t.results, op, op.id);
  }

  /** While it is stored, a record keeps the time of its terminal write. */
  lemma StampedSince(states: seq<Store>, ops: seq<Op>, i: nat, k: nat)
    requires Run(states, ops) && i < k <= |ops| && Writes(ops[i], ops[i].id) && Terminal(ops[i].result.status)
    requires ops[i].id in states[k].results
    ensures states[k].results[ops[i].id].finishedAt == Some(ops[i].now) && Terminal(states[k].results[ops[i].id].result.status)
  {
    var id := ops[i].id;
    RunTracked(states, ops, id);
    assert RecordSees(states[i], states[i + 1], ops[i], id);
    CounterGrows(states, ops, id, i, i + 1);
    if id !in states[i + 1].results {
      StaysRemoved(states, ops, i + 1, k, id);
      assert false;
    }
    InvRun(states, ops, i);
    StampedByWrite(states[i], states[i + 1], ops[i]);
    StaysFrozen(states, ops, i + 1, k, id);
  }

  /** One call on a store that holds a finished record: gone if past retention at that call, and
      without a maximum only then. */
  lemma CallExpires(s: Store, t: Store, op: Op, id: int, finished: int)
    requires StoreInv(s) && StoreStep(s, t, op) && id in s.results && s.results[id].finishedAt == Some(finished)
    ensures PastRetention(finished, op.now, op.cfg) ==> id !in t.results
    ensures op.cfg.maxStored <= 0 && !PastRetention(finished, op.now, op.cfg) ==> id in t.results
  {
    var mid :| CleanedUp(s.results, mid, op.now, op.cfg) && Finishes(mid, t, s.nextId, op);
    CleanupKeeps(s.results, mid, op.now, op.cfg);
    assert id !in mid ==> Removed(s.results, mid, id);
    if op.Update? && op.accepted {
      WrittenAround(mid, t.results, op, id);
    }
  }

  lemma WrittenAround(mid: Results, after: Results, op: Op, id: int)
    requires op.Update? && Accepts(mid, op.id, op.result.status) && id != op.id
    requires CleanedUp(mid[op.id := Written(mid[op.id], op.id, op.result, op.now)], after, op.now, op.cfg)
    ensures id !in mid ==> id !in after
    ensures op.cfg.maxStored <= 0 && id in mid && id !in after ==>
              mid[id].finishedAt.Some? && PastRetention(mid[id].finishedAt.value, op.now, op.cfg)
  {
    var written := mid[op.id := Written(mid[op.id], op.id, op.result, op.now)];
    CleanupKeeps(written, after, op.now, op.cfg);
    assert id in written && id !in after ==> Removed(written, after, id);
  }

  /** Retention counts from the terminal write, whatever came between: once a call comes that
      late, the record is gone. */
  lemma GoneAfterRetention(states: seq<Store>, ops: seq<Op>, i: nat, k: nat)
    requires Run(states, ops) && i < k < |ops| && Writes(ops[i], ops[i].id) && Terminal(ops[i].result.status)
    requires ops[k].cfg.retentionSeconds >= 0 && ops[k].now - ops[i].now >= ops[k].cfg.retentionSeconds * 1_000_000_000
    ensures ops[i].id !in states[k + 1].results
  {
    var id := ops[i].id;
    InvRun(states, ops, k);
    if id in states[k].results {
      StampedSince(states, ops, i, k);
      CallExpires(states[k], states[k + 1], ops[k], id, ops[i].now);
    } else {
      RunTracked(states, ops, id);
      assert RecordSees(states[i], states[i + 1], ops[i], id);
      CounterGrows(states, ops, id, i, k);
      InvRun(states, ops, i);
      StaysRemoved(states, ops, k, k + 1, id);
    }
  }

  /** One more call, without a maximum. */
  lemma StoredOneMore(states: seq<Store>, ops: seq<Op>, i: nat, k: nat)
    requires Run(states, ops) && i < k < |ops| && Writes(ops[i], ops[i].id) && Terminal(ops[i].result.status) && ops[k].cfg.maxStored <= 0
    ensures ops[i].id in states[k + 1].results <==>
            ops[i].id in states[k].results && !PastRetention(ops[i].now, ops[k].now, ops[k].cfg)
  {
    var id := ops[i].id;
    InvRun(states, ops, k);
    if id in states[k].results {
      StampedSince(states, ops, i, k);
      CallExpires(states[k], states[k + 1], ops[k], id, ops[i].now);
    } else {
      InvRun(states, ops, i);
      RunTracked(states, ops, id);
      assert RecordSees(states[i], states[i + 1], ops[i], id);
      CounterGrows(states, ops, id, i, k);
      StaysRemoved(states, ops, k, k + 1, id);
    }
  }

  lemma StoredAtOnce(states: seq<Store>, ops: seq<Op>, i: nat)
    requires Run(states, ops) && i < |ops| && Writes(ops[i], ops[i].id) && Terminal(ops[i].result.status) && ops[i].cfg.maxStored <= 0
    ensures ops[i].id in states[i + 1].results <==> !PastRetention(ops[i].now, ops[i].now, ops[i].cfg)
  {
    InvRun(states, ops, i);
    FreshResultSurvives(states[i], states[i + 1], ops[i]);
  }

  /** Without a maximum that is the only way out: a finished record is stored after a call if and
      only if no call since its terminal write, that one included, came past retention. */
  lemma {:induction false} StoredExactly(states: seq<Store>, ops: seq<Op>, i: nat, k: nat)
    requires Run(states, ops) && i <= k < |ops| && Writes(ops[i], ops[i].id) && Terminal(ops[i].result.status)
    requires forall m :: i <= m <= k ==> ops[m].cfg.maxStored <= 0
    ensures ops[i].id in states[k + 1].results <==> forall m :: i <= m <= k ==> !PastRetention(ops[i].now, ops[m].now, ops[m].cfg)
    decreases k - i
  {
    if i == k {
      StoredAtOnce(states, ops, i);
    } else {
      StoredExactly(states, ops, i, k - 1);
      StoredOneMore(states, ops, i, k);
    }
  }
}
