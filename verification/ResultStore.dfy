/** The result store: the newest snapshot of each submission and a forward-only status
    machine over it. Every operation cleans up before it looks. */
module ResultStores {
  import opened Submissions
  import opened Wrappers
  import opened ResultCleanup

  datatype Store = Store(results: Results, nextId: int)

  const EMPTY := Store(map[], 1)

  /** One call on the store with the settings and clock readings it saw and what it
      answered. */
  datatype Op =
    | Create(id: int, now: int, stamp: int, cfg: Config)
    | Update(id: int, result: SubmissionResult, now: int, cfg: Config, accepted: bool)
    | Get(id: int, now: int, cfg: Config, found: Option<SubmissionResult>)

  function Fresh(id: int, stamp: int): Stored {
    Stored(SubmissionResult(id, Queued, Pending, "", []), stamp, None)
  }

  /** The record after an accepted update: the id is forced, a terminal status is stamped. */
  function Written(stored: Stored, id: int, result: SubmissionResult, now: int): Stored {
    Stored(result.(submissionId := id), now, if Terminal(result.status) then Some(now) else stored.finishedAt)
  }

  predicate Accepts(results: Results, id: int, status: Status) {
    id in results && ValidTransition(results[id].result.status, status)
  }

  /** What is left to do once the first cleanup has produced `mid`. */
  ghost predicate Finishes(mid: Results, t: Store, nextId: int, op: Op) {
    match op
    case Create(id, now, stamp, cfg) =>
      id == nextId && t == Store(mid[nextId := Fresh(nextId, stamp)], nextId + 1)
    case Update(id, result, now, cfg, accepted) =>
      && t.nextId == nextId && accepted == Accepts(mid, id, result.status)
      && (if accepted then CleanedUp(mid[id := Written(mid[id], id, result, now)], t.results, now, cfg) else t.results == mid)
    case Get(id, now, cfg, found) =>
      && found == (if id in mid then Some(mid[id].result) else None)
      && t == Store(if id in mid then mid[id := mid[id].(lastAccess := now)] else mid, nextId)
  }

  ghost predicate StoreStep(s: Store, t: Store, op: Op) {
    exists mid :: CleanedUp(s.results, mid, op.now, op.cfg) && Finishes(mid, t, s.nextId, op)
  }

  /** Ids come from the counter, a record knows its id, and a finish time is present exactly
      for terminal records. */
  ghost predicate StoreInv(s: Store) {
    && s.nextId >= 1
    && forall id :: id in s.results ==>
      && 1 <= id < s.nextId && s.results[id].result.submissionId == id
      && (s.results[id].finishedAt.Some? <==> Terminal(s.results[id].result.status))
  }

  /** Cleanup never adds and never touches what it keeps, so the invariant survives. */
  lemma StepKeepsInv(s: Store, t: Store, op: Op)
    requires StoreInv(s) && StoreStep(s, t, op)
    ensures StoreInv(t)
  {
    var mid :| CleanedUp(s.results, mid, op.now, op.cfg) && Finishes(mid, t, s.nextId, op);
    CleanupKeeps(s.results, mid, op.now, op.cfg);
    PartKeepsInv(s.results, mid, s.nextId);
    match op {
      case Create(id, now, stamp, cfg) =>
      case Update(id, result, now, cfg, accepted) =>
        if accepted {
          WriteKeepsInv(mid, t.results, s.nextId, op);
        }
      case Get(id, now, cfg, found) =>
    }
  }

  lemma PartKeepsInv(whole: Results, part: Results, nextId: int)
    requires StoreInv(Store(whole, nextId)) && Submap(part, whole)
    ensures StoreInv(Store(part, nextId))
  {
  }

  lemma WriteKeepsInv(mid: Results, after: Results, nextId: int, op: Op)
    requires StoreInv(Store(mid, nextId)) && op.Update? && Accepts(mid, op.id, op.result.status)
    requires CleanedUp(mid[op.id := Written(mid[op.id], op.id, op.result, op.now)], after, op.now, op.cfg)
    ensures StoreInv(Store(after, nextId))
  {
    var written := mid[op.id := Written(mid[op.id], op.id, op.result, op.now)];
    CleanupKeeps(written, after, op.now, op.cfg);
    PartKeepsInv(written, after, nextId);
  }

  // ---------- Runs ----------

  /** `states[k]` is the store before `ops[k]`. */
  ghost predicate Run(states: seq<Store>, ops: seq<Op>) {
    && |states| == |ops| + 1 && states[0] == EMPTY
    && forall k {:trigger ops[k]} :: 0 <= k < |ops| ==> StoreStep(states[k], states[k + 1], ops[k])
  }

  predicate Writes(op: Op, id: int) {
    op.Update? && op.id == id && op.accepted
  }

  /** The snapshot a call puts in for `id`, if any. */
  function Gained(op: Op, id: int): seq<SubmissionResult> {
    if Writes(op, id) then [op.result.(submissionId := id)]
    else if op.Create? && op.id == id then [Fresh(id, 0).result]
    else []
  }

  /** The snapshots the store has accepted for one id, oldest first. */
  function Accepted(ops: seq<Op>, id: int): seq<SubmissionResult> {
    if ops == [] then [] else Accepted(ops[..|ops| - 1], id) + Gained(ops[|ops| - 1], id)
  }

  lemma {:induction false} InvRun(states: seq<Store>, ops: seq<Op>, k: nat)
    requires Run(states, ops) && k <= |ops|
    ensures StoreInv(states[k])
  {
    if k > 0 {
      InvRun(states, ops, k - 1);
      StepKeepsInv(states[k - 1], states[k], ops[k - 1]);
    }
  }

  lemma RunExtends(states: seq<Store>, ops: seq<Op>, t: Store, op: Op)
    requires Run(states, ops) && StoreStep(states[|ops|], t, op)
    ensures Run(states + [t], ops + [op])
  {
    var states', ops' := states + [t], ops + [op];
    forall k | 0 <= k < |ops'|
      ensures StoreStep(states'[k], states'[k + 1], ops'[k])
    {
      assert k < |ops| ==> ops'[k] == ops[k];
    }
  }

  // ---------- The class ----------

  datatype Entry = Entry(id: int, finished: int)

  ghost predicate ByFinish(entries: seq<Entry>) {
    forall i, j :: 0 <= i < j < |entries| ==> entries[i].finished <= entries[j].finished
  }

  /** The sort by finish time: some ordered permutation. */
  method SortByFinish(entries: seq<Entry>) returns (sorted: seq<Entry>)
    ensures ByFinish(sorted) && multiset(sorted) == multiset(entries)
  {
    sorted := [];
    for i := 0 to |entries|
      invariant ByFinish(sorted) && multiset(sorted) == multiset(entries[..i])
    {
      assert entries[..i + 1] == entries[..i] + [entries[i]];
      sorted := Insert(sorted, entries[i]);
    }
    assert entries[..|entries|] == entries;
  }

  method Insert(sorted: seq<Entry>, e: Entry) returns (r: seq<Entry>)
    requires ByFinish(sorted)
    ensures ByFinish(r) && multiset(r) == multiset(sorted) + multiset{e}
  {
    var k := |sorted|;
    while k > 0 && sorted[k - 1].finished > e.finished
      invariant 0 <= k <= |sorted|
      invariant forall j :: k <= j < |sorted| ==> e.finished < sorted[j].finished
    {
      k := k - 1;
    }
    r := sorted[..k] + [e] + sorted[k..];
    InsertedOrdered(sorted, k, e);
    InsertedContents(sorted, k, e);
  }

  lemma InsertedOrdered(sorted: seq<Entry>, k: nat, e: Entry)
    requires ByFinish(sorted) && k <= |sorted|
    requires k > 0 ==> sorted[k - 1].finished <= e.finished
    requires forall j :: k <= j < |sorted| ==> e.finished < sorted[j].finished
    ensures ByFinish(sorted[..k] + [e] + sorted[k..])
  {
    var r := sorted[..k] + [e] + sorted[k..];
    forall i, j | 0 <= i < j < |r|
      ensures r[i].finished <= r[j].finished
    {
      assert r[i] == if i < k then sorted[i] else if i == k then e else sorted[i - 1];
      assert r[j] == if j < k then sorted[j] else if j == k then e else sorted[j - 1];
    }
  }

  lemma InsertedContents(sorted: seq<Entry>, k: nat, e: Entry)
    requires k <= |sorted|
    ensures multiset(sorted[..k] + [e] + sorted[k..]) == multiset(sorted) + multiset{e}
  {
    assert sorted == sorted[..k] + sorted[k..];
  }

  lemma HasMember(ids: set<int>)
    ensures ids == {} || exists id :: id in ids
  {
    if forall id :: id !in ids {
      assert ids == {};
    }
  }

  ghost predicate Lists(entries: seq<Entry>, results: Results, ids: set<int>) {
    && (forall e :: e in entries ==> e.id in results && e.id in ids && results[e.id].finishedAt == Some(e.finished))
    && (forall id :: id in results && id in ids && results[id].finishedAt.Some? ==>
          Entry(id, results[id].finishedAt.value) in entries)
  }

  method FinishedEntries(results: Results) returns (entries: seq<Entry>)
    ensures Lists(entries, results, results.Keys)
  {
    entries := [];
    var rest := results.Keys;
    while rest != {}
      invariant rest <= results.Keys && Lists(entries, results, results.Keys - rest)
      decreases |rest|
    {
      HasMember(rest);
      var id :| id in rest;
      if results[id].finishedAt.Some? {
        entries := entries + [Entry(id, results[id].finishedAt.value)];
      }
      rest := rest - {id};
    }
    assert results.Keys - rest == results.Keys;
  }

  class ResultStore {
    var results: Results
    var nextId: int
    /** Every call so far, and the store before and after each. */
    ghost var ops: seq<Op>
    ghost var states: seq<Store>

    constructor ()
      ensures Valid() && Value() == EMPTY && ops == []
    {
      results, nextId := map[], 1;
      ops, states := [], [EMPTY];
    }

    ghost predicate Valid()
      reads this
    {
      Run(states, ops) && Value() == states[|ops|]
    }

    ghost function Value(): Store
      reads this
    {
      Store(results, nextId)
    }

    /** Drop every record whose retention has passed. */
    method Expire(now: int, cfg: Config)
      requires cfg.retentionSeconds >= 0
      modifies this`results
      ensures results == Unexpired(old(results), now, cfg)
    {
      ghost var before := results;
      var rest := results.Keys;
      while rest != {}
        invariant rest <= before.Keys && Submap(results, before)
        invariant forall id :: id in before ==> (id in results <==> id in rest || !Expired(before[id], now, cfg))
        decreases |rest|
      {
        HasMember(rest);
        var id :| id in rest;
        if results[id].finishedAt.Some? && now - results[id].finishedAt.value >= cfg.retentionSeconds * TICKS_PER_SECOND {
          results := results - {id};
        }
        rest := rest - {id};
      }
      SameMap(results, Unexpired(before, now, cfg));
    }

    /** `cleanupExpiredResultsLocked`; `ResultCleanup.CleanupKeeps` says what that leaves. */
    method CleanupExpired(now: int, cfg: Config)
      modifies this`results
      ensures CleanedUp(old(results), results, now, cfg)
      ensures forall id :: id in results && results[id].finishedAt.Some? ==> !PastRetention(results[id].finishedAt.value, now, cfg)
      ensures forall id :: Removed(old(results), results, id) ==>
                && old(results)[id].finishedAt.Some?
                && (cfg.maxStored > 0 || PastRetention(old(results)[id].finishedAt.value, now, cfg))
    {
      ghost var before := results;
      if cfg.retentionSeconds >= 0 {
        Expire(now, cfg);
      } else {
        SameMap(results, Unexpired(results, now, cfg));
      }
      if cfg.maxStored > 0 && |results| > cfg.maxStored {
        EvictOldest(cfg);
      }
      CleanupKeeps(before, results, now, cfg);
    }

    method EvictOldest(cfg: Config)
      requires 0 < cfg.maxStored < |results|
      modifies this`results
      ensures Evicted(old(results), results, cfg)
    {
      ghost var base := results;
      var entries := FinishedEntries(results);
      var sorted := SortByFinish(entries);
      SameEntries(entries, sorted, base);
      var i := 0;
      while i < |sorted| && |results| > cfg.maxStored
        invariant 0 <= i <= |sorted|
        invariant Submap(results, base) && |results| >= cfg.maxStored
        invariant forall id :: Removed(base, results, id) ==> exists j :: 0 <= j < i && sorted[j].id == id
        invariant forall j :: 0 <= j < i ==> sorted[j].id !in results
      {
        RemovingOne(results, sorted[i].id);
        ghost var was := results;
        results := results - {sorted[i].id};
        forall id | Removed(base, results, id)
          ensures exists j :: 0 <= j < i + 1 && sorted[j].id == id
        {
          if id in was {
            assert sorted[i].id == id;
          } else {
            assert Removed(base, was, id);
            var j :| 0 <= j < i && sorted[j].id == id;
          }
        }
        i := i + 1;
      }
      EvictionDone(base, results, sorted, i, cfg);
    }

    /** `createSubmission`. */
    method CreateSubmission(now: int, stamp: int, cfg: Config) returns (id: int)
      requires Valid()
      modifies this
      ensures Valid() && ops == old(ops) + [Create(id, now, stamp, cfg)] && states == old(states) + [Value()]
      ensures id == old(nextId) && id in results && results[id].finishedAt.None?
      ensures results[id].result == SubmissionResult(id, Queued, Pending, "", [])
    {
      ghost var s := Value();
      CleanupExpired(now, cfg);
      ghost var mid := results;
      id := nextId;
      nextId := nextId + 1;
      results := results[id := Fresh(id, stamp)];
      ghost var op := Create(id, now, stamp, cfg);
      assert CleanedUp(s.results, mid, op.now, op.cfg) && Finishes(mid, Value(), s.nextId, op);
      RunExtends(states, ops, Value(), op);
      ops, states := ops + [op], states + [Value()];
    }

    /** `updateResult`. */
    method UpdateResult(id: int, result: SubmissionResult, now: int, cfg: Config) returns (accepted: bool)
      requires Valid()
      modifies this
      ensures Valid() && ops == old(ops) + [Update(id, result, now, cfg, accepted)] && states == old(states) + [Value()]
    {
      ghost var s := Value();
      CleanupExpired(now, cfg);
      ghost var mid := results;
      accepted := Accepts(results, id, result.status);
      if accepted {
        results := results[id := Written(results[id], id, result, now)];
        CleanupExpired(now, cfg);
      }
      ghost var op := Update(id, result, now, cfg, accepted);
      assert CleanedUp(s.results, mid, op.now, op.cfg) && Finishes(mid, Value(), s.nextId, op);
      RunExtends(states, ops, Value(), op);
      ops, states := ops + [op], states + [Value()];
    }

    /** `getResult`: a query refreshes the access time and may clean up. */
    method GetResult(id: int, now: int, cfg: Config) returns (found: Option<SubmissionResult>)
      requires Valid()
      modifies this
      ensures Valid() && ops == old(ops) + [Get(id, now, cfg, found)] && states == old(states) + [Value()]
    {
      ghost var s := Value();
      CleanupExpired(now, cfg);
      ghost var mid := results;
      found := None;
      if id in results {
        found := Some(results[id].result);
        results := results[id := results[id].(lastAccess := now)];
      }
      ghost var op := Get(id, now, cfg, found);
      assert CleanedUp(s.results, mid, op.now, op.cfg) && Finishes(mid, Value(), s.nextId, op);
      RunExtends(states, ops, Value(), op);
      ops, states := ops + [op], states + [Value()];
    }
  }

  lemma SameEntries(entries: seq<Entry>, sorted: seq<Entry>, results: Results)
    requires multiset(sorted) == multiset(entries) && Lists(entries, results, results.Keys)
    ensures Lists(sorted, results, results.Keys)
  {
    forall e
      ensures e in sorted <==> e in entries
    {
      assert e in sorted <==> e in multiset(sorted);
      assert e in entries <==> e in multiset(entries);
    }
  }

  lemma RemovingOne(results: Results, id: int)
    ensures |results - {id}| == if id in results then |results| - 1 else |results|
  {
    var after := results - {id};
    if id in results {
      assert after.Keys == results.Keys - {id};
    } else {
      assert after == results;
    }
  }

  lemma EvictionDone(base: Results, after: Results, sorted: seq<Entry>, i: nat, cfg: Config)
    requires 0 < cfg.maxStored && ByFinish(sorted) && Lists(sorted, base, base.Keys)
    requires i <= |sorted| && Submap(after, base) && |after| >= cfg.maxStored
    requires forall id :: Removed(base, after, id) ==> exists j :: 0 <= j < i && sorted[j].id == id
    requires forall j :: 0 <= j < i ==> sorted[j].id !in after
    requires i == |sorted| || |after| <= cfg.maxStored
    ensures Evicted(base, after, cfg)
  {
    forall id | Removed(base, after, id)
      ensures base[id].finishedAt.Some?
      ensures forall kept :: kept in after && after[kept].finishedAt.Some? ==>
                base[id].finishedAt.value <= after[kept].finishedAt.value
    {
      var j :| 0 <= j < i && sorted[j].id == id;
      assert sorted[j] in sorted;
      forall kept | kept in after && after[kept].finishedAt.Some?
        ensures base[id].finishedAt.value <= after[kept].finishedAt.value
      {
        var k := PositionOf(base, sorted, kept);
        assert i <= k;
      }
    }
    if i == |sorted| {
      forall id | id in after
        ensures after[id].finishedAt.None?
      {
        if after[id].finishedAt.Some? {
          var k := PositionOf(base, sorted, id);
          assert false;
        }
      }
    }
  }

  lemma PositionOf(base: Results, sorted: seq<Entry>, id: int) returns (k: nat)
    requires Lists(sorted, base, base.Keys) && id in base && base[id].finishedAt.Some?
    ensures k < |sorted| && sorted[k] == Entry(id, base[id].finishedAt.value)
  {
    assert id in base.Keys;
    k :| 0 <= k < |sorted| && sorted[k] == Entry(id, base[id].finishedAt.value);
  }
}
