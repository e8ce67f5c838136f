/** Lazy cleanup of the stored results, by age and then by count. */
module ResultCleanup {
  import opened Submissions
  import opened Wrappers

  const TICKS_PER_SECOND := 1_000_000_000

  /** Times are ticks of the steady clock. */
  datatype Stored = Stored(result: SubmissionResult, lastAccess: int, finishedAt: Option<int>)

  type Results = map<int, Stored>

  /** The two cleanup settings: a negative retention keeps results for ever, a maximum that
      is not positive does not limit their number. */
  datatype Config = Config(retentionSeconds: int, maxStored: int)

  // ---------- Cleanup ----------

  predicate Expired(stored: Stored, now: int, cfg: Config) {
    && cfg.retentionSeconds >= 0 && stored.finishedAt.Some?
    && now - stored.finishedAt.value >= cfg.retentionSeconds * TICKS_PER_SECOND
  }

  function Unexpired(results: Results, now: int, cfg: Config): Results {
    map id | id in results && !Expired(results[id], now, cfg) :: results[id]
  }

  predicate AnyFinished(results: Results) {
    exists id :: id in results && results[id].finishedAt.Some?
  }

  function Unfinished(results: Results): set<int> {
    set id | id in results && results[id].finishedAt.None?
  }

  ghost predicate Submap(part: Results, whole: Results) {
    forall id :: id in part ==> id in whole && part[id] == whole[id]
  }

  ghost predicate Removed(before: Results, after: Results, id: int) {
    id in before && id !in after
  }

  /** Eviction by count. What goes is finished and no younger than any finished record that
      stays; nothing goes while the count is within the maximum, and it stops as soon as it
      is, or when no finished record is left. */
  ghost predicate Evicted(before: Results, after: Results, cfg: Config) {
    && Submap(after, before)
    && (forall id :: Removed(before, after, id) ==> before[id].finishedAt.Some?)
    && (forall id, kept :: Removed(before, after, id) && kept in after && after[kept].finishedAt.Some? ==>
          before[id].finishedAt.value <= after[kept].finishedAt.value)
    && (cfg.maxStored > 0 ==> |after| <= cfg.maxStored || !AnyFinished(after))
    && (after != before ==> 0 < cfg.maxStored <= |after|)
  }

  /** One cleanup at a time: expiry, then eviction. Ties in finish time may go either way. */
  ghost predicate CleanedUp(before: Results, after: Results, now: int, cfg: Config) {
    Evicted(Unexpired(before, now, cfg), after, cfg)
  }

  lemma SubmapSize(part: Results, whole: Results)
    requires Submap(part, whole)
    ensures |part| <= |whole|
    ensures |part| == |whole| ==> part == whole
  {
    forall id | id in part.Keys
      ensures id in whole.Keys && part[id] == whole[id]
    {
      assert id in part;
    }
    CardinalityOfSubset(part.Keys, whole.Keys);
    if |part| == |whole| {
      assert part.Keys == whole.Keys;
      SameMap(part, whole);
    }
  }

  lemma SameMap(a: Results, b: Results)
    requires forall id :: id in a <==> id in b
    requires forall id :: id in a && id in b ==> a[id] == b[id]
    ensures a == b
  {
    assert forall id :: id in a <==> id in b;
    assert forall id :: id in a ==> a[id] == b[id];
  }

  lemma {:induction false} CardinalityOfSubset(a: set<int>, b: set<int>)
    requires a <= b
    ensures |a| <= |b|
    ensures |a| == |b| ==> a == b
  {
    if forall x :: x !in a {
      assert a == {};
      if b != {} {
        assert |b| > 0;
      }
    } else {
      var x :| x in a;
      assert (a - {x}) <= (b - {x});
      CardinalityOfSubset(a - {x}, b - {x});
      assert a == (a - {x}) + {x} && b == (b - {x}) + {x};
    }
  }

  /** Enough time has passed since the finish; a negative retention keeps for ever. */
  predicate PastRetention(finished: int, now: int, cfg: Config) {
    cfg.retentionSeconds >= 0 && now - finished >= cfg.retentionSeconds * 1_000_000_000
  }

  /** The whole effect of a cleanup: unfinished records and every kept snapshot are as they
      were, nothing past retention is left, and the count is within the maximum unless
      only unfinished records remain. */
  lemma CleanupKeeps(before: Results, after: Results, now: int, cfg: Config)
    requires CleanedUp(before, after, now, cfg)
    ensures Submap(after, before)
    ensures Unfinished(after) == Unfinished(before)
    ensures forall id :: id in after ==> !Expired(after[id], now, cfg)
    ensures forall id :: id in after && after[id].finishedAt.Some? && cfg.retentionSeconds >= 0 ==>
              now - after[id].finishedAt.value < cfg.retentionSeconds * 1_000_000_000
    ensures forall id :: Removed(before, after, id) ==>
              before[id].finishedAt.Some? && (cfg.maxStored > 0 || PastRetention(before[id].finishedAt.value, now, cfg))
    ensures forall id :: Removed(before, after, id) && !PastRetention(before[id].finishedAt.value, now, cfg) ==>
              && 0 < cfg.maxStored <= |after|
              && forall kept :: kept in after && after[kept].finishedAt.Some? ==>
                   before[id].finishedAt.value <= after[kept].finishedAt.value
    ensures cfg.maxStored > 0 && AnyFinished(after) ==> |after| <= cfg.maxStored
  {
    var base := Unexpired(before, now, cfg);
    forall id
      ensures id in Unfinished(after) <==> id in Unfinished(before)
    {
      if id in Unfinished(before) {
        assert id in base && !Removed(base, after, id);
      }
    }
    forall id | Removed(before, after, id)
      ensures before[id].finishedAt.Some? && (id !in base ==> PastRetention(before[id].finishedAt.value, now, cfg))
      ensures id in base ==> Removed(base, after, id)
    {
      assert id in base ==> Removed(base, after, id);
    }
  }

  /** Cleaning up again at the same time changes nothing. */
  lemma CleanupIdempotent(a: Results, b: Results, c: Results, now: int, cfg: Config)
    requires CleanedUp(a, b, now, cfg) && CleanedUp(b, c, now, cfg)
    ensures b == c
  {
    CleanupKeeps(a, b, now, cfg);
    var base := Unexpired(b, now, cfg);
    forall id
      ensures id in base <==> id in b
    {
    }
    SameMap(base, b);
    if c != b {
      SubmapSize(c, b);
      var id := MissingFrom(c, b);
      assert Removed(b, c, id);
      assert AnyFinished(b);
    }
  }

  lemma MissingFrom(part: Results, whole: Results) returns (id: int)
    requires Submap(part, whole) && part != whole
    ensures id in whole && id !in part
  {
    if forall x :: x in whole ==> x in part {
      SameMap(part, whole);
    }
    id :| id in whole && id !in part;
  }

  /** The relation leaves only ties open: with distinct finish times the outcome of a
      cleanup is determined. */
  lemma CleanupDetermined(before: Results, a: Results, b: Results, now: int, cfg: Config)
    requires CleanedUp(before, a, now, cfg) && CleanedUp(before, b, now, cfg)
    requires forall i, j :: i in before && j in before && i != j && before[i].finishedAt.Some? ==>
               before[i].finishedAt != before[j].finishedAt
    ensures a == b
  {
    var base := Unexpired(before, now, cfg);
    if x :| x in a && x !in b {
      assert Removed(base, b, x);
      if y :| y in b && y !in a {
        assert Removed(base, a, y);
      } else {
        NoneInside(base, a, b, cfg);
      }
    } else if y :| y in b && y !in a {
      NoneInside(base, b, a, cfg);
    } else {
      SameMap(a, b);
    }
  }

  /** Eviction does not go further than it must: no outcome lies strictly inside another. */
  lemma NoneInside(base: Results, larger: Results, smaller: Results, cfg: Config)
    requires Evicted(base, larger, cfg) && Evicted(base, smaller, cfg)
    requires forall id :: id in smaller ==> id in larger
    ensures larger == smaller
  {
    assert Submap(smaller, larger);
    SubmapSize(smaller, larger);
    if smaller != larger {
      var id := MissingFrom(smaller, larger);
      assert Removed(base, smaller, id);
      assert AnyFinished(larger);
    }
  }
}
