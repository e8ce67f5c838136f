/** The data that travels through the judge: statuses, verdicts and result snapshots. */
module Submissions {
  datatype Status = Queued | Preparing | Compiling | Running | Finished | Failed

  datatype Verdict = Pending | AC | WA | TLE | MLE | RE | OLE | PE | CE | Unknown | SystemError

  datatype CaseResult = CaseResult(
    seqId: int, verdict: Verdict, cpuTimeMs: int, realTimeMs: int, memoryKb: nat, signal: int, exitCode: int, errorCode: int)

  datatype SubmissionResult = SubmissionResult(
    submissionId: int, status: Status, verdict: Verdict, message: string, cases: seq<CaseResult>)

  function Last(snapshots: seq<SubmissionResult>): SubmissionResult
    requires snapshots != []
  {
    snapshots[|snapshots| - 1]
  }

  predicate Terminal(s: Status) {
    s == Finished || s == Failed
  }

  /** `isValidTransition`: staying is allowed until the end, otherwise forward only. */
  predicate ValidTransition(current: Status, next: Status) {
    if Terminal(current) then false
    else if current == next then true
    else
      match current
      case Queued => next == Preparing || next == Failed
      case Preparing => next == Compiling || next == Failed
      case Compiling => next == Running || next == Finished || next == Failed
      case Running => next == Finished || next == Failed
      case Finished => false
      case Failed => false
  }

  /** The graph in other words: one stage at a time, except that a submission may fail from
      anywhere before the end and finish from compiling. */
  lemma TransitionExactly(current: Status, next: Status)
    ensures ValidTransition(current, next) <==>
            && current != Finished && current != Failed
            && (next == current || next == Failed || Stage(next) == Stage(current) + 1 || (current == Compiling && next == Finished))
  {
  }

  /** Nothing is skipped: a submission runs or finishes only after it was compiling, and
      compiles only after preparing. */
  lemma {:induction false} NothingSkipped(path: seq<Status>, i: nat)
    requires IsPath(path) && i < |path|
    ensures path[i] in {Running, Finished} ==> exists j :: 0 <= j < i && path[j] == Compiling
    ensures path[i] == Compiling ==> exists j :: 0 <= j < i && path[j] == Preparing
  {
    if i > 0 {
      NothingSkipped(path, i - 1);
      assert ValidTransition(path[i - 1], path[i - 1 + 1]);
    }
  }

  /** How far along a status is. */
  function Stage(s: Status): nat {
    match s
    case Queued => 0 case Preparing => 1 case Compiling => 2 case Running => 3 case Finished => 4 case Failed => 4
  }

  /** A path in the transition graph, from the state a record is created in. */
  predicate IsPath(path: seq<Status>) {
    && (path != [] ==> path[0] == Queued)
    && (forall k :: 0 <= k < |path| - 1 ==> ValidTransition(path[k], path[k + 1]))
  }

  /** Along a path the stage never falls and a terminal status is the last one. */
  lemma {:induction false} PathMovesForward(path: seq<Status>, i: nat, j: nat)
    requires IsPath(path) && i <= j < |path|
    ensures Stage(path[i]) <= Stage(path[j])
    ensures Terminal(path[i]) ==> i == |path| - 1
    decreases j - i
  {
    if i < j {
      PathMovesForward(path, i, j - 1);
      assert ValidTransition(path[j - 1], path[j]);
    }
    if i < |path| - 1 {
      assert ValidTransition(path[i], path[i + 1]);
    }
  }

  lemma PathExtends(path: seq<Status>, next: Status)
    requires IsPath(path) && path != [] && ValidTransition(path[|path| - 1], next)
    ensures IsPath(path + [next])
  {
  }
}
