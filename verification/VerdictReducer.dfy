/** Folding the verdicts of the cases into one. */
module VerdictReducers {
  import opened Submissions

  function Priority(v: Verdict): nat {
    match v
    case CE => 100
    case SystemError => 90
    case TLE => 80
    case RE => 70
    case MLE => 70
    case OLE => 70
    case WA => 60
    case PE => 60
    case Unknown => 50
    case AC => 10
    case Pending => 0
  }

  /** The summary is the first verdict that no other one outranks. */
  ghost predicate IsSummary(cases: seq<CaseResult>, default_: Verdict, v: Verdict) {
    if cases == [] then v == default_
    else exists k :: FirstHighest(cases, k) && v == cases[k].verdict
  }

  ghost predicate FirstHighest(cases: seq<CaseResult>, k: int) {
    && 0 <= k < |cases|
    && (forall j :: 0 <= j < k ==> Priority(cases[j].verdict) < Priority(cases[k].verdict))
    && (forall j :: k <= j < |cases| ==> Priority(cases[j].verdict) <= Priority(cases[k].verdict))
  }

  /** `summarize`. */
  method Summarize(cases: seq<CaseResult>, default_: Verdict) returns (summary: Verdict)
    ensures IsSummary(cases, default_, summary) && summary == Summary(cases, default_)
  {
    if cases == [] {
      return default_;
    }
    summary := cases[0].verdict;
    var priority := Priority(summary);
    ghost var k := 0;
    for i := 0 to |cases|
      invariant 0 <= k < |cases| && (k < i || k == 0)
      invariant summary == cases[k].verdict && priority == Priority(summary)
      invariant forall j :: 0 <= j < k ==> Priority(cases[j].verdict) < priority
      invariant forall j :: k <= j < i ==> Priority(cases[j].verdict) <= priority
    {
      var current := Priority(cases[i].verdict);
      if current > priority {
        summary, priority := cases[i].verdict, current;
        k := i;
      }
    }
    assert FirstHighest(cases, k);
    SummaryUnique(cases, default_, summary, Summary(cases, default_));
  }

  /** There is only one summary. */
  lemma SummaryUnique(cases: seq<CaseResult>, default_: Verdict, u: Verdict, v: Verdict)
    requires IsSummary(cases, default_, u) && IsSummary(cases, default_, v)
    ensures u == v
  {
    if cases != [] {
      var i :| FirstHighest(cases, i) && u == cases[i].verdict;
      var j :| FirstHighest(cases, j) && v == cases[j].verdict;
    }
  }

  /** There always is one. */
  lemma {:induction false} SummaryExists(cases: seq<CaseResult>, default_: Verdict) returns (v: Verdict)
    ensures IsSummary(cases, default_, v)
  {
    if cases == [] {
      return default_;
    }
    var k := Highest(cases);
    v := cases[k].verdict;
  }

  lemma {:induction false} Highest(cases: seq<CaseResult>) returns (k: nat)
    requires cases != []
    ensures FirstHighest(cases, k)
  {
    if |cases| == 1 {
      return 0;
    }
    var front := cases[..|cases| - 1];
    k := Highest(front);
    assert forall j :: 0 <= j < |front| ==> cases[j] == front[j];
    if Priority(cases[|cases| - 1].verdict) > Priority(cases[k].verdict) {
      k := |cases| - 1;
    }
  }

  /** The summary as a value. */
  ghost function Summary(cases: seq<CaseResult>, default_: Verdict): (v: Verdict)
    ensures IsSummary(cases, default_, v)
  {
    SummaryNotEmpty(cases, default_);
    var v :| IsSummary(cases, default_, v);
    v
  }

  lemma SummaryNotEmpty(cases: seq<CaseResult>, default_: Verdict)
    ensures exists v :: IsSummary(cases, default_, v)
  {
    var v := SummaryExists(cases, default_);
  }

  /** Accepted exactly when some case was accepted and every other is accepted or pending. */
  lemma AcceptedExactly(cases: seq<CaseResult>, default_: Verdict)
    requires cases != []
    ensures Summary(cases, default_) == AC <==> SomeAccepted(cases) && NoneRejected(cases)
  {
    var v := Summary(cases, default_);
    assert IsSummary(cases, default_, v);
    var k :| FirstHighest(cases, k) && v == cases[k].verdict;
    TopAccepted(cases, k);
  }

  ghost predicate SomeAccepted(cases: seq<CaseResult>) {
    exists k :: 0 <= k < |cases| && cases[k].verdict == AC
  }

  ghost predicate NoneRejected(cases: seq<CaseResult>) {
    forall k :: 0 <= k < |cases| ==> cases[k].verdict == AC || cases[k].verdict == Pending
  }

  lemma TopAccepted(cases: seq<CaseResult>, k: nat)
    requires FirstHighest(cases, k)
    ensures cases[k].verdict == AC <==> SomeAccepted(cases) && NoneRejected(cases)
  {
    if cases[k].verdict == AC {
      forall j | 0 <= j < |cases|
        ensures cases[j].verdict == AC || cases[j].verdict == Pending
      {
        assert Priority(cases[j].verdict) <= Priority(cases[k].verdict);
      }
    } else if SomeAccepted(cases) {
      var j :| 0 <= j < |cases| && cases[j].verdict == AC;
      assert Priority(cases[j].verdict) <= Priority(cases[k].verdict);
      assert cases[k].verdict != Pending;
    }
  }

  ghost predicate Has(cases: seq<CaseResult>, v: Verdict) {
    exists k :: 0 <= k < |cases| && cases[k].verdict == v
  }

  /** The documented precedence: a compile error covers everything, then a system error, then
      a timeout; an unknown verdict shows only when nothing is worse than accepted. */
  lemma WorstWins(cases: seq<CaseResult>, default_: Verdict)
    requires cases != []
    ensures Summary(cases, default_) == CE <==> Has(cases, CE)
    ensures Summary(cases, default_) == SystemError <==> Has(cases, SystemError) && !Has(cases, CE)
    ensures Summary(cases, default_) == TLE <==> Has(cases, TLE) && !Has(cases, SystemError) && !Has(cases, CE)
    ensures Summary(cases, default_) == Unknown <==>
              Has(cases, Unknown) && forall k :: 0 <= k < |cases| ==> cases[k].verdict in {Unknown, AC, Pending}
    ensures Summary(cases, default_) in {WA, PE} ==>
              forall k :: 0 <= k < |cases| ==> cases[k].verdict in {WA, PE, Unknown, AC, Pending}
  {
    var v := Summary(cases, default_);
    assert IsSummary(cases, default_, v);
    var k :| FirstHighest(cases, k) && v == cases[k].verdict;
    TopRank(cases, k);
  }

  lemma TopRank(cases: seq<CaseResult>, k: nat)
    requires FirstHighest(cases, k)
    ensures Has(cases, cases[k].verdict)
    ensures forall v :: Has(cases, v) ==> Priority(v) <= Priority(cases[k].verdict)
    ensures forall j :: 0 <= j < |cases| ==> Priority(cases[j].verdict) <= Priority(cases[k].verdict)
  {
    forall j | 0 <= j < |cases|
      ensures Priority(cases[j].verdict) <= Priority(cases[k].verdict)
    {
    }
  }

  /** The documented order, worst first; the verdicts of one class rank alike. */
  function Class(v: Verdict): (k: nat)
    ensures k < 8
  {
    match v
    case CE => 0
    case SystemError => 1
    case TLE => 2
    case RE => 3
    case MLE => 3
    case OLE => 3
    case WA => 4
    case PE => 4
    case Unknown => 5
    case AC => 6
    case Pending => 7
  }

  /** The summary is the verdict of the first case in the worst class present. */
  lemma SummaryByClass(cases: seq<CaseResult>, default_: Verdict, k: nat)
    requires k < |cases|
    requires forall j :: 0 <= j < |cases| ==> Class(cases[k].verdict) <= Class(cases[j].verdict)
    requires forall j :: 0 <= j < k ==> Class(cases[k].verdict) != Class(cases[j].verdict)
    ensures Summary(cases, default_) == cases[k].verdict
  {
    ClassesRank();
    assert FirstHighest(cases, k);
    SummaryUnique(cases, default_, Summary(cases, default_), cases[k].verdict);
  }

  lemma ClassesRank()
    ensures forall u: Verdict, v: Verdict :: Class(u) < Class(v) <==> Priority(u) > Priority(v)
    ensures forall u: Verdict, v: Verdict :: Class(u) == Class(v) <==> Priority(u) == Priority(v)
  {
  }

  // ---------- Order ----------

  /** All verdicts of the highest rank present are the same one. */
  ghost predicate OneTopVerdict(cases: seq<CaseResult>) {
    forall i, j :: 0 <= i < |cases| && 0 <= j < |cases| && IsTop(cases, i) && IsTop(cases, j) ==>
      cases[i].verdict == cases[j].verdict
  }

  ghost predicate IsTop(cases: seq<CaseResult>, i: int)
    requires 0 <= i < |cases|
  {
    forall j :: 0 <= j < |cases| ==> Priority(cases[j].verdict) <= Priority(cases[i].verdict)
  }

  /** The summary does not depend on the order of the cases exactly when one verdict alone
      holds the highest rank present: RE, MLE and OLE share a rank, and so do WA and PE. */
  lemma OrderIrrelevantExactly(cases: seq<CaseResult>, default_: Verdict)
    ensures OneTopVerdict(cases) <==>
            forall other :: multiset(other) == multiset(cases) ==> Summary(other, default_) == Summary(cases, default_)
  {
    if OneTopVerdict(cases) {
      forall other | multiset(other) == multiset(cases)
        ensures Summary(other, default_) == Summary(cases, default_)
      {
        SameTop(cases, other, default_);
      }
    } else {
      var i, j :| 0 <= i < |cases| && 0 <= j < |cases| && IsTop(cases, i) && IsTop(cases, j) && cases[i].verdict != cases[j].verdict;
      var a, b := ToFront(cases, i), ToFront(cases, j);
      FrontWins(cases, i, a, default_);
      FrontWins(cases, j, b, default_);
    }
  }

  lemma Among(a: seq<CaseResult>, b: seq<CaseResult>, k: nat)
    requires multiset(a) == multiset(b) && k < |a|
    ensures a[k] in b
  {
    assert a[k] in multiset(a);
    assert a[k] in multiset(b);
  }

  lemma SameTop(cases: seq<CaseResult>, other: seq<CaseResult>, default_: Verdict)
    requires OneTopVerdict(cases) && multiset(other) == multiset(cases)
    ensures Summary(other, default_) == Summary(cases, default_)
  {
    assert |other| == |multiset(other)| == |multiset(cases)| == |cases|;
    var u, v := Summary(other, default_), Summary(cases, default_);
    assert IsSummary(other, default_, u) && IsSummary(cases, default_, v);
    if cases != [] {
      var i :| FirstHighest(cases, i) && v == cases[i].verdict;
      var k :| FirstHighest(other, k) && u == other[k].verdict;
      var j := SameTopAt(cases, other, k);
      assert IsTop(cases, i) && IsTop(cases, j);
    }
  }

  lemma SameTopAt(cases: seq<CaseResult>, other: seq<CaseResult>, k: nat) returns (j: nat)
    requires multiset(other) == multiset(cases) && FirstHighest(other, k)
    ensures j < |cases| && cases[j] == other[k] && IsTop(cases, j)
  {
    Among(other, cases, k);
    j :| 0 <= j < |cases| && cases[j] == other[k];
    forall m | 0 <= m < |cases|
      ensures Priority(cases[m].verdict) <= Priority(cases[j].verdict)
    {
      Among(cases, other, m);
      var n :| 0 <= n < |other| && other[n] == cases[m];
    }
  }

  function ToFront(cases: seq<CaseResult>, i: nat): seq<CaseResult>
    requires i < |cases|
  {
    [cases[i]] + cases[..i] + cases[i + 1..]
  }

  lemma FrontWins(cases: seq<CaseResult>, i: nat, moved: seq<CaseResult>, default_: Verdict)
    requires i < |cases| && IsTop(cases, i) && moved == ToFront(cases, i)
    ensures multiset(moved) == multiset(cases) && Summary(moved, default_) == cases[i].verdict
  {
    assert cases == cases[..i] + [cases[i]] + cases[i + 1..];
    forall j | 0 <= j < |moved|
      ensures Priority(moved[j].verdict) <= Priority(moved[0].verdict)
    {
      Among(moved, cases, j);
    }
    assert FirstHighest(moved, 0);
    SummaryUnique(moved, default_, Summary(moved, default_), moved[0].verdict);
  }

  /** Two cases where the order decides. */
  lemma OrderCanDecide(re: CaseResult, mle: CaseResult)
    requires re.verdict == RE && mle.verdict == MLE
    ensures Summary([re, mle], Pending) == RE && Summary([mle, re], Pending) == MLE
  {
    assert FirstHighest([re, mle], 0) && FirstHighest([mle, re], 0);
    SummaryUnique([re, mle], Pending, Summary([re, mle], Pending), RE);
    SummaryUnique([mle, re], Pending, Summary([mle, re], Pending), MLE);
  }
}
