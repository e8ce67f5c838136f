/** The streaming line checker `fcmp2` on any two files: what one pass of its loop does, when
    the loop ends, and what it answers. */
module Fcmp2s {
  import opened Wrappers
  import opened InStreams
  import opened Trimming

  /** The two streams between passes. */
  datatype Streams = Streams(ans: seq<Cell>, ansLeft: nat, ouf: seq<Cell>, oufLeft: nat)

  datatype Pass = Ended(accepted: bool) | Onward(next: Streams)

  function CheckedLine(rest: seq<Cell>): seq<int> {
    Trimmed(ReadLine(rest), CHECKER_DROPS)
  }

  /** One pass; a failing put-back ends the program with a rejection. */
  function OnePass(s: Streams): Pass {
    if Cur(s.ans) == EOF then Ended(OnlyBlanksAhead(s.ouf))
    else if PutsBackEof(s.ans) && s.ansLeft == 0 then Ended(false)
    else if CheckedLine(s.ans) == [] && Cur(AfterLine(s.ans)) == EOF then Ended(OnlyBlanksAhead(s.ouf))
    else if PutsBackEof(s.ouf) && s.oufLeft == 0 then Ended(false)
    else if CheckedLine(s.ans) != CheckedLine(s.ouf) then Ended(false)
    else Onward(Streams(AfterLine(s.ans), PutBacksAfter(s.ans, s.ansLeft), AfterLine(s.ouf), PutBacksAfter(s.ouf, s.oufLeft)))
  }

  ghost predicate EndsIn(s: Streams, n: nat)
    decreases n
  {
    match OnePass(s)
    case Ended(_) => true
    case Onward(next) => n > 0 && EndsIn(next, n - 1)
  }

  ghost predicate AcceptsIn(s: Streams, n: nat)
    decreases n
  {
    match OnePass(s)
    case Ended(accepted) => accepted
    case Onward(next) => n > 0 && AcceptsIn(next, n - 1)
  }

  /** The loop comes to an end. */
  ghost predicate Halts(s: Streams) {
    exists n: nat :: EndsIn(s, n)
  }

  /** It ends with the answer "ok". */
  ghost predicate Accepts(s: Streams) {
    exists n: nat :: AcceptsIn(s, n)
  }

  lemma AcceptsOnward(s: Streams)
    ensures match OnePass(s) { case Ended(accepted) => Accepts(s) == accepted case Onward(next) => Accepts(s) == Accepts(next) }
  {
    match OnePass(s) {
      case Ended(accepted) =>
        assert accepted ==> AcceptsIn(s, 0);
      case Onward(next) =>
        if n: nat :| AcceptsIn(s, n) {
          assert AcceptsIn(next, n - 1);
        }
        if n: nat :| AcceptsIn(next, n) {
          assert AcceptsIn(s, n + 1);
        }
    }
  }

  /** `fcmp2`. How many ends of file each stream can put back depends on where they are in the
      reader's buffer; it is arbitrary here. */
  method Fcmp2(answer: seq<int>, answerLeft: nat, output: seq<int>, outputLeft: nat) returns (accepted: bool)
    requires Halts(Streams(Cells(answer), answerLeft, Cells(output), outputLeft))
    ensures accepted == Accepts(Streams(Cells(answer), answerLeft, Cells(output), outputLeft))
  {
    var ans := new InStream(answer, answerLeft);
    var ouf := new InStream(output, outputLeft);
    ghost var start := Streams(ans.rest, ans.putBacks, ouf.rest, ouf.putBacks);
    ghost var passes: nat :| EndsIn(start, passes);
    while true
      invariant ans != ouf
      invariant EndsIn(Streams(ans.rest, ans.putBacks, ouf.rest, ouf.putBacks), passes)
      invariant Accepts(Streams(ans.rest, ans.putBacks, ouf.rest, ouf.putBacks)) == Accepts(start)
      decreases passes
    {
      AcceptsOnward(Streams(ans.rest, ans.putBacks, ouf.rest, ouf.putBacks));
      var done := ans.Eof();
      if done {
        break;
      }
      var line := ans.ReadString();
      if line.None? {
        return false;
      }
      var j := DelLineBackSpace(line.value);
      done := ans.Eof();
      if j == [] && done {
        break;
      }
      var other := ouf.ReadString();
      if other.None? {
        return false;
      }
      var p := DelLineBackSpace(other.value);
      if j != p {
        return false;
      }
      passes := passes - 1;
    }
    accepted := ouf.SeekEof();
  }

  // ---------- When the loop ends ----------

  function Tail(rest: seq<Cell>): seq<Cell> {
    rest[LineLength(rest)..]
  }

  /** At a CR with an ordinary character behind it. */
  predicate Stalled(tail: seq<Cell>) {
    |tail| > 1 && tail[0] == Char(CR) && tail[1].Char? && tail[1].code != LF && tail[1].code != EOF
  }

  /** A place a stream never leaves: a stall, or a true end of file. */
  predicate Fixed(tail: seq<Cell>) {
    tail == [] || tail[0].EofMark? || Stalled(tail)
  }

  /** Every line still to be read is blank, and reading them never fails. */
  predicate BlankForever(rest: seq<Cell>)
    decreases |rest|
  {
    && CheckedLine(rest) == []
    && (Fixed(Tail(rest)) ||
        (!PutsBackEof(rest) && (Moves(rest); BlankForever(AfterLine(rest)))))
  }

  /** The files agree line by line up to a stall of the expected one, and from there on the
      output holds nothing but blank lines. */
  predicate Diverges(ans: seq<Cell>, ouf: seq<Cell>)
    decreases |ans|
  {
    && Cur(ans) != EOF && !PutsBackEof(ans) && !PutsBackEof(ouf) && CheckedLine(ans) == CheckedLine(ouf)
    && if Stalled(Tail(ans)) then BlankForever(AfterLine(ouf))
       else !(CheckedLine(ans) == [] && Cur(AfterLine(ans)) == EOF) && (LeavesLine(ans); Diverges(AfterLine(ans), AfterLine(ouf)))
  }

  lemma Moves(rest: seq<Cell>)
    requires !PutsBackEof(rest) && !Fixed(Tail(rest))
    ensures |AfterLine(rest)| < |rest|
  {
    var tail := Tail(rest);
    assert IsEoln(Cur(tail)) || Cur(tail) == EOF;
    if Cur(tail) == CR {
      assert tail[1..][1..] == tail[2..];
    }
  }

  lemma LeavesLine(rest: seq<Cell>)
    requires Cur(rest) != EOF && !PutsBackEof(rest) && !Stalled(Tail(rest))
    ensures |AfterLine(rest)| < |rest|
  {
    var tail := Tail(rest);
    if Fixed(tail) {
      assert LineLength(rest) > 0;
      assert AfterEoln(tail) == tail;
    } else {
      Moves(rest);
    }
  }

  lemma FixedStays(rest: seq<Cell>)
    requires Fixed(Tail(rest))
    ensures AfterLine(rest) == Tail(rest) && !PutsBackEof(rest)
    ensures Tail(Tail(rest)) == Tail(rest) && ReadLine(Tail(rest)) == []
  {
    var tail := Tail(rest);
    assert LineLength(tail) == 0;
    if Stalled(tail) {
      assert AfterEoln(tail) == [tail[0], tail[1]] + tail[2..] == tail by {
        assert tail[1..][1..] == tail[2..];
      }
    }
  }

  /** A CR before an end of file is met again at every reading. */
  lemma PutsBackAgain(rest: seq<Cell>)
    requires PutsBackEof(rest)
    ensures PutsBackEof(AfterLine(rest)) && Cur(AfterLine(rest)) == CR
  {
    var next := AfterLine(rest);
    assert next[0] == Char(CR) && next[1..][0] == EofMark;
    assert LineLength(next) == 0 && next[0..] == next;
  }

  lemma BlankStays(rest: seq<Cell>)
    requires BlankForever(rest)
    ensures !PutsBackEof(rest) && BlankForever(AfterLine(rest))
  {
    if Fixed(Tail(rest)) {
      FixedStays(rest);
    }
  }

  lemma DivergesOnward(s: Streams) returns (next: Streams)
    requires Diverges(s.ans, s.ouf)
    ensures OnePass(s) == Onward(next) && Diverges(next.ans, next.ouf)
  {
    next := OnePass(s).next;
    if Stalled(Tail(s.ans)) {
      FixedStays(s.ans);
      FixedStays(next.ans);
      BlankStays(next.ouf);
    }
  }

  lemma {:induction false} DivergingNeverEnds(s: Streams, n: nat)
    requires Diverges(s.ans, s.ouf)
    ensures !EndsIn(s, n)
    decreases n
  {
    var next := DivergesOnward(s);
    if n > 0 {
      DivergingNeverEnds(next, n - 1);
    }
  }

  lemma EndsOneLater(s: Streams, next: Streams, n: nat)
    requires OnePass(s) == Onward(next) && EndsIn(next, n)
    ensures EndsIn(s, n + 1)
  {
  }

  /** A stream that has to put back an end of file fails in the end. */
  lemma {:induction false} PuttingBackEnds(s: Streams) returns (n: nat)
    requires PutsBackEof(s.ans) || PutsBackEof(s.ouf)
    ensures EndsIn(s, n)
    decreases if PutsBackEof(s.ans) then 0 else 1, if PutsBackEof(s.ans) then s.ansLeft else s.oufLeft
  {
    n := 0;
    if OnePass(s).Onward? {
      var next := OnePass(s).next;
      if PutsBackEof(s.ans) {
        PutsBackAgain(s.ans);
      } else {
        PutsBackAgain(s.ouf);
      }
      var m := PuttingBackEnds(next);
      EndsOneLater(s, next, m);
      n := m + 1;
    }
  }

  /** From a stall of the expected file on, a line of the output that is not blank, or one that
      cannot be read, ends the loop. */
  lemma {:induction false} StallEnds(s: Streams) returns (n: nat)
    requires Stalled(s.ans) && !BlankForever(s.ouf)
    ensures EndsIn(s, n)
    decreases |s.ouf|
  {
    n := 0;
    StalledIsFixed(s.ans);
    if PutsBackEof(s.ouf) {
      n := PuttingBackEnds(s);
    } else if OnePass(s).Onward? {
      var next := OnePass(s).next;
      Moves(s.ouf);
      var m := StallEnds(next);
      EndsOneLater(s, next, m);
      n := m + 1;
    }
  }

  lemma StalledIsFixed(tail: seq<Cell>)
    requires Stalled(tail)
    ensures Tail(tail) == tail && AfterLine(tail) == tail && ReadLine(tail) == [] && Cur(tail) != EOF && !PutsBackEof(tail)
  {
    assert LineLength(tail) == 0 && tail[0..] == tail;
    FixedStays(tail);
  }

  lemma {:induction false} OthersEnd(s: Streams) returns (n: nat)
    requires !Diverges(s.ans, s.ouf)
    ensures EndsIn(s, n)
    decreases |s.ans|
  {
    n := 0;
    if PutsBackEof(s.ans) || PutsBackEof(s.ouf) {
      n := PuttingBackEnds(s);
    } else if OnePass(s).Onward? {
      var next := OnePass(s).next;
      var m;
      if Stalled(Tail(s.ans)) {
        FixedStays(s.ans);
        m := StallEnds(next);
      } else {
        LeavesLine(s.ans);
        m := OthersEnd(next);
      }
      EndsOneLater(s, next, m);
      n := m + 1;
    }
  }

  /** The loop goes on for ever exactly when the files agree up to a CR in the expected one that
      an ordinary character follows, and the output then holds only blank lines. */
  lemma HaltsExactly(s: Streams)
    ensures Halts(s) <==> !Diverges(s.ans, s.ouf)
  {
    if Diverges(s.ans, s.ouf) {
      forall n: nat
        ensures !EndsIn(s, n)
      {
        DivergingNeverEnds(s, n);
      }
    } else {
      var n := OthersEnd(s);
    }
  }

  /** Such an input: a lone CR in the expected file, and an empty output. */
  lemma CheckerCanRunForever(c: int, answerLeft: nat, outputLeft: nat)
    requires c != LF && c != EOF
    ensures !Halts(Streams(Cells([CR, c]), answerLeft, Cells([]), outputLeft))
  {
    var ans := Cells([CR, c]);
    StalledIsFixed(ans);
    assert ans[0..] == ans && LineLength(ans) == 0;
    HaltsExactly(Streams(ans, answerLeft, Cells([]), outputLeft));
  }

  // ---------- What it compares ----------

  /** The lines of the expected file that the checker compares, in order, up to the end it
      sees: a byte 255 ends a line, or at the start of one the file; a blank line before the
      end is not compared. None if it meets a lone CR first, which it never gets past. */
  function Reached(ans: seq<Cell>): Option<seq<seq<int>>>
    decreases |ans|
  {
    if Cur(ans) == EOF then Some([])
    else if PutsBackEof(ans) || Stalled(Tail(ans)) then None
    else
      LeavesLine(ans);
      if CheckedLine(ans) == [] && Cur(AfterLine(ans)) == EOF then Some([])
      else
        var later := Reached(AfterLine(ans));
        if later.None? then None else Some([CheckedLine(ans)] + later.value)
  }

  /** The stream's lines are these, and then only blanks follow. */
  predicate Matches(lines: seq<seq<int>>, ouf: seq<Cell>) {
    if lines == [] then OnlyBlanksAhead(ouf)
    else lines[0] == CheckedLine(ouf) && Matches(lines[1..], AfterLine(ouf))
  }

  /** Past a lone CR there is no accepting. */
  lemma {:induction false} StuckNeverAccepts(s: Streams, n: nat)
    requires Reached(s.ans).None?
    ensures !AcceptsIn(s, n)
    decreases n
  {
    if PutsBackEof(s.ans) {
      PutsBackAgain(s.ans);
    } else if Stalled(Tail(s.ans)) {
      FixedStays(s.ans);
      StalledIsFixed(Tail(s.ans));
    }
    if n > 0 && OnePass(s).Onward? {
      StuckNeverAccepts(OnePass(s).next, n - 1);
    }
  }

  /** Against an output without lone CRs the checker accepts exactly when it reaches the end of
      the expected file and the output matches its lines. */
  lemma {:induction false} AcceptsByLines(s: Streams)
    requires CrLf(s.ouf)
    ensures Accepts(s) <==> Reached(s.ans).Some? && Matches(Reached(s.ans).value, s.ouf)
    decreases |s.ans|
  {
    AcceptsOnward(s);
    CrLfReads(s.ouf);
    if Reached(s.ans).None? {
      forall n: nat
        ensures !AcceptsIn(s, n)
      {
        StuckNeverAccepts(s, n);
      }
    } else if OnePass(s).Onward? {
      LeavesLine(s.ans);
      AcceptsByLines(OnePass(s).next);
    }
  }

  // ---------- Files without a lone CR ----------

  /** Every CR in the stream is followed by LF. */
  predicate CrLf(rest: seq<Cell>) {
    forall k :: 0 <= k < |rest| ==> CrLfAt(rest, k)
  }

  predicate CrLfAt(rest: seq<Cell>, k: nat)
    requires k < |rest|
  {
    rest[k].Char? && (rest[k].code == CR ==> k + 1 < |rest| && rest[k + 1] == Char(LF))
  }

  lemma TailCrLf(rest: seq<Cell>, n: nat)
    requires CrLf(rest) && n <= |rest|
    ensures CrLf(rest[n..])
  {
    var tail := rest[n..];
    forall k | 0 <= k < |tail|
      ensures CrLfAt(tail, k)
    {
      assert CrLfAt(rest, n + k);
    }
  }

  /** Such a stream is read without putting anything back and without a stall. */
  lemma CrLfReads(rest: seq<Cell>)
    requires CrLf(rest)
    ensures CrLf(AfterLine(rest)) && !PutsBackEof(rest) && !Stalled(Tail(rest))
    ensures Cur(rest) != EOF ==> |AfterLine(rest)| < |rest|
  {
    var tail := Tail(rest);
    TailCrLf(rest, LineLength(rest));
    assert tail != [] ==> CrLfAt(tail, 0);
    if Cur(tail) == CR {
      TailCrLf(tail, 2);
      assert tail[1..][1..] == tail[2..];
    } else if tail != [] {
      TailCrLf(tail, 1);
    }
    if Cur(rest) != EOF {
      LeavesLine(rest);
    }
  }

  lemma {:induction false} CrLfHalts(ans: seq<Cell>, ouf: seq<Cell>)
    requires CrLf(ans)
    ensures !Diverges(ans, ouf)
    decreases |ans|
  {
    CrLfReads(ans);
    if Cur(ans) != EOF {
      CrLfHalts(AfterLine(ans), AfterLine(ouf));
    }
  }

  /** It reaches its end. */
  lemma {:induction false} CrLfReached(ans: seq<Cell>)
    requires CrLf(ans)
    ensures Reached(ans).Some?
    decreases |ans|
  {
    CrLfReads(ans);
    if Cur(ans) != EOF {
      CrLfReached(AfterLine(ans));
    }
  }

  function ComparedLines(ans: seq<Cell>): (lines: seq<seq<int>>)
    requires CrLf(ans)
  {
    CrLfReached(ans);
    Reached(ans).value
  }

  lemma ComparedStep(ans: seq<Cell>)
    requires CrLf(ans)
    ensures CrLf(AfterLine(ans))
    ensures ComparedLines(ans) ==
            if Cur(ans) == EOF || (CheckedLine(ans) == [] && Cur(AfterLine(ans)) == EOF) then []
            else [CheckedLine(ans)] + ComparedLines(AfterLine(ans))
  {
    CrLfReads(ans);
    CrLfReached(ans);
    CrLfReached(AfterLine(ans));
  }
}
