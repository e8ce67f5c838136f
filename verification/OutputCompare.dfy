/** The two ways of comparing outputs: the streaming line checker, and the comparison of
    normalised lines that stands in for it when it is not installed. */
module OutputCompare {
  import opened Submissions
  import opened InStreams
  import opened Trimming
  import opened Fcmp2s

  // ---------- Normalised lines ----------

  function LineEnd(text: seq<int>): (n: nat)
    ensures n <= |text| && (n < |text| ==> text[n] == LF)
    ensures forall k :: 0 <= k < n ==> text[k] != LF
  {
    if text == [] || text[0] == LF then 0 else 1 + LineEnd(text[1..])
  }

  /** What `getline` leaves after the first line. */
  function Rest(text: seq<int>): seq<int> {
    if LineEnd(text) == |text| then [] else text[LineEnd(text) + 1..]
  }

  /** The lines `getline` delivers, each trimmed. A final line end starts no further line. */
  function TrimmedLines(text: seq<int>): seq<seq<int>>
    decreases |text|
  {
    if text == [] then [] else [Trimmed(text[..LineEnd(text)], BUILTIN_DROPS)] + TrimmedLines(Rest(text))
  }

  function WithoutTrailingEmpty(lines: seq<seq<int>>): seq<seq<int>> {
    if lines != [] && lines[|lines| - 1] == [] then WithoutTrailingEmpty(lines[..|lines| - 1]) else lines
  }

  function Normalized(text: seq<int>): seq<seq<int>> {
    WithoutTrailingEmpty(TrimmedLines(text))
  }

  method GetLine(text: seq<int>, from: nat) returns (ok: bool, line: seq<int>, next: nat)
    requires from <= |text|
    ensures ok == (from < |text|)
    ensures ok ==> line == text[from..][..LineEnd(text[from..])] && from < next <= |text| && text[next..] == Rest(text[from..])
  {
    if from == |text| {
      return false, [], from;
    }
    var i := from;
    while i < |text| && text[i] != LF
      invariant from <= i <= |text|
      invariant i - from + LineEnd(text[i..]) == LineEnd(text[from..])
      decreases |text| - i
    {
      assert text[i..][1..] == text[i + 1..];
      i := i + 1;
    }
    ok, line := true, text[from..i];
    next := if i < |text| then i + 1 else i;
  }

  method NormalizeOutputLines(text: seq<int>) returns (lines: seq<seq<int>>)
    ensures lines == Normalized(text)
  {
    lines := TrimAllLines(text);
    while lines != [] && lines[|lines| - 1] == []
      invariant WithoutTrailingEmpty(lines) == Normalized(text)
      decreases |lines|
    {
      lines := lines[..|lines| - 1];
    }
  }

  method TrimAllLines(text: seq<int>) returns (lines: seq<seq<int>>)
    ensures lines == TrimmedLines(text)
  {
    lines := [];
    var from := 0;
    assert text[0..] == text;
    while from < |text|
      invariant 0 <= from <= |text|
      invariant lines + TrimmedLines(text[from..]) == TrimmedLines(text)
      decreases |text| - from
    {
      var _, line, next := GetLine(text, from);
      var trimmed := TrimLineRight(line);
      MoveLine(lines, text[from..], TrimmedLines(text));
      lines := lines + [trimmed];
      from := next;
    }
  }

  lemma MoveLine(done: seq<seq<int>>, text: seq<int>, all: seq<seq<int>>)
    requires text != [] && done + TrimmedLines(text) == all
    ensures done + [Trimmed(text[..LineEnd(text)], BUILTIN_DROPS)] + TrimmedLines(Rest(text)) == all
  {
  }

  /** The k-th line, trimmed; past the end every line is empty. */
  function LineAt(text: seq<int>, k: nat): seq<int> {
    if k < |TrimmedLines(text)| then TrimmedLines(text)[k] else []
  }

  /** Equal normal forms mean that the texts agree line by line for ever. */
  lemma NormalizedEqualExactly(a: seq<int>, b: seq<int>)
    ensures Normalized(a) == Normalized(b) <==> forall k: nat :: LineAt(a, k) == LineAt(b, k)
  {
    NormalizedAt(a);
    NormalizedAt(b);
    if forall k: nat :: LineAt(a, k) == LineAt(b, k) {
      SameIfSameEverywhere(Normalized(a), Normalized(b));
    }
  }

  function At(lines: seq<seq<int>>, k: nat): seq<int> {
    if k < |lines| then lines[k] else []
  }

  lemma NormalizedAt(text: seq<int>)
    ensures forall k: nat :: LineAt(text, k) == At(Normalized(text), k)
    ensures Normalized(text) != [] ==> Normalized(text)[|Normalized(text)| - 1] != []
  {
    TrailingOnly(TrimmedLines(text));
  }

  lemma SameIfSameEverywhere(m: seq<seq<int>>, n: seq<seq<int>>)
    requires m != [] ==> m[|m| - 1] != []
    requires n != [] ==> n[|n| - 1] != []
    requires forall k: nat :: At(m, k) == At(n, k)
    ensures m == n
  {
    assert m != [] ==> At(m, |m| - 1) == At(n, |m| - 1);
    assert n != [] ==> At(m, |n| - 1) == At(n, |n| - 1);
    assert |m| == |n|;
    assert forall k :: 0 <= k < |m| ==> m[k] == At(m, k) == At(n, k) == n[k];
  }

  lemma {:induction false} TrailingOnly(lines: seq<seq<int>>)
    ensures WithoutTrailingEmpty(lines) <= lines
    ensures forall k :: |WithoutTrailingEmpty(lines)| <= k < |lines| ==> lines[k] == []
    ensures WithoutTrailingEmpty(lines) != [] ==> WithoutTrailingEmpty(lines)[|WithoutTrailingEmpty(lines)| - 1] != []
  {
    if lines != [] && lines[|lines| - 1] == [] {
      TrailingOnly(lines[..|lines| - 1]);
    }
  }

  // ---------- Clean files ----------

  predicate NoLoneCr(text: seq<int>) {
    forall k :: 0 <= k < |text| ==> CrBeforeLf(text, k)
  }

  predicate CrBeforeLf(text: seq<int>, k: nat)
    requires k < |text|
  {
    text[k] == CR ==> k + 1 < |text| && text[k + 1] == LF
  }

  predicate HasEndByte(text: seq<int>) {
    EOF in text
  }

  /** Every CR is part of a line end, and no byte reads as end of file. */
  predicate Clean(text: seq<int>) {
    NoLoneCr(text) && !HasEndByte(text)
  }

  /** No line has a tab among the blanks at its end. */
  predicate TabFreeEnds(text: seq<int>)
    decreases |text|
  {
    text == [] || (!EndsInTab(text[..LineEnd(text)]) && TabFreeEnds(Rest(text)))
  }

  predicate Plain(text: seq<int>) {
    Clean(text) && TabFreeEnds(text)
  }

  lemma CleanTail(text: seq<int>, n: nat)
    requires Clean(text) && n <= |text|
    ensures Clean(text[n..]) && Cells(text[n..]) == Cells(text)[n..]
  {
    forall k | 0 <= k < |text[n..]|
      ensures CrBeforeLf(text[n..], k)
    {
      assert CrBeforeLf(text, n + k);
    }
  }

  lemma NoLoneCrIsCrLf(text: seq<int>)
    requires NoLoneCr(text)
    ensures CrLf(Cells(text))
  {
    forall k | 0 <= k < |text|
      ensures CrLfAt(Cells(text), k)
    {
      assert CrBeforeLf(text, k);
    }
  }

  lemma {:induction false} LengthsAgree(text: seq<int>)
    requires Clean(text)
    ensures
      var m, n := LineLength(Cells(text)), LineEnd(text);
      m == n || (m + 1 == n && text[m] == CR && n < |text|)
  {
    if text != [] && text[0] != LF {
      assert CrBeforeLf(text, 0) && text[0] in text;
      if text[0] == CR {
        assert LineEnd(text[1..]) == 0;
      } else {
        CleanTail(text, 1);
        LengthsAgree(text[1..]);
      }
    }
  }

  /** On a clean text the stream's line is `getline`'s but for a final CR. */
  lemma LinesAgree(text: seq<int>)
    requires Clean(text)
    ensures ReadLine(Cells(text)) == text[..LineEnd(text)] || ReadLine(Cells(text)) + [CR] == text[..LineEnd(text)]
    ensures forall k :: 0 <= k < |ReadLine(Cells(text))| ==> ReadLine(Cells(text))[k] == text[k]
    ensures |ReadLine(Cells(text))| <= LineEnd(text)
  {
    LengthsAgree(text);
    var m := LineLength(Cells(text));
    assert ReadLine(Cells(text)) == text[..m];
  }

  lemma RestClean(text: seq<int>)
    requires Clean(text)
    ensures Clean(Rest(text))
  {
    if LineEnd(text) < |text| {
      CleanTail(text, LineEnd(text) + 1);
    }
  }

  /** And both leave the same text behind. */
  lemma RestsAgree(text: seq<int>)
    requires Clean(text)
    ensures AfterLine(Cells(text)) == Cells(Rest(text))
  {
    LengthsAgree(text);
    var m, n := LineLength(Cells(text)), LineEnd(text);
    CleanTail(text, m);
    var tail := text[m..];
    EolnAgrees(tail, n - m);
    if n < |text| {
      assert tail[n - m + 1..] == text[n + 1..];
    }
  }

  lemma EolnAgrees(tail: seq<int>, n: nat)
    requires n <= 1 && n <= |tail| && (n == 1 ==> n < |tail| && tail[0] == CR)
    requires n < |tail| ==> tail[n] == LF
    ensures AfterEoln(Cells(tail)) == Cells(if n < |tail| then tail[n + 1..] else [])
  {
    if tail != [] {
      assert Cells(tail)[1..] == Cells(tail[1..]);
      if n == 1 {
        assert Cells(tail)[1..][1..] == Cells(tail[2..]);
      }
    }
  }

  /** On a clean text the checker compares `getline`'s line, trimmed its own way. */
  lemma CheckedLineIs(text: seq<int>)
    requires Clean(text)
    ensures CheckedLine(Cells(text)) == Trimmed(text[..LineEnd(text)], CHECKER_DROPS)
  {
    LinesAgree(text);
    var line := ReadLine(Cells(text));
    assert (line + [CR])[..|line|] == line;
  }

  /** Putting a trimmed line before a normal form. */
  function Before(line: seq<int>, lines: seq<seq<int>>): seq<seq<int>> {
    if line == [] && lines == [] then [] else [line] + lines
  }

  lemma {:induction false} TrailingAfterFirst(first: seq<int>, lines: seq<seq<int>>)
    ensures WithoutTrailingEmpty([first] + lines) == Before(first, WithoutTrailingEmpty(lines))
  {
    if lines != [] && lines[|lines| - 1] == [] {
      TrailingAfterFirst(first, lines[..|lines| - 1]);
      assert ([first] + lines)[..|lines|] == [first] + lines[..|lines| - 1];
    } else if lines == [] {
      assert [first] + lines == [first];
    }
  }

  function FirstLine(text: seq<int>): (line: seq<int>)
    ensures LF !in line
  {
    text[..LineEnd(text)]
  }

  function FirstTrimmed(text: seq<int>): seq<int> {
    Trimmed(FirstLine(text), BUILTIN_DROPS)
  }

  function FirstChecked(text: seq<int>): seq<int> {
    Trimmed(FirstLine(text), CHECKER_DROPS)
  }

  /** Normalising line by line; also right for the empty text. */
  lemma NormalizedStep(text: seq<int>)
    ensures Normalized(text) == Before(FirstTrimmed(text), Normalized(Rest(text)))
  {
    if text != [] {
      TrailingAfterFirst(FirstTrimmed(text), TrimmedLines(Rest(text)));
    }
  }

  predicate AllBlank(text: seq<int>) {
    forall k :: 0 <= k < |text| ==> IsBlank(text[k])
  }

  lemma {:induction false} BlanksAhead(text: seq<int>)
    requires Clean(text)
    ensures OnlyBlanksAhead(Cells(text)) <==> AllBlank(text)
  {
    if text != [] {
      assert text[0] in text;
      CleanTail(text, 1);
      BlanksAhead(text[1..]);
      assert text == [text[0]] + text[1..];
    }
  }

  lemma {:induction false} BlankNormal(text: seq<int>)
    ensures AllBlank(text) <==> Normalized(text) == []
    decreases |text|
  {
    if text != [] {
      var n := LineEnd(text);
      NormalizedStep(text);
      BlankNormal(Rest(text));
      BlankLine(text[..n]);
      SplitBlank(text, n);
    }
  }

  lemma BlankLine(line: seq<int>)
    requires forall k :: 0 <= k < |line| ==> line[k] != LF
    ensures AllBlank(line) <==> Trimmed(line, BUILTIN_DROPS) == []
  {
    var r := Trimmed(line, BUILTIN_DROPS);
    if r != [] {
      assert r[|r| - 1] == line[|r| - 1];
    }
  }

  lemma SplitBlank(text: seq<int>, n: nat)
    requires n <= |text| && (n < |text| ==> text[n] == LF)
    ensures AllBlank(text) <==> AllBlank(text[..n]) && AllBlank(if n < |text| then text[n + 1..] else [])
  {
    if n < |text| {
      assert text == text[..n] + [text[n]] + text[n + 1..];
    } else {
      assert text == text[..n];
    }
  }

  lemma BlanksAgree(text: seq<int>)
    requires Clean(text)
    ensures OnlyBlanksAhead(Cells(text)) <==> Normalized(text) == []
  {
    BlanksAhead(text);
    BlankNormal(text);
  }

  // ---------- Line by line ----------

  /** What the checker compares, over `getline`'s lines. */
  lemma ComparedByLines(answer: seq<int>)
    requires Clean(answer)
    ensures CrLf(Cells(answer)) && CrLf(Cells(Rest(answer))) && Clean(Rest(answer))
    ensures ComparedLines(Cells(answer)) ==
            if answer == [] || (FirstChecked(answer) == [] && Rest(answer) == []) then []
            else [FirstChecked(answer)] + ComparedLines(Cells(Rest(answer)))
  {
    NoLoneCrIsCrLf(answer);
    RestClean(answer);
    NoLoneCrIsCrLf(Rest(answer));
    ComparedStep(Cells(answer));
    if answer != [] {
      assert answer[0] in answer;
      CheckedLineIs(answer);
      RestsAgree(answer);
      assert Rest(answer) != [] ==> Rest(answer)[0] in Rest(answer);
      assert Cur(Cells(Rest(answer))) == EOF <==> Rest(answer) == [];
    }
  }

  lemma MatchesByLines(lines: seq<seq<int>>, output: seq<int>)
    requires Clean(output)
    ensures Matches(lines, Cells(output)) <==>
            if lines == [] then Normalized(output) == []
            else lines[0] == FirstChecked(output) && Matches(lines[1..], Cells(Rest(output)))
  {
    BlanksAgree(output);
    CheckedLineIs(output);
    RestsAgree(output);
  }

  lemma NormalFormsStep(answer: seq<int>, output: seq<int>)
    ensures Normalized(answer) == Normalized(output) <==>
            FirstTrimmed(answer) == FirstTrimmed(output) && Normalized(Rest(answer)) == Normalized(Rest(output))
    ensures FirstTrimmed(answer) == [] && Rest(answer) == [] ==> Normalized(answer) == []
  {
    NormalizedStep(answer);
    NormalizedStep(output);
    BeforeInjective(FirstTrimmed(answer), Normalized(Rest(answer)), FirstTrimmed(output), Normalized(Rest(output)));
  }

  lemma BeforeInjective(a: seq<int>, m: seq<seq<int>>, b: seq<int>, n: seq<seq<int>>)
    ensures Before(a, m) == Before(b, n) <==> a == b && m == n
  {
    if Before(a, m) == Before(b, n) && Before(a, m) != [] {
      assert a == Before(a, m)[0] && m == Before(a, m)[1..];
      assert b == Before(b, n)[0] && n == Before(b, n)[1..];
    }
  }

  /** On clean files, tabs or not, the checker is the stricter of the two. */
  lemma {:induction false} CheckerIsStricter(answer: seq<int>, output: seq<int>)
    requires Clean(answer) && Clean(output)
    ensures CrLf(Cells(answer))
    ensures Matches(ComparedLines(Cells(answer)), Cells(output)) ==> Normalized(answer) == Normalized(output)
    decreases |answer|
  {
    ComparedByLines(answer);
    var lines := ComparedLines(Cells(answer));
    MatchesByLines(lines, output);
    NormalFormsStep(answer, output);
    TrimmedFurther(FirstLine(answer));
    TrimmedFurther(FirstLine(output));
    if lines != [] && Matches(lines, Cells(output)) {
      RestClean(output);
      CheckerIsStricter(Rest(answer), Rest(output));
    }
  }

  /** Where neither file has tabs at the end of a line, they agree. */
  lemma {:induction false} PlainFilesAgree(answer: seq<int>, output: seq<int>)
    requires Plain(answer) && Plain(output)
    ensures CrLf(Cells(answer))
    ensures Matches(ComparedLines(Cells(answer)), Cells(output)) <==> Normalized(answer) == Normalized(output)
    decreases |answer|
  {
    CheckerIsStricter(answer, output);
    ComparedByLines(answer);
    MatchesByLines(ComparedLines(Cells(answer)), output);
    if Normalized(answer) == Normalized(output) && answer != [] {
      NormalFormsStep(answer, output);
      TrimmingsAgreeExactly(FirstLine(answer));
      if output != [] {
        TrimmingsAgreeExactly(FirstLine(output));
      }
      PlainTail(output);
      PlainFilesAgree(Rest(answer), Rest(output));
    }
  }

  lemma PlainTail(text: seq<int>)
    requires Plain(text)
    ensures Plain(Rest(text))
  {
    RestClean(text);
  }

  // ---------- The runner's comparison ----------

  /** Whether `fcmp2` is installed, and then how many ends of file its reader can put back on
      either file. */
  datatype Checker = Missing | Installed(answerLeft: nat, outputLeft: nat)

  function Start(checker: Checker, expected: seq<int>, output: seq<int>): Streams
    requires checker.Installed?
  {
    Streams(Cells(expected), checker.answerLeft, Cells(output), checker.outputLeft)
  }

  /** The comparison comes to an end; `Fcmp2s.HaltsExactly` says when. */
  ghost predicate Compares(checker: Checker, expected: seq<int>, output: seq<int>) {
    checker.Installed? ==> Halts(Start(checker, expected, output))
  }

  ghost function CompareVerdict(checker: Checker, expected: seq<int>, output: seq<int>): Verdict {
    if (if checker.Installed? then Accepts(Start(checker, expected, output)) else Normalized(expected) == Normalized(output)) then AC
    else WA
  }

  /** `compare_case_output`: the checker if it is installed, the built-in comparison if not. */
  method CompareCaseOutput(checker: Checker, expected: seq<int>, output: seq<int>) returns (verdict: Verdict)
    requires Compares(checker, expected, output)
    ensures verdict == CompareVerdict(checker, expected, output)
  {
    if checker.Installed? {
      var accepted := Fcmp2(expected, checker.answerLeft, output, checker.outputLeft);
      return if accepted then AC else WA;
    }
    var a := NormalizeOutputLines(expected);
    var b := NormalizeOutputLines(output);
    verdict := if a == b then AC else WA;
  }

  /** The installed checker on an expected file whose CRs are all part of line ends. */
  lemma CheckerVerdict(checker: Checker, expected: seq<int>, output: seq<int>)
    requires checker.Installed? && NoLoneCr(expected)
    ensures CrLf(Cells(expected)) && Compares(checker, expected, output)
    ensures NoLoneCr(output) ==>
              (CompareVerdict(checker, expected, output) == AC <==> Matches(ComparedLines(Cells(expected)), Cells(output)))
  {
    NoLoneCrIsCrLf(expected);
    HaltsExactly(Start(checker, expected, output));
    CrLfHalts(Cells(expected), Cells(output));
    CrLfReached(Cells(expected));
    if NoLoneCr(output) {
      NoLoneCrIsCrLf(output);
      AcceptsByLines(Start(checker, expected, output));
    }
  }

  /** On plain files the verdict does not depend on whether the checker is installed: AC
      exactly when the files agree line by line after trimming. */
  lemma VerdictIndependentOfChecker(checker: Checker, expected: seq<int>, output: seq<int>)
    requires Plain(expected) && Plain(output)
    ensures Compares(checker, expected, output)
    ensures CompareVerdict(checker, expected, output) ==
            if forall k: nat :: LineAt(expected, k) == LineAt(output, k) then AC else WA
  {
    PlainFilesAgree(expected, output);
    NormalizedEqualExactly(expected, output);
    if checker.Installed? {
      CheckerVerdict(checker, expected, output);
    }
  }

  /** With tabs anywhere, a file the checker accepts is one the built-in comparison accepts. */
  lemma CheckerAcceptsLess(checker: Checker, expected: seq<int>, output: seq<int>)
    requires Clean(expected) && Clean(output) && CompareVerdict(checker, expected, output) == AC
    ensures CompareVerdict(Missing, expected, output) == AC
  {
    if checker.Installed? {
      CheckerVerdict(checker, expected, output);
      CheckerIsStricter(expected, output);
    }
  }
}
