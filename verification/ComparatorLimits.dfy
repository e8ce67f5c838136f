/** For which expected files the two comparisons give the same verdict on every output. */
module ComparatorLimits {
  import opened Submissions
  import opened InStreams
  import opened Trimming
  import opened Fcmp2s
  import opened OutputCompare

  ghost predicate SameVerdict(expected: seq<int>, output: seq<int>) {
    forall c: Checker :: CompareVerdict(c, expected, output) == CompareVerdict(Missing, expected, output)
  }

  predicate TabEnd(line: seq<int>) {
    line != [] && line[|line| - 1] == TAB
  }

  ghost predicate SomeTabEnd(lines: seq<seq<int>>) {
    exists i :: 0 <= i < |lines| && TabEnd(lines[i])
  }

  /** What the checker accepts, without lone CRs in the output. */
  ghost predicate CheckerMatches(expected: seq<int>, output: seq<int>) {
    var lines := Reached(Cells(expected));
    lines.Some? && Matches(lines.value, Cells(output))
  }

  lemma SameVerdictExactly(expected: seq<int>, output: seq<int>)
    requires NoLoneCr(output)
    ensures SameVerdict(expected, output) <==> (CheckerMatches(expected, output) <==> Normalized(expected) == Normalized(output))
  {
    NoLoneCrIsCrLf(output);
    forall c: Checker | c.Installed?
      ensures CompareVerdict(c, expected, output) == AC <==> CheckerMatches(expected, output)
    {
      AcceptsByLines(Start(c, expected, output));
    }
    var some := Installed(0, 0);
    assert CompareVerdict(some, expected, output) == AC <==> CheckerMatches(expected, output);
  }

  // ---------- Files made of given lines ----------

  function FileOf(lines: seq<seq<int>>): seq<int> {
    if lines == [] then [] else lines[0] + [LF] + FileOf(lines[1..])
  }

  predicate Printable(line: seq<int>) {
    LF !in line && CR !in line && EOF !in line && Trimmed(line, CHECKER_DROPS) == line
  }

  predicate AllPrintable(lines: seq<seq<int>>) {
    forall i :: 0 <= i < |lines| ==> Printable(lines[i])
  }

  lemma FileFirst(line: seq<int>, text: seq<int>)
    requires LF !in line
    ensures FirstLine(line + [LF] + text) == line && Rest(line + [LF] + text) == text
  {
    var all := line + [LF] + text;
    assert all[|line|] == LF;
    assert forall k :: 0 <= k < |line| ==> all[k] in line;
    assert LineEnd(all) == |line|;
  }

  lemma {:induction false} FileClean(lines: seq<seq<int>>)
    requires AllPrintable(lines)
    ensures CR !in FileOf(lines) && EOF !in FileOf(lines) && Clean(FileOf(lines))
    ensures !SomeTabEnd(lines) ==> Plain(FileOf(lines))
  {
    if lines != [] {
      assert Printable(lines[0]);
      assert forall i :: 0 <= i < |lines[1..]| ==> lines[1..][i] == lines[i + 1];
      FileClean(lines[1..]);
      FileFirst(lines[0], FileOf(lines[1..]));
      if !SomeTabEnd(lines) {
        assert !TabEnd(lines[0]);
      }
    }
  }

  lemma {:induction false} FileMatches(lines: seq<seq<int>>)
    requires AllPrintable(lines)
    ensures Matches(lines, Cells(FileOf(lines)))
  {
    FileClean(lines);
    MatchesByLines(lines, FileOf(lines));
    if lines != [] {
      assert Printable(lines[0]);
      assert forall i :: 0 <= i < |lines[1..]| ==> lines[1..][i] == lines[i + 1];
      FileFirst(lines[0], FileOf(lines[1..]));
      FileMatches(lines[1..]);
    }
  }

  /** Lines that the checker and the built-in comparison trim to themselves. */
  ghost predicate Neat(lines: seq<seq<int>>) {
    AllPrintable(lines) && !SomeTabEnd(lines)
  }

  lemma NeatFirst(lines: seq<seq<int>>)
    requires lines != []
    ensures Neat(lines) <==> Printable(lines[0]) && !TabEnd(lines[0]) && Neat(lines[1..])
  {
    var rest := lines[1..];
    SomeTabEndFirst(lines[0], rest);
    assert lines == [lines[0]] + rest;
    assert forall i :: 0 < i < |lines| ==> lines[i] == rest[i - 1];
    assert forall i :: 0 <= i < |rest| ==> rest[i] == lines[i + 1];
  }

  lemma NormalizedWithFirst(line: seq<int>, text: seq<int>)
    requires Printable(line) && !TabEnd(line)
    ensures Normalized(line + [LF] + text) == Before(line, Normalized(text))
  {
    FileFirst(line, text);
    NormalizedStep(line + [LF] + text);
    TrimmingsAgreeExactly(line);
  }

  lemma {:induction false} FileNormalized(lines: seq<seq<int>>)
    requires Neat(lines)
    ensures Normalized(FileOf(lines)) == WithoutTrailingEmpty(lines)
  {
    if lines != [] {
      var rest := lines[1..];
      NeatFirst(lines);
      NormalizedWithFirst(lines[0], FileOf(rest));
      FileNormalized(rest);
      TrailingAfterFirst(lines[0], rest);
      assert [lines[0]] + rest == lines;
    }
  }

  // ---------- What the comparisons look for ----------

  lemma CheckedPrintable(rest: seq<Cell>)
    ensures Printable(CheckedLine(rest))
  {
    var line := CheckedLine(rest);
    TrimmedIs(line, line, CHECKER_DROPS);
    forall k | 0 <= k < |line|
      ensures line[k] != LF && line[k] != CR && line[k] != EOF
    {
      assert line[k] == rest[k].code;
    }
  }

  lemma {:induction false} ReachedPrintable(ans: seq<Cell>)
    ensures Reached(ans).Some? ==> AllPrintable(Reached(ans).value)
    decreases |ans|
  {
    if Reached(ans).Some? && Reached(ans).value != [] {
      LeavesLine(ans);
      CheckedPrintable(ans);
      ReachedPrintable(AfterLine(ans));
    }
  }

  lemma FirstTrimmedPrintable(text: seq<int>)
    requires Clean(text)
    ensures Printable(FirstTrimmed(text)) && !TabEnd(FirstTrimmed(text))
  {
    var line := FirstTrimmed(text);
    forall k | 0 <= k < |line|
      ensures line[k] != LF && line[k] != CR && line[k] != EOF
    {
      assert line[k] == text[k] && text[k] in text && CrBeforeLf(text, k);
      assert line[|line| - 1] !in BUILTIN_DROPS;
    }
    TrimmedIs(line, line, CHECKER_DROPS);
  }

  lemma {:induction false} NormalPrintable(text: seq<int>)
    requires Clean(text)
    ensures Neat(Normalized(text))
    decreases |text|
  {
    if text != [] {
      NormalizedStep(text);
      FirstTrimmedPrintable(text);
      RestClean(text);
      NormalPrintable(Rest(text));
      NeatBefore(FirstTrimmed(text), Normalized(Rest(text)));
    }
  }

  lemma NeatBefore(line: seq<int>, lines: seq<seq<int>>)
    requires Printable(line) && !TabEnd(line) && Neat(lines)
    ensures Neat(Before(line, lines))
  {
    if Before(line, lines) != [] {
      NeatFirst([line] + lines);
    }
  }

  ghost predicate SomeEndByte(lines: seq<seq<int>>) {
    exists i :: 0 <= i < |lines| && EOF in lines[i]
  }

  /** A byte 255 never drops out of the normal form. */
  lemma {:induction false} EndByteShows(text: seq<int>)
    ensures HasEndByte(text) <==> SomeEndByte(Normalized(text))
    decreases |text|
  {
    if text != [] {
      NormalizedStep(text);
      EndByteShows(Rest(text));
      EndByteInLine(text);
      SomeEndByteBefore(FirstTrimmed(text), Normalized(Rest(text)));
    }
  }

  lemma EndByteInLine(text: seq<int>)
    requires text != []
    ensures HasEndByte(text) <==> EOF in FirstTrimmed(text) || HasEndByte(Rest(text))
  {
    var n, line := LineEnd(text), FirstLine(text);
    assert text == if n < |text| then line + [LF] + Rest(text) else line;
    assert EOF in line <==> EOF in FirstTrimmed(text) by {
      var r := FirstTrimmed(text);
      if EOF in line {
        var k :| 0 <= k < |line| && line[k] == EOF;
        assert k < |r| && r[k] == EOF;
      }
    }
  }

  lemma SomeEndByteBefore(line: seq<int>, lines: seq<seq<int>>)
    ensures SomeEndByte(Before(line, lines)) <==> EOF in line || SomeEndByte(lines)
  {
    var all := Before(line, lines);
    if all != [] {
      assert all[0] == line && forall i :: 0 <= i < |lines| ==> all[i + 1] == lines[i];
    }
  }

  /** Without a byte 255 the checker compares every line that ends in a tab. */
  lemma {:induction false} TabbedExactly(text: seq<int>)
    requires Clean(text)
    ensures CrLf(Cells(text))
    ensures SomeTabEnd(ComparedLines(Cells(text))) <==> !TabFreeEnds(text)
    decreases |text|
  {
    ComparedByLines(text);
    if text != [] {
      TabbedExactly(Rest(text));
      SomeTabEndFirst(FirstChecked(text), ComparedLines(Cells(Rest(text))));
    }
  }

  lemma SomeTabEndFirst(line: seq<int>, lines: seq<seq<int>>)
    ensures SomeTabEnd([line] + lines) <==> TabEnd(line) || SomeTabEnd(lines)
  {
    var all := [line] + lines;
    assert all[0] == line && forall i :: 0 <= i < |lines| ==> all[i + 1] == lines[i];
  }

  /** No plain output has a line that ends in a tab. */
  lemma {:induction false} PlainMatchesNoTab(lines: seq<seq<int>>, output: seq<int>)
    requires Plain(output) && Matches(lines, Cells(output))
    ensures !SomeTabEnd(lines)
  {
    if lines != [] {
      MatchesByLines(lines, output);
      PlainTail(output);
      PlainMatchesNoTab(lines[1..], Rest(output));
      SomeTabEndFirst(lines[0], lines[1..]);
      assert [lines[0]] + lines[1..] == lines;
    }
  }

  // ---------- Expected files ----------

  /** Some plain output passes the checker: it gets to the end without meeting a lone CR, and
      no line it compares ends in a tab. */
  ghost predicate CheckerCan(expected: seq<int>) {
    var lines := Reached(Cells(expected));
    lines.Some? && !SomeTabEnd(lines.value)
  }

  /** Some plain output passes the built-in comparison: no line of the normal form holds a CR
      or a byte 255. */
  predicate BuiltinCan(expected: seq<int>) {
    forall i :: 0 <= i < |Normalized(expected)| ==> CR !in Normalized(expected)[i] && EOF !in Normalized(expected)[i]
  }

  lemma {:induction false} NormalTrimmed(text: seq<int>)
    ensures forall i :: 0 <= i < |Normalized(text)| ==>
              LF !in Normalized(text)[i] && Trimmed(Normalized(text)[i], BUILTIN_DROPS) == Normalized(text)[i]
    decreases |text|
  {
    if text != [] {
      NormalizedStep(text);
      NormalTrimmed(Rest(text));
      var line := FirstTrimmed(text);
      TrimmedIs(line, line, BUILTIN_DROPS);
      assert forall k :: 0 <= k < |line| ==> line[k] in FirstLine(text);
    }
  }

  lemma BuiltinCanIsNeat(text: seq<int>)
    ensures BuiltinCan(text) <==> Neat(Normalized(text))
  {
    NormalTrimmed(text);
    var lines := Normalized(text);
    forall i | 0 <= i < |lines| && CR !in lines[i] && EOF !in lines[i]
      ensures Printable(lines[i]) && !TabEnd(lines[i])
    {
      TrimmedIs(lines[i], lines[i], CHECKER_DROPS);
    }
    assert Neat(lines) ==> forall i :: 0 <= i < |lines| ==> Printable(lines[i]);
  }

  /** A file without byte 255 that the checker reads to the end has no lone CR. */
  lemma {:induction false} ReachedHasNoLoneCr(text: seq<int>)
    requires Reached(Cells(text)).Some? && !HasEndByte(text)
    ensures NoLoneCr(text)
    decreases |text|
  {
    if text != [] {
      assert text[0] in text;
      var j := LineOfReached(text);
      assert Cells(text)[j..] == Cells(text[j..]);
      assert !HasEndByte(text[j..]);
      if text[j..] != [] {
        assert text[j] in text;
        ReachedHasNoLoneCr(text[j..]);
      }
      forall k | 0 <= k < |text|
        ensures CrBeforeLf(text, k)
      {
        if k >= j {
          assert CrBeforeLf(text[j..], k - j);
        }
      }
    }
  }

  /** The end of a line that is neither stalled nor cut off, and the length of that end. */
  lemma EndOfReached(tail: seq<Cell>) returns (n: nat)
    requires (forall k :: 0 <= k < |tail| ==> tail[k].Char? && tail[k].code != EOF) && !Stalled(tail)
    requires tail != [] ==> IsEoln(tail[0].code)
    requires !(Cur(tail) == CR && Cur(AfterNext(tail)) == EOF)
    ensures n <= |tail| && AfterEoln(tail) == tail[n..] && (tail != [] ==> n > 0)
    ensures n == 2 ==> tail[1] == Char(LF)
    ensures n <= 2 && (n == 1 ==> tail[0] == Char(LF))
  {
    if tail == [] {
      n := 0;
    } else if tail[0].code == LF {
      n := 1;
    } else {
      n := 2;
      assert |tail| > 1 && tail[1].code == LF;
      assert tail[1..][1..] == tail[2..];
    }
  }

  /** The length of the first line with its end; no CR before it but the one of that end. */
  lemma LineOfReached(text: seq<int>) returns (j: nat)
    requires !PutsBackEof(Cells(text)) && !Stalled(Tail(Cells(text))) && !HasEndByte(text) && text != []
    ensures 0 < j <= |text| && AfterLine(Cells(text)) == Cells(text)[j..]
    ensures forall k :: 0 <= k < j ==> CrBeforeLf(text, k)
  {
    var cells, m := Cells(text), LineLength(Cells(text));
    var tail := Tail(cells);
    forall k | 0 <= k < |text|
      ensures cells[k].Char? && cells[k].code != EOF
    {
      assert text[k] in text;
    }
    assert forall k :: 0 <= k < |tail| ==> tail[k] == Char(text[m + k]);
    assert forall k :: 0 <= k < m ==> cells[k] == Char(text[k]) && text[k] != CR;
    var n := EndOfReached(tail);
    j := m + n;
    assert cells[j..] == tail[n..];
    assert m == |text| <==> tail == [];
    CrsBefore(text, m, n);
  }

  lemma CrsBefore(text: seq<int>, m: nat, n: nat)
    requires m + n <= |text| && n <= 2
    requires forall k :: 0 <= k < m ==> text[k] != CR
    requires n == 1 ==> text[m] == LF
    requires n == 2 ==> text[m + 1] == LF
    ensures forall k :: 0 <= k < m + n ==> CrBeforeLf(text, k)
  {
  }

  // ---------- The theorem ----------

  lemma CheckerNeedsCan(expected: seq<int>, output: seq<int>)
    requires Plain(output) && CheckerMatches(expected, output)
    ensures CheckerCan(expected)
  {
    PlainMatchesNoTab(Reached(Cells(expected)).value, output);
  }

  lemma BuiltinNeedsCan(expected: seq<int>, output: seq<int>)
    requires Plain(output) && Normalized(expected) == Normalized(output)
    ensures BuiltinCan(expected)
  {
    NormalPrintable(output);
    BuiltinCanIsNeat(expected);
  }

  /** The output made of the lines the checker compares. */
  lemma CheckerPasses(expected: seq<int>) returns (output: seq<int>)
    requires CheckerCan(expected)
    ensures Plain(output) && CheckerMatches(expected, output)
  {
    var lines := Reached(Cells(expected)).value;
    output := FileOf(lines);
    ReachedPrintable(Cells(expected));
    FileClean(lines);
    FileMatches(lines);
  }

  /** The output made of the lines of the normal form. */
  lemma BuiltinPasses(expected: seq<int>) returns (output: seq<int>)
    requires BuiltinCan(expected)
    ensures Plain(output) && Normalized(expected) == Normalized(output)
  {
    var lines := Normalized(expected);
    output := FileOf(lines);
    BuiltinCanIsNeat(expected);
    FileClean(lines);
    FileNormalized(lines);
    NormalizedAt(expected);
  }

  /** A file that both can pass is plain. */
  lemma BothCanIsPlain(expected: seq<int>)
    requires CheckerCan(expected) && BuiltinCan(expected)
    ensures Plain(expected)
  {
    EndByteShows(expected);
    ReachedHasNoLoneCr(expected);
    TabbedExactly(expected);
  }

  lemma PlainIsBothCan(expected: seq<int>)
    requires Plain(expected)
    ensures CheckerCan(expected) && BuiltinCan(expected)
  {
    NoLoneCrIsCrLf(expected);
    CrLfReached(Cells(expected));
    TabbedExactly(expected);
    NormalPrintable(expected);
    BuiltinCanIsNeat(expected);
  }

  lemma AgreeWhenAlike(expected: seq<int>, output: seq<int>)
    requires (CheckerCan(expected) <==> BuiltinCan(expected)) && Plain(output)
    ensures SameVerdict(expected, output)
  {
    SameVerdictExactly(expected, output);
    if CheckerCan(expected) {
      BothCanIsPlain(expected);
      PlainFilesAgree(expected, output);
      CrLfReached(Cells(expected));
    } else {
      if CheckerMatches(expected, output) {
        CheckerNeedsCan(expected, output);
      }
      if Normalized(expected) == Normalized(output) {
        BuiltinNeedsCan(expected, output);
      }
    }
  }

  lemma Separated(expected: seq<int>) returns (output: seq<int>)
    requires CheckerCan(expected) <==> !BuiltinCan(expected)
    ensures Plain(output) && !SameVerdict(expected, output)
  {
    if CheckerCan(expected) {
      output := CheckerPasses(expected);
      if Normalized(expected) == Normalized(output) {
        BuiltinNeedsCan(expected, output);
      }
    } else {
      output := BuiltinPasses(expected);
      if CheckerMatches(expected, output) {
        CheckerNeedsCan(expected, output);
      }
    }
    SameVerdictExactly(expected, output);
  }

  /** For every expected file: the two comparisons agree on all plain outputs if and only if
      both can be passed by one, and then the file is plain itself, or neither can. */
  lemma ComparatorsAgreeExactly(expected: seq<int>)
    ensures (forall output :: Plain(output) ==> SameVerdict(expected, output)) <==> (CheckerCan(expected) <==> BuiltinCan(expected))
    ensures CheckerCan(expected) && BuiltinCan(expected) <==> Plain(expected)
  {
    if CheckerCan(expected) <==> BuiltinCan(expected) {
      forall output | Plain(output)
        ensures SameVerdict(expected, output)
      {
        AgreeWhenAlike(expected, output);
      }
    } else {
      var output := Separated(expected);
    }
    if CheckerCan(expected) && BuiltinCan(expected) {
      BothCanIsPlain(expected);
    }
    if Plain(expected) {
      PlainIsBothCan(expected);
    }
  }

  /** Without lone CR and byte 255 the built-in comparison can always be passed: then they
      agree if and only if no line of the expected file has a tab among its trailing blanks. */
  lemma TextComparatorsAgreeExactly(expected: seq<int>)
    requires Clean(expected)
    ensures (forall output :: Plain(output) ==> SameVerdict(expected, output)) <==> TabFreeEnds(expected)
  {
    ComparatorsAgreeExactly(expected);
    NormalPrintable(expected);
    BuiltinCanIsNeat(expected);
  }

  /** Neither can be passed: a CR inside a line. */
  lemma LoneCrInside()
    ensures !Plain([A, CR, B]) && forall output :: Plain(output) ==> SameVerdict([A, CR, B], output)
  {
    var expected := [A, CR, B];
    WholeLine(expected);
    TrimmedIs(expected, expected, BUILTIN_DROPS);
    NormalizedStep(expected);
    assert Normalized(expected) == [expected] && CR in expected;
    assert !BuiltinCan(expected) by {
      assert CR in Normalized(expected)[0];
    }
    var cells := Cells(expected);
    assert cells[1..] == Cells([CR, B]);
    OneChar(cells);
    assert Stalled(Tail(cells));
    ComparatorsAgreeExactly(expected);
  }

  // ---------- Outputs that part them ----------

  const A := 97
  const B := 98

  /** A tab at the end of an output line: only the built-in comparison drops it. */
  lemma OutputTabParts()
    ensures CompareVerdict(Missing, [A], [A, TAB]) == AC && CompareVerdict(Installed(0, 0), [A], [A, TAB]) == WA
  {
    var expected, output := [A], [A, TAB];
    WholeLine(expected);
    WholeLine(output);
    TrimmedIs(expected, [A], CHECKER_DROPS);
    TrimmedIs(output, [A, TAB], CHECKER_DROPS);
    TrimmedIs(expected, [A], BUILTIN_DROPS);
    TrimmedIs(output, [A], BUILTIN_DROPS);
    NormalFormsStep(expected, output);
    CheckerVerdict(Installed(0, 0), expected, output);
    ComparedByLines(expected);
    MatchesByLines(ComparedLines(Cells(expected)), output);
  }

  lemma WholeLine(text: seq<int>)
    requires LF !in text
    ensures FirstLine(text) == text && Rest(text) == []
  {
    assert forall k :: 0 <= k < |text| ==> text[k] in text;
    assert text[..|text|] == text;
  }

  /** A byte 255 in the output: the checker takes it for the end. */
  lemma OutputEndByteParts()
    ensures CompareVerdict(Missing, [], [EOF]) == WA && CompareVerdict(Installed(0, 0), [], [EOF]) == AC
  {
    AcceptsOnward(Start(Installed(0, 0), [], [EOF]));
    EndByteShows([EOF]);
    assert EOF in [EOF];
  }

  /** A CR inside an output line: the checker never gets past it. */
  lemma OutputLoneCrParts()
    ensures CompareVerdict(Missing, [A, LF, B], [A, CR, SPACE, LF, B]) == AC
    ensures CompareVerdict(Installed(0, 0), [A, LF, B], [A, CR, SPACE, LF, B]) == WA
  {
    var expected, output := [A, LF, B], [A, CR, SPACE, LF, B];
    assert expected == [A] + [LF] + [B] && output == [A, CR, SPACE] + [LF] + [B];
    FileFirst([A], [B]);
    FileFirst([A, CR, SPACE], [B]);
    TrimmedIs([A], [A], BUILTIN_DROPS);
    TrimmedIs([A, CR, SPACE], [A], BUILTIN_DROPS);
    NormalFormsStep(expected, output);
    StoppedAtCr(Start(Installed(0, 0), expected, output));
  }

  lemma StoppedAtCr(s: Streams)
    requires s.ans == Cells([A, LF, B]) && s.ouf == Cells([A, CR, SPACE, LF, B])
    ensures !Accepts(s)
  {
    var stall, last := Cells([CR, SPACE, LF, B]), Cells([B]);
    assert Cells([A, LF, B])[1..] == Cells([LF, B]) && Cells([LF, B])[1..] == last;
    assert s.ouf[1..] == stall;
    OneChar(s.ans);
    OneChar(s.ouf);
    FixedStays(s.ouf);
    StalledIsFixed(stall);
    OneChar(last);
    AcceptsOnward(s);
    if OnePass(s).Onward? {
      AcceptsOnward(OnePass(s).next);
    }
  }

  /** A line of one letter. */
  lemma OneChar(rest: seq<Cell>)
    requires rest != [] && rest[0].Char? && rest[0].code in {A, B}
    requires IsEoln(Cur(rest[1..])) || Cur(rest[1..]) == EOF
    ensures LineLength(rest) == 1 && CheckedLine(rest) == [rest[0].code]
  {
    assert LineLength(rest[1..]) == 0;
    TrimmedIs([rest[0].code], [rest[0].code], CHECKER_DROPS);
  }
}
