/** The part of testlib's non-strict input stream that the line checker uses. Characters are
    signed, so a byte 255 reads as -1, the end-of-file value. */
module InStreams {
  import opened Wrappers

  const EOF := -1
  const TAB := 9
  const LF := 10
  const CR := 13
  const SPACE := 32

  /** What is ahead in the stream: characters, and the marks left by un-reading an end of
      file. */
  datatype Cell = Char(code: int) | EofMark

  function Cells(text: seq<int>): (cells: seq<Cell>)
    ensures |cells| == |text| && forall k :: 0 <= k < |text| ==> cells[k] == Char(text[k])
  {
    seq(|text|, k requires 0 <= k < |text| => Char(text[k]))
  }

  function Cur(rest: seq<Cell>): int {
    if rest == [] || rest[0].EofMark? then EOF else rest[0].code
  }

  /** A mark is not consumed; a character is, even one that reads as end of file. */
  function AfterNext(rest: seq<Cell>): seq<Cell> {
    if rest == [] || rest[0].EofMark? then rest else rest[1..]
  }

  function Unread(c: int, rest: seq<Cell>): seq<Cell> {
    [if c == EOF then EofMark else Char(c)] + rest
  }

  predicate IsEoln(c: int) {
    c == LF || c == CR
  }

  predicate IsBlank(c: int) {
    c == LF || c == CR || c == SPACE || c == TAB
  }

  /** How many characters come before the end of the line or of the file. */
  function LineLength(rest: seq<Cell>): (n: nat)
    ensures n <= |rest|
    ensures forall k :: 0 <= k < n ==> rest[k].Char? && !IsEoln(rest[k].code) && rest[k].code != EOF
    ensures IsEoln(Cur(rest[n..])) || Cur(rest[n..]) == EOF
  {
    if IsEoln(Cur(rest)) || Cur(rest) == EOF then 0 else 1 + LineLength(rest[1..])
  }

  function Codes(cells: seq<Cell>): (codes: seq<int>)
    requires forall k :: 0 <= k < |cells| ==> cells[k].Char?
    ensures |codes| == |cells| && forall k :: 0 <= k < |cells| ==> codes[k] == cells[k].code
  {
    seq(|cells|, k requires 0 <= k < |cells| => cells[k].code)
  }

  /** The stream after `eoln`, which takes a line end if there is one. A CR that no LF follows
      is put back, and with it the character after it. */
  function AfterEoln(rest: seq<Cell>): seq<Cell> {
    var c, next := Cur(rest), AfterNext(rest);
    if c == EOF then next
    else if c == CR then
      var d := Cur(next);
      if d == LF then AfterNext(next) else Unread(CR, Unread(d, AfterNext(next)))
    else if c == LF then next
    else Unread(c, next)
  }

  /** Reading the rest of this line ends at a CR with an end of file behind it, which then has
      to be put back. */
  predicate PutsBackEof(rest: seq<Cell>) {
    var tail := rest[LineLength(rest)..];
    Cur(tail) == CR && Cur(AfterNext(tail)) == EOF
  }

  predicate AtEoln(rest: seq<Cell>) {
    Cur(rest) == EOF || Cur(rest) == LF || (Cur(rest) == CR && Cur(AfterNext(rest)) == LF)
  }

  function ReadLine(rest: seq<Cell>): seq<int> {
    Codes(rest[..LineLength(rest)])
  }

  function AfterLine(rest: seq<Cell>): seq<Cell> {
    AfterEoln(rest[LineLength(rest)..])
  }

  /** Nothing but blanks up to the end of file. */
  predicate OnlyBlanksAhead(rest: seq<Cell>) {
    Cur(rest) == EOF || (IsBlank(Cur(rest)) && OnlyBlanksAhead(rest[1..]))
  }

  /** Each end of file put back takes one cell of the reader's buffer for good, and the program
      fails when there is none left: `putBacks` is how many more fit. */
  class InStream {
    var rest: seq<Cell>
    var putBacks: nat

    constructor (text: seq<int>, putBacks: nat)
      ensures rest == Cells(text) && this.putBacks == putBacks
    {
      rest := Cells(text);
      this.putBacks := putBacks;
    }

    method CurChar() returns (c: int)
      ensures c == Cur(rest)
    {
      c := if rest == [] || rest[0].EofMark? then EOF else rest[0].code;
    }

    method NextChar() returns (c: int)
      modifies this`rest
      ensures c == Cur(old(rest)) && rest == AfterNext(old(rest))
    {
      c := CurChar();
      if rest != [] && rest[0].Char? {
        rest := rest[1..];
      }
    }

    method UnreadChar(c: int) returns (ok: bool)
      modifies this
      ensures ok == (c != EOF || old(putBacks) > 0)
      ensures ok ==> rest == Unread(c, old(rest)) && putBacks == old(putBacks) - (if c == EOF then 1 else 0)
    {
      if c == EOF {
        if putBacks == 0 {
          return false;
        }
        putBacks := putBacks - 1;
      }
      rest := [if c == EOF then EofMark else Char(c)] + rest;
      ok := true;
    }

    method Eof() returns (r: bool)
      ensures r == (Cur(rest) == EOF)
    {
      var c := CurChar();
      r := c == EOF;
    }

    method SkipBlanks()
      modifies this`rest
      ensures !IsBlank(Cur(rest))
      ensures Cur(rest) == EOF <==> OnlyBlanksAhead(old(rest))
    {
      var c := CurChar();
      while IsBlank(c)
        invariant c == Cur(rest)
        invariant OnlyBlanksAhead(rest) == OnlyBlanksAhead(old(rest))
        decreases |rest|
      {
        rest := rest[1..];
        c := CurChar();
      }
    }

    method SeekEof() returns (r: bool)
      modifies this`rest
      ensures r == OnlyBlanksAhead(old(rest))
    {
      SkipBlanks();
      r := Eof();
    }

    /** No answer when the program fails. */
    method Eoln() returns (r: Option<bool>)
      modifies this
      ensures
        var fails := Cur(old(rest)) == CR && Cur(AfterNext(old(rest))) == EOF;
        && r == (if fails && old(putBacks) == 0 then None else Some(AtEoln(old(rest))))
        && (r.Some? ==> rest == AfterEoln(old(rest)) && putBacks == old(putBacks) - (if fails then 1 else 0))
    {
      var c := NextChar();
      if c == EOF {
        return Some(true);
      }
      if c == CR {
        c := NextChar();
        if c != LF {
          var ok := UnreadChar(c);
          if !ok {
            return None;
          }
          ok := UnreadChar(CR);
          return Some(false);
        }
        return Some(true);
      }
      if c == LF {
        return Some(true);
      }
      var _ := UnreadChar(c);
      r := Some(false);
    }

    /** Up to the line end or the end of file; no answer when the program fails. */
    method ReadString() returns (line: Option<seq<int>>)
      modifies this
      ensures line == if PutsBackEof(old(rest)) && old(putBacks) == 0 then None else Some(ReadLine(old(rest)))
      ensures line.Some? ==> rest == AfterLine(old(rest)) && putBacks == PutBacksAfter(old(rest), old(putBacks))
    {
      var result := [];
      ghost var n := LineLength(rest);
      ghost var k := 0;
      while true
        invariant 0 <= k <= n && rest == old(rest)[k..] && result == Codes(old(rest)[..k])
        invariant LineLength(rest) == n - k && putBacks == old(putBacks)
        decreases |rest|
      {
        var cur := CurChar();
        if IsEoln(cur) || cur == EOF {
          break;
        }
        var c := NextChar();
        result := result + [c];
        k := k + 1;
      }
      var e := Eoln();
      line := if e.None? then None else Some(result);
    }
  }

  function PutBacksAfter(rest: seq<Cell>, putBacks: nat): nat {
    if PutsBackEof(rest) && putBacks > 0 then putBacks - 1 else putBacks
  }

  /** A CR that no LF follows is never consumed: reading a line there yields nothing and comes
      back to the same place. */
  lemma LoneCrStalls(rest: seq<Cell>)
    requires Cur(rest) == CR && Cur(AfterNext(rest)) != LF
    ensures ReadLine(rest) == [] && Cur(AfterLine(rest)) == CR && Cur(AfterNext(AfterLine(rest))) != LF
    ensures !AtEoln(rest)
    ensures |rest| > 1 && Cur(rest[1..]) != EOF ==> AfterEoln(rest) == rest
  {
    assert rest[0..] == rest;
  }
}
