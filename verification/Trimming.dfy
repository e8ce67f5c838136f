/** Removing characters from the end of a line. */
module Trimming {
  import opened InStreams

  const CHECKER_DROPS := {LF, SPACE, CR}
  const BUILTIN_DROPS := {SPACE, TAB, CR}

  function Trimmed(line: seq<int>, drop: set<int>): (r: seq<int>)
    ensures r <= line
    ensures r != [] ==> r[|r| - 1] !in drop
    ensures forall k :: |r| <= k < |line| ==> line[k] in drop
  {
    if line != [] && line[|line| - 1] in drop then Trimmed(line[..|line| - 1], drop) else line
  }

  /** Those three facts leave one result only. */
  lemma TrimmedIs(line: seq<int>, r: seq<int>, drop: set<int>)
    requires r <= line && (r != [] ==> r[|r| - 1] !in drop)
    requires forall k :: |r| <= k < |line| ==> line[k] in drop
    ensures Trimmed(line, drop) == r
  {
    var t := Trimmed(line, drop);
    assert t != [] ==> t[|t| - 1] == line[|t| - 1];
    assert r != [] ==> r[|r| - 1] == line[|r| - 1];
  }

  /** `del_line_back_space` erases from the end one character at a time. */
  method DelLineBackSpace(str: seq<int>) returns (r: seq<int>)
    ensures r == Trimmed(str, CHECKER_DROPS)
  {
    r := str;
    while r != []
      invariant Trimmed(r, CHECKER_DROPS) == Trimmed(str, CHECKER_DROPS)
      decreases |r|
    {
      var last := r[|r| - 1];
      if last == LF || last == SPACE || last == CR {
        r := r[..|r| - 1];
      } else {
        break;
      }
    }
  }

  method TrimLineRight(line: seq<int>) returns (r: seq<int>)
    ensures r == Trimmed(line, BUILTIN_DROPS)
  {
    var end := |line|;
    while end > 0 && (line[end - 1] == SPACE || line[end - 1] == TAB || line[end - 1] == CR)
      invariant 0 <= end <= |line|
      invariant forall k :: end <= k < |line| ==> line[k] in BUILTIN_DROPS
    {
      end := end - 1;
    }
    r := line[..end];
    TrimmedIs(line, r, BUILTIN_DROPS);
  }

  /** The last character that is neither a space nor a CR is a tab. */
  predicate EndsInTab(line: seq<int>) {
    var t := Trimmed(line, CHECKER_DROPS);
    t != [] && t[|t| - 1] == TAB
  }

  /** The built-in trimming goes on where the checker's stops. */
  lemma TrimmedFurther(line: seq<int>)
    requires LF !in line
    ensures Trimmed(Trimmed(line, CHECKER_DROPS), BUILTIN_DROPS) == Trimmed(line, BUILTIN_DROPS)
  {
    var t := Trimmed(line, CHECKER_DROPS);
    var r := Trimmed(t, BUILTIN_DROPS);
    forall k | |r| <= k < |line|
      ensures line[k] in BUILTIN_DROPS
    {
      if k < |t| {
        assert t[k] == line[k];
      } else {
        assert line[k] in line;
      }
    }
    TrimmedIs(line, r, BUILTIN_DROPS);
  }

  /** Both trimmings give the same exactly when the line does not end in a tab. */
  lemma TrimmingsAgreeExactly(line: seq<int>)
    requires LF !in line
    ensures Trimmed(line, CHECKER_DROPS) == Trimmed(line, BUILTIN_DROPS) <==> !EndsInTab(line)
  {
    TrimmedFurther(line);
    var t := Trimmed(line, CHECKER_DROPS);
    if !EndsInTab(line) {
      TrimmedIs(t, t, BUILTIN_DROPS);
    }
  }
}
