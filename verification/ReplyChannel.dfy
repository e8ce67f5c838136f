/** Reply channel ids: the text `slot:session` that travels with a task and brings its
    messages back to the connection it came from. */
module ReplyChannels {
  import opened Decimal
  import opened Wrappers

  const INT32_MAX: int := 0x7fff_ffff
  const UINT64_MAX: int := 0xffff_ffff_ffff_ffff

  /** An `int` slot and a `uint64_t` session. */
  datatype ReplyChannel = ReplyChannel(slot: int, session: nat) {
    predicate Representable() {
      -INT32_MAX - 1 <= slot <= INT32_MAX && session <= UINT64_MAX
    }

    function SlotText(): string {
      if slot < 0 then "-" + Numeral(-slot) else Numeral(slot)
    }

    function Text(): string {
      SlotText() + ":" + Numeral(session)
    }
  }

  /** `find(':', from)`, with |s| for npos. */
  function FindColon(s: string, from: nat): (k: nat)
    requires from <= |s|
    ensures from <= k <= |s|
    ensures k < |s| ==> s[k] == ':'
    ensures forall i :: from <= i < k ==> s[i] != ':'
    decreases |s| - from
  {
    if from == |s| || s[from] == ':' then from else FindColon(s, from + 1)
  }

  predicate IsSpace(c: char) {
    c == ' ' || '\t' <= c <= '\r'
  }

  function SpacePrefix(s: string): (n: nat)
    ensures n <= |s|
  {
    if s == "" || !IsSpace(s[0]) then 0 else 1 + SpacePrefix(s[1..])
  }

  function DigitPrefix(s: string): (n: nat)
    ensures n <= |s| && AllDigits(s[..n])
  {
    if s == "" || !IsDigit(s[0]) then 0
    else
      var n := DigitPrefix(s[1..]);
      assert s[..n + 1] == [s[0]] + s[1..][..n];
      n + 1
  }

  /** The leading digits of s as a number and their count; None when there are none. */
  function LeadingNumber(s: string): (r: Option<(nat, nat)>)
    ensures r.Some? ==> r.value.1 <= |s|
  {
    var n := DigitPrefix(s);
    if n == 0 then None else Some((Value(s[..n]), n))
  }

  predicate IsSign(c: char) {
    c == '+' || c == '-'
  }

  /** What `strtol`/`strtoull` see: white space, an optional sign, digits. None when there
      are no digits; otherwise sign, magnitude and the number of characters consumed. */
  function ScanNumber(s: string): (r: Option<(bool, nat, nat)>)
    ensures r.Some? ==> r.value.2 <= |s|
  {
    var spaces := SpacePrefix(s);
    var start := if spaces < |s| && IsSign(s[spaces]) then spaces + 1 else spaces;
    var number := LeadingNumber(s[start..]);
    if number.None? then None
    else Some((start > spaces && s[spaces] == '-', number.value.0, start + number.value.1))
  }

  /** `std::stoi`: None stands for either exception. */
  function Stoi(s: string): Option<(int, nat)> {
    var scanned := ScanNumber(s);
    if scanned.None? then None
    else
      var (minus, magnitude, end) := scanned.value;
      var v := if minus then 0 - magnitude else magnitude;
      if -INT32_MAX - 1 <= v <= INT32_MAX then Some((v, end)) else None
  }

  /** `std::stoull`: a minus sign is accepted and negates modulo 2^64. */
  function Stoull(s: string): Option<(nat, nat)> {
    var scanned := ScanNumber(s);
    if scanned.None? then None
    else
      var (minus, magnitude, end) := scanned.value;
      if magnitude > UINT64_MAX then None
      else Some((if minus && magnitude > 0 then UINT64_MAX + 1 - magnitude else magnitude, end))
  }

  /** The checks on the two halves once the single separator is found. */
  function FromHalves(left: string, right: string): Option<ReplyChannel> {
    var slot := Stoi(left);
    if slot.None? then None
    else
      var session := Stoull(right);
      if session.None? then None
      else if slot.value.1 != |left| || session.value.1 != |right|
              || slot.value.0 < 0 || session.value.0 == 0 then None
      else Some(ReplyChannel(slot.value.0, session.value.0))
  }

  /** The text around its only colon; both sides must be nonempty. */
  function Split(value: string): Option<(string, string)> {
    var separator := FindColon(value, 0);
    if separator == |value| || separator == 0 || separator + 1 >= |value|
       || FindColon(value, separator + 1) < |value| then None
    else Some((value[..separator], value[separator + 1..]))
  }

  function Parse(value: string): Option<ReplyChannel> {
    var halves := Split(value);
    if halves.None? then None else FromHalves(halves.value.0, halves.value.1)
  }

  lemma ColonAt(s: string, from: nat, k: nat)
    requires from <= k <= |s|
    requires k < |s| ==> s[k] == ':'
    requires forall i :: from <= i < k ==> s[i] != ':'
    ensures FindColon(s, from) == k
  {
  }

  /** The separator is found where the halves were joined. */
  lemma SplitJoined(left: string, right: string)
    requires left != "" && right != ""
    requires ':' !in left && ':' !in right
    ensures Split(left + ":" + right) == Some((left, right))
  {
    var text := left + ":" + right;
    assert forall i :: 0 <= i < |left| ==> text[i] == left[i];
    assert forall i :: |left| < i < |text| ==> text[i] == right[i - |left| - 1];
    ColonAt(text, 0, |left|);
    ColonAt(text, |left| + 1, |text|);
    assert text[..|left|] == left && text[|left| + 1..] == right;
  }

  lemma {:induction false} DigitPrefixOfDigits(s: string)
    requires AllDigits(s)
    ensures DigitPrefix(s) == |s|
  {
    if s != "" {
      DigitPrefixOfDigits(s[1..]);
    }
  }

  lemma LeadingNumberOfDigits(digits: string)
    requires digits != "" && AllDigits(digits)
    ensures LeadingNumber(digits) == Some((Value(digits), |digits|))
  {
    DigitPrefixOfDigits(digits);
    assert digits[..|digits|] == digits;
  }

  /** Reading digits back, with a minus sign and without. */
  lemma ScanMinus(digits: string)
    requires digits != "" && AllDigits(digits)
    ensures ScanNumber("-" + digits) == Some((true, Value(digits), |digits| + 1))
  {
    LeadingNumberOfDigits(digits);
    assert ("-" + digits)[1..] == digits;
  }

  lemma ScanPlain(digits: string)
    requires digits != "" && AllDigits(digits)
    ensures ScanNumber(digits) == Some((false, Value(digits), |digits|))
  {
    LeadingNumberOfDigits(digits);
    assert digits[0..] == digits;
  }

  lemma NoColonInNumeral(n: nat)
    ensures Numeral(n) != "" && ':' !in Numeral(n) && ':' !in "-" + Numeral(n)
  {
    ValueOfNumeral(n);
  }

  lemma StoiOfSlotText(c: ReplyChannel)
    requires c.Representable()
    ensures Stoi(c.SlotText()) == Some((c.slot, |c.SlotText()|))
  {
    var magnitude: nat := if c.slot < 0 then -c.slot else c.slot;
    ValueOfNumeral(magnitude);
    if c.slot < 0 {
      ScanMinus(Numeral(magnitude));
    } else {
      ScanPlain(Numeral(magnitude));
    }
  }

  lemma StoullOfNumeral(n: nat, minus: bool)
    requires n <= UINT64_MAX
    ensures Stoull(if minus then "-" + Numeral(n) else Numeral(n))
         == Some((if minus && n > 0 then UINT64_MAX + 1 - n else n,
                  |Numeral(n)| + (if minus then 1 else 0)))
  {
    ValueOfNumeral(n);
    if minus {
      ScanMinus(Numeral(n));
    } else {
      ScanPlain(Numeral(n));
    }
  }

  /** `parse` undoes `to_string` exactly for the channels a live connection can have:
      a slot index and a nonzero session. Every other channel is refused. */
  lemma ParseText(c: ReplyChannel)
    requires c.Representable()
    ensures Parse(c.Text()) == (if c.slot >= 0 && c.session != 0 then Some(c) else None)
  {
    var left, right := c.SlotText(), Numeral(c.session);
    StoiOfSlotText(c);
    StoullOfNumeral(c.session, false);
    NoColonInNumeral(if c.slot < 0 then -c.slot else c.slot);
    NoColonInNumeral(c.session);
    SplitJoined(left, right);
  }

  /** Channel ids are keys: two connections never share one. */
  lemma TextInjective(a: ReplyChannel, b: ReplyChannel)
    requires a.slot >= 0 && b.slot >= 0
    requires a.Text() == b.Text()
    ensures a == b
  {
    SplitText(a);
    SplitText(b);
    NumeralInjective(a.slot, b.slot);
    NumeralInjective(a.session, b.session);
  }

  lemma SplitText(c: ReplyChannel)
    requires c.slot >= 0
    ensures Split(c.Text()) == Some((Numeral(c.slot), Numeral(c.session)))
  {
    NoColonInNumeral(c.slot);
    NoColonInNumeral(c.session);
    SplitJoined(Numeral(c.slot), Numeral(c.session));
  }

  lemma ScanOfNumeral(s: string)
    requires IsNumeral(s)
    ensures ScanNumber(s) == Some((false, Value(s), |s|)) && Numeral(Value(s)) == s
  {
    ScanPlain(s);
    NumeralOfValue(s);
  }

  /** What `parse` accepts is what `to_string` writes exactly when both halves are plain
      numerals: no leading blanks, no sign, no leading zeros. */
  lemma CanonicalExactly(value: string)
    requires Parse(value).Some?
    ensures value == Parse(value).value.Text() <==> IsNumeral(Split(value).value.0) && IsNumeral(Split(value).value.1)
  {
    var c := Parse(value).value;
    var (left, right) := Split(value).value;
    assert value == left + ":" + right;
    if value == c.Text() {
      SplitText(c);
      ValueOfNumeral(c.slot);
      ValueOfNumeral(c.session);
    }
    if IsNumeral(left) && IsNumeral(right) {
      ScanOfNumeral(left);
      ScanOfNumeral(right);
    }
  }

  /** `parse` is laxer than `to_string`: a minus sign in front of any session but zero is
      accepted and wraps around, so a channel has more than one text. */
  lemma ParseIsLax(slot: nat, session: nat)
    requires slot <= INT32_MAX && 0 < session <= UINT64_MAX
    ensures Parse(Numeral(slot) + ":" + ("-" + Numeral(session)))
         == Some(ReplyChannel(slot, UINT64_MAX + 1 - session))
  {
    var left, right := Numeral(slot), "-" + Numeral(session);
    StoiOfSlotText(ReplyChannel(slot, session));
    StoullOfNumeral(session, true);
    NoColonInNumeral(slot);
    NoColonInNumeral(session);
    SplitJoined(left, right);
  }
}
