/** testlib's 64-bit integer reader: the digit loop of `stringToLongLong` and the
    digit-by-digit recheck of `equals`. */
module Int64Token {
  import opened Decimal
  import opened Wrappers

  const INT64_MIN: int := -0x8000_0000_0000_0000
  const INT64_MAX: int := 0x7fff_ffff_ffff_ffff

  type int64 = x: int | INT64_MIN <= x <= INT64_MAX

  /** The only text testlib accepts for v: `-` for negatives, then the plain numeral. */
  function Canonical(v: int): string {
    if v < 0 then "-" + Numeral(-v) else Numeral(v)
  }

  /** The digits of 2^63 and the text testlib treats apart. */
  const MINIMUM_DIGITS := "9223372036" + "854775808"
  const MINIMUM_TEXT := "-" + MINIMUM_DIGITS

  /** The digits of n, none for zero: what is left to compare in the recheck loop. */
  function Remaining(n: nat): string {
    if n == 0 then "" else Numeral(n)
  }

  lemma {:induction false} RemainingStep(n: nat)
    requires n > 0
    ensures Remaining(n) == Remaining(n / 10) + [DigitChar(n % 10)]
  {
  }

  lemma {:induction false} NumeralSnoc(m: nat, d: nat)
    requires m > 0 && d < 10
    ensures Numeral(10 * m + d) == Numeral(m) + [DigitChar(d)]
  {
    assert (10 * m + d) / 10 == m;
  }

  lemma {:induction false} NumeralSnoc3(m: nat, a: nat, b: nat, c: nat)
    requires m > 0 && a < 10 && b < 10 && c < 10
    ensures Numeral(1000 * m + 100 * a + 10 * b + c)
         == Numeral(m) + [DigitChar(a), DigitChar(b), DigitChar(c)]
  {
    NumeralSnoc(m, a);
    NumeralSnoc(10 * m + a, b);
    NumeralSnoc(10 * (10 * m + a) + b, c);
  }

  lemma PrintedHead()
    ensures Numeral(9223372036) == "9223372036"
  {
    NumeralSnoc3(9, 2, 2, 3);
    NumeralSnoc3(9223, 3, 7, 2);
    NumeralSnoc3(9223372, 0, 3, 6);
  }

  lemma PrintedTail(m: nat)
    requires m > 0
    ensures Numeral(1000000000 * m + 854775808) == Numeral(m) + "854775808"
  {
    NumeralSnoc3(m, 8, 5, 4);
    NumeralSnoc3(1000 * m + 854, 7, 7, 5);
    NumeralSnoc3(1000 * (1000 * m + 854) + 775, 8, 0, 8);
  }

  lemma PrintedMagnitude(m: nat)
    requires m == 9223372036854775808
    ensures Numeral(m) == MINIMUM_DIGITS
  {
    PrintedHead();
    PrintedTail(9223372036);
  }

  lemma PrintedMinimum(v: int)
    requires v == INT64_MIN
    ensures Canonical(v) == MINIMUM_TEXT
  {
    var m: nat := -v;
    PrintedMagnitude(m);
    assert Canonical(v) == "-" + Numeral(m);
  }

  /** One turn of the recheck: either the last uncompared digit agrees and moves to the
      compared tail, or the text is another number. */
  lemma CompareStep(whole: string, n: nat, text: string, length: nat)
    requires n > 0 && 0 < length <= |text|
    requires whole == Remaining(n) + text[length..]
    ensures text[length - 1] == DigitChar(n % 10) ==> whole == Remaining(n / 10) + text[length - 1..]
    ensures text[length - 1] != DigitChar(n % 10) ==> text != whole
  {
    RemainingStep(n);
    var front := Remaining(n / 10);
    assert whole == front + [DigitChar(n % 10)] + text[length..];
    assert whole[|front|] == DigitChar(n % 10);
    assert |front| - |whole| == length - 1 - |text|;
    assert text[length - 1..] == [text[length - 1]] + text[length..];
  }

  /** The text is the end of the word, but not all of it. */
  predicate ProperSuffix(text: string, word: string) {
    |text| < |word| && word[|word| - |text|..] == text
  }

  /** The recheck loop of `equals`, from the last digit of `s[start..]` backwards. When it runs
      out of text with digits left it looks at the character before `start`. */
  method CompareDigits(magnitude: nat, s: string, start: nat) returns (same: bool)
    requires magnitude > 0 && start <= |s|
    requires if start == 0 then !ProperSuffix(s, Numeral(magnitude)) else !IsDigit(s[start - 1])
    ensures same <==> s[start..] == Numeral(magnitude)
  {
    ghost var text := s[start..];
    var length, n := |s| - start, magnitude;
    while n > 0
      invariant 0 <= length <= |text| && n >= 0
      invariant Numeral(magnitude) == Remaining(n) + text[length..]
    {
      var digit := n % 10;
      if length == 0 {
        RanOut(Numeral(magnitude), n, text);
      } else {
        CompareStep(Numeral(magnitude), n, text, length);
      }
      if s[start + length - 1] != DigitChar(digit) {
        return false;
      }
      length := length - 1;
      n := n / 10;
    }
    return length == 0;
  }

  /** Out of text with digits left: the text is a proper tail of the number. */
  lemma RanOut(whole: string, n: nat, text: string)
    requires n > 0 && whole == Remaining(n) + text[0..]
    ensures ProperSuffix(text, whole)
  {
    RemainingStep(n);
    assert text[0..] == text && whole[|Remaining(n)|..] == text;
  }

  /** `equals`. Only a nonempty proper tail of a positive number's own decimal takes the recheck
      before the string; below zero it meets the minus sign there and answers false. */
  method EqualsDecimal(integer: int64, s: string) returns (same: bool)
    requires integer > 0 && s != "" ==> !ProperSuffix(s, Numeral(integer))
    ensures same <==> s == Canonical(integer)
  {
    if integer == INT64_MIN {
      PrintedMinimum(integer);
      return s == MINIMUM_TEXT;
    }
    if integer == 0 {
      return s == "0";
    }
    ValueOfNumeral(if integer < 0 then -integer else integer);
    if |s| == 0 {
      return false;
    }
    if integer < 0 && s[0] != '-' {
      return false;
    }
    var start := if integer < 0 then 1 else 0;
    if start == |s| {
      return false;
    }
    same := CompareDigits(if integer < 0 then -integer else integer, s, start);
    assert s == if integer < 0 then "-" + s[1..] else s[0..];
  }

  /** How many zeros open a digit string. */
  function LeadingZeros(s: string): (n: nat)
    ensures n <= |s|
    ensures n > 0 ==> s[0] == '0'
    ensures s != "" && s[0] == '0' ==> n > 0
  {
    if s == "" || s[0] != '0' then 0 else 1 + LeadingZeros(s[1..])
  }

  lemma {:induction false} LeadingZerosSnoc(s: string, c: char)
    ensures LeadingZeros(s + [c]) ==
            LeadingZeros(s) + (if LeadingZeros(s) == |s| && c == '0' then 1 else 0)
  {
    if s == "" {
      assert s + [c] == [c];
    } else if s[0] == '0' {
      LeadingZerosSnoc(s[1..], c);
      assert (s + [c])[1..] == s[1..] + [c];
    }
  }

  lemma {:induction false} LeadingZerosOfPair(s: string)
    requires |s| >= 2 && s[0] == '0'
    ensures LeadingZeros(s) == 1 <==> s[1] != '0'
  {
    assert s[1..][0] == s[1];
  }

  lemma {:induction false} ZerosAreZero(s: string)
    requires AllDigits(s)
    ensures Value(s) == 0 <==> LeadingZeros(s) == |s|
  {
    if s != "" {
      var front, c := s[..|s| - 1], s[|s| - 1];
      ZerosAreZero(front);
      LeadingZerosSnoc(front, c);
      assert s == front + [c];
      ValueOfSnoc(front, c);
    }
  }

  /** A wrapped product is any int64: the C++ signed overflow is undefined. */
  function MulAdd(retval: int64, d: nat, overflowed: int64): (r: int64) {
    var exact := retval * 10 + d;
    if INT64_MIN <= exact <= INT64_MAX then exact else overflowed
  }

  lemma PowersOfTen()
    ensures Pow10(18) == 1000000000000000000 && Pow10(19) == 10000000000000000000
  {
    assert Pow10(6) == 1000000;
    assert Pow10(12) == 1000000000000;
    assert Pow10(18) == 1000000000000000000;
  }

  /** The verdict of the reader on a token that has a legal digit part. */
  predicate ZeroRuleBroken(zeroes: nat, retval: int, minus: bool) {
    (zeroes > 0 && (retval != 0 || minus)) || zeroes > 1
  }

  function Signed(minus: bool, n: int): int {
    if minus then -n else n
  }

  /** The digit loop: None at the first character that is no digit. The accumulated
      value is exact as long as the number fits, and anything at all otherwise. */
  method ScanDigits(digits: string, overflow: nat -> int64)
    returns (scan: Option<(int64, nat)>)
    ensures scan.Some? <==> AllDigits(digits)
    ensures scan.Some? ==> scan.value.1 == LeadingZeros(digits)
    ensures scan.Some? && Value(digits) <= INT64_MAX ==> scan.value.0 == Value(digits)
  {
    var retval: int64 := 0;
    var zeroes, processingZeroes := 0, true;
    for i := 0 to |digits|
      invariant AllDigits(digits[..i])
      invariant Value(digits[..i]) <= INT64_MAX ==> retval == Value(digits[..i])
      invariant zeroes == LeadingZeros(digits[..i])
      invariant processingZeroes <==> zeroes == i
    {
      var c := digits[i];
      var front := digits[..i];
      assert digits[..i + 1] == front + [c];
      LeadingZerosSnoc(front, c);
      if c == '0' && processingZeroes {
        zeroes := zeroes + 1;
      } else {
        processingZeroes := false;
      }
      if c < '0' || c > '9' {
        return None;
      }
      ValueOfSnoc(front, c);
      retval := MulAdd(retval, DigitValue(c), overflow(i));
    }
    assert digits[..|digits|] == digits;
    return Some((retval, zeroes));
  }

  /** The value a token is the canonical decimal of, if any, and how the reader sees it. */
  lemma CanonicalValue(buffer: string) returns (canonical: Option<int64>)
    ensures canonical.Some? ==> buffer == Canonical(canonical.value)
    ensures forall v: int64 :: buffer == Canonical(v) ==> canonical == Some(v)
    ensures canonical.Some? && canonical.value != INT64_MIN ==> Readable(buffer, canonical.value)
  {
    CanonicalInjective(buffer);
    if v: int64 :| buffer == Canonical(v) {
      canonical := Some(v);
      CanonicalShape(buffer, |buffer| > 1 && buffer[0] == '-');
    } else {
      canonical := None;
    }
  }

  predicate Readable(buffer: string, v: int) {
    var minus := |buffer| > 1 && buffer[0] == '-';
    var digits := if minus then buffer[1..] else buffer;
    && minus == (v < 0)
    && IsNumeral(digits) && Value(digits) == (if v < 0 then 0 - v else v)
    && |buffer| <= 20 && (minus ==> digits[0] != '0')
  }

  /** `stringToLongLong`. None is the `_pe` exit. Whatever an overflowing step yields
      (`overflow` is arbitrary), the value is returned exactly for the canonical
      decimal of an int64. The empty token, which `readWord` never produces, reads as 0. */
  method StringToLongLong(buffer: string, overflow: nat -> int64) returns (r: Option<int64>)
    ensures buffer == "" ==> r == Some(0)
    ensures buffer != "" && r.Some? ==> buffer == Canonical(r.value)
    ensures forall v: int64 :: buffer == Canonical(v) ==> r == Some(v)
  {
    ghost var canonical := CanonicalValue(buffer);
    var minimum: int64 := INT64_MIN;
    PrintedMinimum(minimum);
    if buffer == MINIMUM_TEXT {
      return Some(minimum);
    }
    r := ReadDecimal(buffer, overflow, canonical);
  }

  /** The digit loop, the zero rule and the recheck. */
  method ReadDecimal(buffer: string, overflow: nat -> int64, ghost canonical: Option<int64>) returns (r: Option<int64>)
    requires canonical.Some? ==>
               canonical.value != INT64_MIN && buffer == Canonical(canonical.value) && Readable(buffer, canonical.value)
    ensures buffer == "" ==> r == Some(0)
    ensures buffer != "" && r.Some? ==> buffer == Canonical(r.value)
    ensures canonical.Some? ==> r == canonical
  {
    var length := |buffer|;
    var minus := length > 1 && buffer[0] == '-';
    if length > 20 {
      return None;
    }
    var digits := if minus then buffer[1..] else buffer;
    var scan := ScanDigits(digits, overflow);
    if scan.None? {
      return None;
    }
    var (retval, zeroes) := scan.value;
    if retval < 0 {
      return None;
    }
    ZerosAreZero(digits);
    if ZeroRuleBroken(zeroes, retval, minus) {
      return None;
    }
    ShortDigitsFit(digits);
    var signed: int64 := Signed(minus, retval);
    if length < 19 {
      if buffer != "" {
        DigitsAreCanonical(buffer, minus, digits);
      }
      return Some(signed);
    }
    RecheckStaysInside(digits, retval);
    var same := EqualsDecimal(signed, buffer);
    r := if same then Some(signed) else None;
  }

  /** Eighteen digits or more leave room for the decimal of what was read from them. */
  lemma RecheckStaysInside(digits: string, retval: nat)
    requires AllDigits(digits) && |digits| >= 18 && retval <= INT64_MAX
    requires Value(digits) <= INT64_MAX ==> retval == Value(digits)
    ensures !ProperSuffix(digits, Numeral(retval))
  {
    ShortDigitsFit(digits);
    NumeralLength(retval);
    if retval > 0 && |digits| == 18 && |Numeral(retval)| > 18 {
      LongNumeralIsLarge(retval);
      Pow10Monotone(18, |Numeral(retval)| - 1);
      assert false;
    }
  }

  /** Up to 18 digits never overflow; 19 hold every int64. */
  lemma ShortDigitsFit(digits: string)
    requires AllDigits(digits)
    ensures |digits| <= 18 ==> Value(digits) <= INT64_MAX && Value(digits) < Pow10(|digits|)
    ensures |digits| >= 19 ==> INT64_MAX < Pow10(|digits|)
  {
    PowersOfTen();
    ValueBelowPow10(digits);
    if |digits| <= 18 {
      Pow10Monotone(|digits|, 18);
    } else {
      Pow10Monotone(19, |digits|);
    }
  }

  /** Different numbers print differently. */
  lemma CanonicalInjective(buffer: string)
    ensures forall u: int, v: int :: buffer == Canonical(u) && buffer == Canonical(v) ==> u == v
  {
    forall u: int, v: int | buffer == Canonical(u) && buffer == Canonical(v)
      ensures u == v
    {
      ValueOfNumeral(if u < 0 then -u else u);
      ValueOfNumeral(if v < 0 then -v else v);
      if u < 0 && v < 0 {
        assert buffer[1..] == Numeral(-u) && buffer[1..] == Numeral(-v);
      }
    }
  }

  /** What a canonical token looks like to the reader: its sign, its digits, its length. */
  lemma CanonicalShape(buffer: string, minus: bool)
    requires minus == (|buffer| > 1 && buffer[0] == '-')
    ensures forall v: int64 :: buffer == Canonical(v) && v != INT64_MIN ==>
              var digits := if minus then buffer[1..] else buffer;
              && minus == (v < 0)
              && IsNumeral(digits)
              && Value(digits) == (if v < 0 then -v else v)
              && |buffer| <= 20
              && (minus ==> digits[0] != '0')
  {
    forall v: int64 | buffer == Canonical(v) && v != INT64_MIN
      ensures var digits := if minus then buffer[1..] else buffer;
              && minus == (v < 0)
              && IsNumeral(digits)
              && Value(digits) == (if v < 0 then -v else v)
              && |buffer| <= 20
              && (minus ==> digits[0] != '0')
    {
      var m: nat := if v < 0 then -v else v;
      ValueOfNumeral(m);
      NumeralLength(m);
      if v < 0 {
        assert buffer[1..] == Numeral(m);
      }
    }
  }

  lemma NumeralLength(m: nat)
    requires m <= INT64_MAX
    ensures |Numeral(m)| <= 19
  {
    PowersOfTen();
    if |Numeral(m)| > 19 {
      LongNumeralIsLarge(m);
      Pow10Monotone(19, |Numeral(m)| - 1);
    }
  }

  lemma {:induction false} LongNumeralIsLarge(m: nat)
    requires m > 0
    ensures |Numeral(m)| >= 1 && m >= Pow10(|Numeral(m)| - 1)
  {
    if m >= 10 {
      LongNumeralIsLarge(m / 10);
    }
  }

  /** The converse: digits that pass the zero rule spell their value canonically. */
  lemma DigitsAreCanonical(buffer: string, minus: bool, digits: string)
    requires minus == (|buffer| > 1 && buffer[0] == '-')
    requires digits == (if minus then buffer[1..] else buffer) && digits != ""
    requires AllDigits(digits)
    requires !ZeroRuleBroken(LeadingZeros(digits), Value(digits), minus)
    ensures buffer == Canonical(Signed(minus, Value(digits)))
  {
    if digits[0] == '0' && |digits| > 1 {
      LeadingZerosOfPair(digits);
      ZerosAreZero(digits);
    }
    ZerosAreZero(digits);
    NumeralOfValue(digits);
    if minus {
      assert buffer == "-" + digits;
    }
  }
}
