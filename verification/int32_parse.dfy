/** `int.Parse` as the numeric-literal rule uses it: an optional leading
    sign followed by decimal digits, accumulated most significant digit
    first and refused as soon as the magnitude leaves the `Int32` range. */
module Int32Parse {
  import opened Wrappers
  import opened Runtime

  predicate IsDigit(c: char) {
    '0' <= c <= '9'
  }

  predicate AllDigits(s: string) {
    forall i :: 0 <= i < |s| ==> IsDigit(s[i])
  }

  function DigitValue(c: char): (d: nat)
    requires IsDigit(c)
    ensures d < 10
  {
    c as int - '0' as int
  }

  function DigitChar(d: nat): (c: char)
    requires d < 10
    ensures IsDigit(c) && DigitValue(c) == d
  {
    ('0' as int + d) as char
  }

  /** The number a run of decimal digits denotes, most significant first. */
  function DigitsValue(s: string): nat
    requires AllDigits(s)
  {
    if |s| == 0 then 0 else DigitsValue(s[..|s| - 1]) * 10 + DigitValue(s[|s| - 1])
  }

  predicate IsNegative(s: string) {
    |s| > 0 && s[0] == '-'
  }

  /** The text after an optional leading `-` or `+`. */
  function Magnitude(s: string): (m: string)
    ensures |m| <= |s| && m == s[|s| - |m|..]
  {
    if |s| > 0 && (s[0] == '-' || s[0] == '+') then s[1..] else s
  }

  /** Text `int.Parse` reads as an integer: an optional sign and at least
      one digit, nothing else. */
  predicate IsIntegerText(s: string) {
    |Magnitude(s)| > 0 && AllDigits(Magnitude(s))
  }

  /** The mathematical integer such a text denotes, before any range check. */
  function IntegerValue(s: string): int
    requires IsIntegerText(s)
  {
    if IsNegative(s) then 0 - DigitsValue(Magnitude(s)) else DigitsValue(Magnitude(s))
  }

  predicate InInt32Range(n: int) {
    MinInt32 <= n <= MaxInt32
  }

  lemma DigitsValueSnoc(s: string, c: char)
    requires AllDigits(s) && IsDigit(c)
    ensures AllDigits(s + [c])
    ensures DigitsValue(s + [c]) == DigitsValue(s) * 10 + DigitValue(c)
  {
    assert (s + [c])[..|s|] == s;
  }

  /** A prefix of a digit run never denotes more than the whole run. */
  lemma {:induction false} PrefixValueBounded(s: string, j: nat)
    requires AllDigits(s) && j <= |s|
    ensures DigitsValue(s[..j]) <= DigitsValue(s)
    decreases |s|
  {
    if j < |s| {
      var init := s[..|s| - 1];
      assert init[..j] == s[..j];
      PrefixValueBounded(init, j);
    } else {
      assert s[..j] == s;
    }
  }

  /** Consumes `digits[i..]` into `acc` (which holds the value of
      `digits[..i]`), failing as soon as the running value exceeds `limit`. */
  function Accumulate(digits: string, i: nat, acc: nat, limit: nat): (r: Option<nat>)
    requires AllDigits(digits) && i <= |digits|
    requires acc == DigitsValue(digits[..i]) && acc <= limit
    ensures r.Some? <==> DigitsValue(digits) <= limit
    ensures r.Some? ==> r.value == DigitsValue(digits)
    decreases |digits| - i
  {
    if i == |digits| then
      assert digits[..i] == digits;
      Some(acc)
    else
      var next := acc * 10 + DigitValue(digits[i]);
      assert next == DigitsValue(digits[..i + 1]) by {
        assert digits[..i + 1] == digits[..i] + [digits[i]];
        DigitsValueSnoc(digits[..i], digits[i]);
      }
      if next > limit then
        PrefixValueBounded(digits, i + 1);
        None
      else
        Accumulate(digits, i + 1, next, limit)
  }

  /** `int.Parse(s)`: a malformed text throws `FormatException`, a
      well-formed one outside the `Int32` range throws `OverflowException`. */
  function ParseInt32(s: string): (r: Result<int32, Error>)
    ensures r.Ok? <==> IsIntegerText(s) && InInt32Range(IntegerValue(s))
    ensures r.Ok? ==> r.value as int == IntegerValue(s)
    ensures r == Err(MalformedNumber) <==> !IsIntegerText(s)
    ensures r == Err(NumberOutOfRange) <==> IsIntegerText(s) && !InInt32Range(IntegerValue(s))
  {
    var digits := Magnitude(s);
    if |digits| == 0 || !AllDigits(digits) then
      Err(MalformedNumber)
    else
      var limit: nat := if IsNegative(s) then -MinInt32 else MaxInt32;
      match Accumulate(digits, 0, 0, limit)
      case None => Err(NumberOutOfRange)
      case Some(m) => Ok((if IsNegative(s) then 0 - m else m) as int32)
  }

  /** Decimal digits of a natural number, most significant first, without
      leading zeros. */
  function NatDigits(n: nat): (s: string)
    ensures |s| > 0 && AllDigits(s)
    decreases n
  {
    if n < 10 then [DigitChar(n)] else NatDigits(n / 10) + [DigitChar(n % 10)]
  }

  /** `Int32.ToString()` with the invariant culture: the inverse of
      `ParseInt32` on in-range values. */
  function FormatInt32(n: int32): string
  {
    if n < 0 then "-" + NatDigits(-(n as int)) else NatDigits(n as int)
  }

  lemma {:induction false} NatDigitsValue(n: nat)
    ensures DigitsValue(NatDigits(n)) == n
    decreases n
  {
    if n >= 10 {
      NatDigitsValue(n / 10);
      DigitsValueSnoc(NatDigits(n / 10), DigitChar(n % 10));
    }
  }

  /** Every `Int32` survives a format-then-parse round trip. */
  lemma ParseFormatRoundTrip(n: int32)
    ensures ParseInt32(FormatInt32(n)) == Ok(n)
  {
    var s := FormatInt32(n);
    if n < 0 {
      assert Magnitude(s) == NatDigits(-(n as int));
      NatDigitsValue(-(n as int));
    } else {
      var d := NatDigits(n as int);
      assert d[0] != '-' && d[0] != '+';
      assert Magnitude(s) == d;
      NatDigitsValue(n as int);
    }
  }

  /** A run of digits whose value exceeds `Int32.MaxValue` is rejected with
      `OverflowException`, not `FormatException`. */
  lemma PositiveOverflow(n: nat)
    requires n > MaxInt32
    ensures ParseInt32(NatDigits(n)) == Err(NumberOutOfRange)
  {
    var d := NatDigits(n);
    NatDigitsValue(n);
    assert d[0] != '-' && d[0] != '+';
    assert Magnitude(d) == d;
    assert IsIntegerText(d) && IntegerValue(d) == n;
  }

  /** A negated run of digits below `Int32.MinValue` is rejected the same way. */
  lemma NegativeOverflow(n: nat)
    requires n > -MinInt32
    ensures ParseInt32("-" + NatDigits(n)) == Err(NumberOutOfRange)
  {
    var d := NatDigits(n);
    var s := "-" + d;
    NatDigitsValue(n);
    assert Magnitude(s) == d;
    assert IsIntegerText(s) && IntegerValue(s) == 0 - n;
  }
}
