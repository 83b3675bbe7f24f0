/** `order.Number` (internal/model/order/number.go): a `uint64` parsed with
    `strconv.Atoi` and printed with `strconv.Itoa(int(n))`. Both conversions between
    Go's 64-bit `int` and `uint64` wrap; the model writes the wrap out. */
module OrderNumber {
  import opened Wrappers

  const TwoTo63: int := 0x8000_0000_0000_0000
  const TwoTo64: int := 0x1_0000_0000_0000_0000

  /** `type Number uint64`. */
  type Number = n: int | 0 <= n < TwoTo64

  /** Go's `int` on a 64-bit platform. */
  type Int64 = i: int | -TwoTo63 <= i < TwoTo63

  /** The `*strconv.NumError` returned for a text that is not a decimal `int`. */
  datatype NumError = NumError(text: string)

  predicate IsDigit(c: char) {
    '0' <= c <= '9'
  }

  predicate AllDigits(s: string) {
    forall i :: 0 <= i < |s| ==> IsDigit(s[i])
  }

  function DigitValue(c: char): (d: nat)
    requires IsDigit(c)
    ensures d < 10
  {
    c as int - '0' as int
  }

  function DigitChar(d: nat): (c: char)
    requires d < 10
    ensures IsDigit(c) && DigitValue(c) == d
  {
    ('0' as int + d) as char
  }

  /** The value of a string of decimal digits, most significant digit first. */
  function DigitsValue(s: string): nat
    requires AllDigits(s)
  {
    if s == [] then 0 else 10 * DigitsValue(s[..|s| - 1]) + DigitValue(s[|s| - 1])
  }

  /** The decimal text of `m`, without leading zeros. */
  function DecimalText(m: nat): (t: string)
    ensures |t| > 0 && AllDigits(t)
  {
    if m < 10 then [DigitChar(m)] else DecimalText(m / 10) + [DigitChar(m % 10)]
  }

  /** `s` without its leading sign character, if it has one. */
  function Unsigned(s: string): string {
    if |s| > 0 && (s[0] == '-' || s[0] == '+') then s[1..] else s
  }

  /** The syntax `Atoi` accepts: an optional sign, then one or more decimal digits. */
  predicate DecimalSyntax(s: string) {
    |Unsigned(s)| > 0 && AllDigits(Unsigned(s))
  }

  /** The (unbounded) value of a text in `DecimalSyntax`. */
  function SignedValue(s: string): int
    requires DecimalSyntax(s)
  {
    var m: int := DigitsValue(Unsigned(s));
    if s[0] == '-' then -m else m
  }

  /** `strconv.Atoi`: fails on a syntax error and on a value outside `int`. */
  function Atoi(s: string): Result<Int64, NumError> {
    if DecimalSyntax(s) && -TwoTo63 <= SignedValue(s) < TwoTo63
    then Success(SignedValue(s))
    else Failure(NumError(s))
  }

  /** `strconv.Itoa`. */
  function Itoa(i: Int64): string {
    var m: int := i;
    if m < 0 then "-" + DecimalText(-m) else DecimalText(m)
  }

  /** The conversion `Number(i)` of an `int`: negative values wrap. */
  function FromInt(i: Int64): Number {
    if i < 0 then i + TwoTo64 else i
  }

  /** The conversion `int(n)` of a `Number`: values from 2^63 on wrap to negative. */
  function ToInt(n: Number): Int64 {
    if n < TwoTo63 then n else n - TwoTo64
  }

  /** `ParseNumber`. */
  function ParseNumber(s: string): Result<Number, NumError> {
    match Atoi(s)
    case Success(i) => Success(FromInt(i))
    case Failure(e) => Failure(e)
  }

  /** `ParseNumber` accepts exactly the decimal texts whose value fits a signed `int`,
      and yields that value modulo 2^64. */
  lemma ParseNumberSpec(s: string)
    ensures ParseNumber(s).Success? <==> DecimalSyntax(s) && -TwoTo63 <= SignedValue(s) < TwoTo63
    ensures ParseNumber(s).Success? ==> ParseNumber(s).value as int % TwoTo64 == SignedValue(s) % TwoTo64
  {
  }

  /** `Number.String`. */
  function String(n: Number): string {
    Itoa(ToInt(n))
  }

  /** The digits of `DecimalText(m)` read back as `m`. */
  lemma {:induction false} DigitsValueOfText(m: nat)
    ensures DigitsValue(DecimalText(m)) == m
  {
    if m >= 10 {
      var t := DecimalText(m);
      assert t[..|t| - 1] == DecimalText(m / 10);
      DigitsValueOfText(m / 10);
    }
  }

  lemma NonNegativeText(m: nat)
    requires m < TwoTo63
    ensures Atoi(DecimalText(m)) == Success(m)
  {
    var s := DecimalText(m);
    assert IsDigit(s[0]);
    assert Unsigned(s) == s;
    DigitsValueOfText(m);
  }

  lemma NegativeText(m: nat)
    requires 0 < m <= TwoTo63
    ensures Atoi("-" + DecimalText(m)) == Success(0 - m)
  {
    var s := "-" + DecimalText(m);
    assert Unsigned(s) == DecimalText(m);
    DigitsValueOfText(m);
  }

  /** `Atoi` reads back every `int` that `Itoa` prints. */
  lemma AtoiOfItoa(i: Int64)
    ensures Atoi(Itoa(i)) == Success(i)
  {
    if i < 0 {
      NegativeText(0 - i as int);
    } else {
      NonNegativeText(i);
    }
  }

  /** Printing then parsing gives every `Number` back, including those that print negative. */
  lemma ParseNumberOfString(n: Number)
    ensures ParseNumber(String(n)) == Success(n)
  {
    if n < TwoTo63 {
      NonNegativeText(n);
    } else {
      NegativeText(TwoTo64 - n);
    }
  }

  /** A decimal text with no sign and no leading zero. */
  predicate Canonical(s: string) {
    |s| > 0 && AllDigits(s) && (s[0] == '0' ==> |s| == 1)
  }

  lemma {:induction false} LeadingDigitPositive(s: string)
    requires |s| > 0 && AllDigits(s) && s[0] != '0'
    ensures DigitsValue(s) >= 1
  {
    if |s| > 1 {
      LeadingDigitPositive(s[..|s| - 1]);
    }
  }

  lemma {:induction false} TextOfDigitsValue(s: string)
    requires Canonical(s)
    ensures DecimalText(DigitsValue(s)) == s
  {
    if |s| > 1 {
      var init := s[..|s| - 1];
      LeadingDigitPositive(init);
      TextOfDigitsValue(init);
      assert s == init + [s[|s| - 1]];
    }
  }

  /** Parsing then printing gives back a canonical text whose value fits a signed `int`. */
  lemma StringOfParseNumber(s: string)
    requires Canonical(s) && DigitsValue(s) < TwoTo63
    ensures ParseNumber(s).Success? && String(ParseNumber(s).value) == s
  {
    assert Unsigned(s) == s;
    TextOfDigitsValue(s);
  }

  /** A text with a letter among its digits is rejected. */
  lemma RejectsLetter()
    ensures ParseNumber("a23").Failure?
  {
    assert !IsDigit(Unsigned("a23")[0]);
  }

  /** A negative text is accepted and wraps into the top of the `uint64` range. */
  lemma NegativeWraps()
    ensures ParseNumber("-1") == Success(TwoTo64 - 1)
  {
    assert Unsigned("-1") == "1";
    assert DigitsValue("1") == 1 by {
      assert "1"[..0] == [];
    }
  }
}
