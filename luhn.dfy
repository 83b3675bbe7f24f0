/** The order-number check of service/order/saved.go: `ValidNumber` and `checksum`,
    the Luhn mod-10 "double-add-double" check digit of ISO/IEC 7812-1, Annex B. The
    source computes on Go's signed `int`, whose `/` and `%` truncate toward zero. */
module Luhn {
  import opened OrderNumber

  /** Go's `a / b` for `b > 0`: truncates toward zero. */
  function Quo(a: int, b: int): int
    requires b > 0
  {
    if a >= 0 then a / b else -((-a) / b)
  }

  /** Go's `a % b` for `b > 0`: takes the sign of `a`. */
  function Rem(a: int, b: int): int
    requires b > 0
  {
    a - b * Quo(a, b)
  }

  /** The contribution of digit `d` at position `pos`, counted from 0 at the right:
      digits at even positions are doubled, and a doubled value above 9 has 9 cast out. */
  function Term(d: nat, pos: nat): nat {
    if pos % 2 == 0 then (if 2 * d > 9 then 2 * d % 10 + 2 * d / 10 else 2 * d) else d
  }

  /** The Luhn sum of a decimal text whose last character stands at position `pos`. */
  function TextSum(s: string, pos: nat): nat
    requires AllDigits(s)
  {
    if s == [] then 0 else Term(DigitValue(s[|s| - 1]), pos) + TextSum(s[..|s| - 1], pos + 1)
  }

  /** The same sum computed on the value: digit `m % 10` stands at position `pos`. */
  function WeightedSum(m: nat, pos: nat): nat {
    if m == 0 then 0 else Term(m % 10, pos) + WeightedSum(m / 10, pos + 1)
  }

  /** What `checksum(number)` returns. */
  function ChecksumOf(number: int): int {
    if number > 0 then WeightedSum(number, 0) % 10 else 0
  }

  /** `ValidNumber`: the last digit plus the checksum of the others is a multiple of 10. */
  function ValidNumber(number: Int64): bool {
    Rem(Rem(number, 10) + ChecksumOf(Quo(number, 10)), 10) == 0
  }

  /** `ValidNumber` as the source computes it, calling the `checksum` loop. */
  method IsValidNumber(number: Int64) returns (ok: bool)
    ensures ok == ValidNumber(number)
  {
    var rest: Int64 := Quo(number, 10);
    var sum := Checksum(rest);
    ok := Rem(Rem(number, 10) + sum, 10) == 0;
  }

  /** `checksum`: the loop over the digits, least significant first. */
  method Checksum(n: Int64) returns (r: int)
    ensures r == ChecksumOf(n)
    ensures 0 <= r < 10
    ensures n > 0 ==> r == TextSum(DecimalText(n), 0) % 10
  {
    var number: int := n;
    var luhn := 0;
    var i := 0;
    while number > 0
      invariant n <= 0 ==> number == n && luhn == 0
      invariant n > 0 ==> number >= 0 && luhn + WeightedSum(number, i) == WeightedSum(n, 0)
      invariant i >= 0
    {
      var cur := number % 10;
      if i % 2 == 0 {
        cur := cur * 2;
        if cur > 9 {
          cur := cur % 10 + cur / 10;
        }
      }
      luhn := luhn + cur;
      number := number / 10;
      i := i + 1;
    }
    r := luhn % 10;
    if n > 0 {
      TextSumIsWeightedSum(n, 0);
    }
  }

  /** The sum over the decimal text equals the sum over the value. */
  lemma {:induction false} TextSumIsWeightedSum(m: nat, pos: nat)
    ensures TextSum(DecimalText(m), pos) == WeightedSum(m, pos)
  {
    var t := DecimalText(m);
    if m < 10 {
      assert t[..|t| - 1] == [];
    } else {
      assert t[..|t| - 1] == DecimalText(m / 10);
      TextSumIsWeightedSum(m / 10, pos + 1);
    }
  }

  /** Only the parity of the starting position matters. */
  lemma {:induction false} WeightedSumParity(m: nat, pos: nat)
    ensures WeightedSum(m, pos + 2) == WeightedSum(m, pos)
  {
    if m != 0 {
      WeightedSumParity(m / 10, pos + 1);
    }
  }

  /** For a non-negative number, `ValidNumber` is the standard Luhn test on its decimal
      text: the check digit (rightmost) undoubled, the digit left of it doubled, and so
      on, the total a multiple of 10. */
  lemma ValidNumberIsLuhn(n: Int64)
    requires n >= 0
    ensures ValidNumber(n) <==> TextSum(DecimalText(n), 1) % 10 == 0
  {
    ValidNumberDigits(n);
    LuhnSumDigits(n);
    ModTen(n % 10, WeightedSum(n / 10, 0));
  }

  /** `ValidNumber` of a non-negative number, on its last digit and the sum of the rest. */
  lemma ValidNumberDigits(n: Int64)
    requires n >= 0
    ensures ValidNumber(n) == ((n % 10 + WeightedSum(n / 10, 0) % 10) % 10 == 0)
  {
    var last, rest := n % 10, n / 10;
    RemOfNonNegative(n);
    assert Quo(n, 10) == rest;
    assert ChecksumOf(rest) == WeightedSum(rest, 0) % 10;
    RemOfNonNegative(last + ChecksumOf(rest));
  }

  /** The Luhn sum of the text starting undoubled: the last digit plus the doubled-first
      sum of the rest. */
  lemma LuhnSumDigits(n: nat)
    ensures TextSum(DecimalText(n), 1) == n % 10 + WeightedSum(n / 10, 0)
  {
    TextSumIsWeightedSum(n, 1);
    WeightedSumParity(n / 10, 0);
  }

  lemma RemOfNonNegative(a: int)
    requires a >= 0
    ensures Rem(a, 10) == a % 10
  {
  }

  lemma ModTen(a: nat, b: nat)
    ensures (a + b % 10) % 10 == (a + b) % 10
  {
    var q := b / 10;
    assert b == 10 * q + b % 10;
    assert a + b == (a + b % 10) + 10 * q;
  }

  /** Zero passes: its last digit and its checksum are both 0. */
  lemma ZeroIsValid()
    ensures ValidNumber(0)
  {
  }

  /** Appending a digit to `m` gives a valid number for exactly one digit, the Luhn
      check digit; every other last digit (an off-by-one included) is rejected. */
  lemma CheckDigitUnique(m: nat, d: nat)
    requires d < 10 && 10 * m + 9 < TwoTo63
    ensures ValidNumber(10 * m + d) <==> d == (10 - ChecksumOf(m)) % 10
  {
    assert Quo(10 * m + d, 10) == m;
    assert Rem(10 * m + d, 10) == d;
  }

  /** The wrap of `int(number)` for numbers from 2^63 on: a negative `int` has
      checksum 0, so it passes exactly when it is a multiple of 10. */
  lemma NegativeValidIffMultipleOf10(n: Int64)
    requires n < 0
    ensures ValidNumber(n) <==> n % 10 == 0
  {
    assert ChecksumOf(Quo(n, 10)) == 0;
  }
}
