/** `order.Accrual` (internal/model/order/accrual.go): an unsigned 64-bit count of
    hundredths of a point. The decimal amounts the outside world uses (the JSON of the
    accrual system, the `double precision` column) are modelled as exact reals. */
module OrderAccrual {
  import opened Wrappers

  /** 2^64: `Accrual` arithmetic wraps around modulo this. */
  const Modulus: int := 0x1_0000_0000_0000_0000

  /** `type Accrual uint64`. */
  type Accrual = a: int | 0 <= a < Modulus

  /** A decimal amount (a `float64` in Go) whose conversion to hundredths fits `uint64`. */
  type Amount = x: real | 0.0 <= x && x * 100.0 < Modulus as real

  /** `Accrual.ToFloat`: hundredths to a decimal amount. */
  function ToFloat(a: Accrual): (x: Amount)
    ensures x * 100.0 == a as real
  {
    a as real / 100.0
  }

  /** `NewAccrual`: the conversion `Accrual(acc * 100)`, which truncates. */
  function NewAccrual(acc: Amount): (a: Accrual)
    ensures ToFloat(a) <= acc < ToFloat(a) + 0.01
  {
    (acc * 100.0).Floor
  }

  /** `ParseAccrual`: a nil amount stays nil, any other amount is converted. */
  function ParseAccrual(acc: Option<Amount>): (r: Option<Accrual>)
    ensures r.None? <==> acc.None?
    ensures acc.Some? ==> ToFloat(r.value) <= acc.value < ToFloat(r.value) + 0.01
  {
    match acc
    case None => None
    case Some(x) => Some(NewAccrual(x))
  }

  /** `Accrual.Add`: adds the pointed-to value, if any, with `uint64` wrap-around. */
  function Add(acc: Accrual, accr: Option<Accrual>): (r: Accrual)
    ensures accr.None? ==> r == acc
    ensures accr.Some? && acc + accr.value < Modulus ==> r == acc + accr.value
    ensures accr.Some? ==> (acc + accr.value - r) % Modulus == 0
  {
    match accr
    case None => acc
    case Some(v) => (acc + v) % Modulus
  }

  /** A decimal amount produced by `ToFloat` converts back to the same hundredths. */
  lemma NewAccrualOfToFloat(a: Accrual)
    ensures NewAccrual(ToFloat(a)) == a
  {
    assert ToFloat(a) * 100.0 == a as real;
  }

  /** The value an optional accrual contributes to a total: nil counts as 0. */
  function ValueOr0(accr: Option<Accrual>): Accrual {
    if accr.Some? then accr.value else 0
  }

  /** Folding `Add` over `accs` from the left, starting at 0. */
  function Sum(accs: seq<Option<Accrual>>): Accrual {
    if accs == [] then 0 else Add(Sum(accs[..|accs| - 1]), accs[|accs| - 1])
  }

  /** The exact (unbounded) total of `accs`. */
  function Exact(accs: seq<Option<Accrual>>): nat {
    if accs == [] then 0 else ValueOr0(accs[0]) + Exact(accs[1..])
  }

  lemma {:induction false} ExactAppend(a: seq<Option<Accrual>>, b: seq<Option<Accrual>>)
    ensures Exact(a + b) == Exact(a) + Exact(b)
  {
    if a == [] {
      assert a + b == b;
    } else {
      assert (a + b)[1..] == a[1..] + b;
      ExactAppend(a[1..], b);
    }
  }

  lemma ExactLast(accs: seq<Option<Accrual>>)
    requires accs != []
    ensures Exact(accs) == Exact(accs[..|accs| - 1]) + ValueOr0(accs[|accs| - 1])
  {
    var init, last := accs[..|accs| - 1], accs[|accs| - 1];
    assert accs == init + [last];
    ExactAppend(init, [last]);
    var one: seq<Option<Accrual>> := [last];
    assert one[1..] == [];
  }

  lemma AddModulo(e: nat, v: nat)
    ensures (e % Modulus + v) % Modulus == (e + v) % Modulus
  {
  }

  /** The folded `Add` is the exact total reduced modulo 2^64. */
  lemma {:induction false} SumIsExactModulo(accs: seq<Option<Accrual>>)
    ensures Sum(accs) == Exact(accs) % Modulus
  {
    if accs != [] {
      var init, last := accs[..|accs| - 1], accs[|accs| - 1];
      SumIsExactModulo(init);
      ExactLast(accs);
      AddModulo(Exact(init), ValueOr0(last));
    }
  }

  /** Taking out element `j` takes its value out of the exact total. */
  lemma {:induction false} ExactRemove(t: seq<Option<Accrual>>, j: nat)
    requires j < |t|
    ensures Exact(t) == ValueOr0(t[j]) + Exact(t[..j] + t[j + 1..])
  {
    if j == 0 {
      assert t[..0] + t[1..] == t[1..];
    } else {
      var tail := t[1..];
      ExactRemove(tail, j - 1);
      assert t[..j] + t[j + 1..] == [t[0]] + (tail[..j - 1] + tail[j..]);
    }
  }

  /** Matching the head of `s` with element `j` of its permutation `t` leaves two
      permutations of each other. */
  lemma PermutationRest(s: seq<Option<Accrual>>, t: seq<Option<Accrual>>, j: nat)
    requires multiset(s) == multiset(t) && s != [] && j < |t| && t[j] == s[0]
    ensures multiset(s[1..]) == multiset(t[..j] + t[j + 1..])
  {
    var x := s[0];
    assert t == t[..j] + [x] + t[j + 1..];
    assert multiset(t) == multiset(t[..j]) + multiset{x} + multiset(t[j + 1..]);
    assert multiset(t[..j] + t[j + 1..]) == multiset(t[..j]) + multiset(t[j + 1..]);
    assert s == [x] + s[1..];
    assert multiset(s) == multiset{x} + multiset(s[1..]);
    assert multiset(s[1..]) == multiset(s) - multiset{x};
  }

  lemma {:induction false} ExactPermutation(s: seq<Option<Accrual>>, t: seq<Option<Accrual>>)
    requires multiset(s) == multiset(t)
    ensures Exact(s) == Exact(t)
    decreases |s|
  {
    if s != [] {
      assert s[0] in multiset(t);
      var j :| 0 <= j < |t| && t[j] == s[0];
      PermutationRest(s, t, j);
      ExactPermutation(s[1..], t[..j] + t[j + 1..]);
      ExactRemove(t, j);
    }
  }

  /** Folding `Add` gives the same total whatever the order of the accruals. */
  lemma SumPermutation(s: seq<Option<Accrual>>, t: seq<Option<Accrual>>)
    requires multiset(s) == multiset(t)
    ensures Sum(s) == Sum(t)
  {
    SumIsExactModulo(s);
    SumIsExactModulo(t);
    ExactPermutation(s, t);
  }
}
