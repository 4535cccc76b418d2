/**
  Multi-denomination decimal coin sets, as the accumulator helpers use them.

  A coin set maps a denomination to a decimal amount. In normal form a
  denomination is present only when its amount is non-zero, and every
  operation works per denomination over the union of the keys of its
  operands, a missing denomination counting as zero. Amounts, and the
  scalars they are multiplied by, are whole-number decimals, written as
  integers. The 18-digit decimal multiplies its 10^18-scaled values and
  divides the product by 10^18; for two whole numbers that division leaves
  no remainder, so the exact integer product is its result.
  Fractional values, where the decimal would round, are not represented.
  Amounts are unbounded: the decimal's overflow panic is not modelled.
*/
module Coins {

  /** A coin set in normal form: no denomination with a zero amount. */
  type DecCoins = c: map<string, int> | forall d :: d in c ==> c[d] != 0

  /** The amount of one denomination; zero when the denomination is absent. */
  function AmountOf(c: DecCoins, denom: string): int
  {
    if denom in c then c[denom] else 0
  }

  /** `a` is component-wise at least `b`, missing denominations counting as zero. */
  ghost predicate Gte(a: DecCoins, b: DecCoins)
  {
    forall d :: AmountOf(a, d) >= AmountOf(b, d)
  }

  /** No denomination of `c` is negative. */
  ghost predicate NonNegative(c: DecCoins)
  {
    forall d :: AmountOf(c, d) >= 0
  }

  /** Per-denomination sum over the union of keys; sums that cancel out are dropped. */
  function Add(a: DecCoins, b: DecCoins): (sum: DecCoins)
    ensures forall d :: AmountOf(sum, d) == AmountOf(a, d) + AmountOf(b, d)
    ensures sum.Keys <= a.Keys + b.Keys
  {
    map d | d in a.Keys + b.Keys && AmountOf(a, d) + AmountOf(b, d) != 0
      :: AmountOf(a, d) + AmountOf(b, d)
  }

  /** Every amount with its sign flipped. */
  function Negative(c: DecCoins): (neg: DecCoins)
    ensures forall d :: AmountOf(neg, d) == -AmountOf(c, d)
    ensures neg.Keys == c.Keys
  {
    map d | d in c :: -c[d]
  }

  /** Whether some denomination holds a negative amount. */
  function IsAnyNegative(c: DecCoins): (neg: bool)
    ensures neg <==> exists d :: AmountOf(c, d) < 0
    ensures !neg <==> NonNegative(c)
  {
    if exists d | d in c :: c[d] < 0 then
      var d :| d in c && c[d] < 0;
      assert AmountOf(c, d) < 0;
      true
    else
      false
  }

  /**
    The difference `a - b` together with a flag telling whether it is
    negative in some denomination; never fails.
  */
  function SafeSub(a: DecCoins, b: DecCoins): (res: (DecCoins, bool))
    ensures forall d :: AmountOf(res.0, d) == AmountOf(a, d) - AmountOf(b, d)
    ensures res.1 <==> !Gte(a, b)
  {
    var diff := Add(a, Negative(b));
    (diff, IsAnyNegative(diff))
  }

  /** The difference `a - b`; the library panics when it would be negative anywhere. */
  function Sub(a: DecCoins, b: DecCoins): (diff: DecCoins)
    requires Gte(a, b)
    ensures forall d :: AmountOf(diff, d) == AmountOf(a, d) - AmountOf(b, d)
    ensures NonNegative(diff)
  {
    SafeSub(a, b).0
  }

  /** Every amount multiplied by the scalar `k`; products equal to zero are dropped. */
  function MulDec(c: DecCoins, k: int): (product: DecCoins)
    ensures forall d :: AmountOf(product, d) == AmountOf(c, d) * k
    ensures product.Keys <= c.Keys
  {
    map d | d in c && c[d] * k != 0 :: c[d] * k
  }

  /** Two coin sets in normal form that agree on every amount are the same set. */
  lemma Extensionality(a: DecCoins, b: DecCoins)
    requires forall d :: AmountOf(a, d) == AmountOf(b, d)
    ensures a == b
  {
    forall d | d in a
      ensures d in b && a[d] == b[d]
    {
      assert AmountOf(a, d) == AmountOf(b, d);
    }
    forall d | d in b
      ensures d in a
    {
      assert AmountOf(a, d) == AmountOf(b, d);
    }
    assert a.Keys == b.Keys;
  }

  /** Adding the empty coin set changes nothing. */
  lemma AddEmpty(a: DecCoins)
    ensures Add(a, map[]) == a
  {
    Extensionality(Add(a, map[]), a);
  }

  /** `Gte` is a partial order: it is transitive. */
  lemma GteTransitive(a: DecCoins, b: DecCoins, c: DecCoins)
    requires Gte(a, b) && Gte(b, c)
    ensures Gte(a, c)
  {
    forall d ensures AmountOf(a, d) >= AmountOf(c, d) {
      assert AmountOf(a, d) >= AmountOf(b, d);
      assert AmountOf(b, d) >= AmountOf(c, d);
    }
  }
}
