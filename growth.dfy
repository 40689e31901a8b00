/** Compound growth of a feature value: `base * (1 + pct/100) ** k`, in exact
    real arithmetic. */
module Growth {

  /** `x` raised to the natural power `n`, as Python's `**` with a
      non-negative integer exponent. */
  function Pow(x: real, n: nat): real
  {
    if n == 0 then 1.0 else x * Pow(x, n - 1)
  }

  /** The yearly factor for a percentage change `pct`: `1 + pct/100`, where the
      division is true division of an integer by 100. */
  function Factor(pct: int): real
  {
    1.0 + pct as real / 100.0
  }

  /** The value `base` takes after `k` years of compound growth at `pct`
      percent a year. */
  function Compound(base: real, pct: int, k: nat): real
  {
    base * Pow(Factor(pct), k)
  }

  /** The percentage range the dashboard's sliders allow. */
  predicate InSliderRange(pct: int)
  {
    -15 <= pct <= 15
  }

  /** No change a year leaves the value unchanged, after any number of years. */
  lemma {:induction false} PowOne(n: nat)
    ensures Pow(1.0, n) == 1.0
  {
    if n > 0 {
      PowOne(n - 1);
    }
  }

  /** Exponents add: `k + m` years of growth are `k` years followed by `m`. */
  lemma {:induction false} PowAdd(x: real, k: nat, m: nat)
    ensures Pow(x, k + m) == Pow(x, k) * Pow(x, m)
  {
    if k > 0 {
      PowAdd(x, k - 1, m);
      assert Pow(x, k + m) == x * Pow(x, k - 1 + m);
    }
  }

  /** A positive factor stays positive under any power. */
  lemma {:induction false} PowPositive(x: real, n: nat)
    requires x > 0.0
    ensures Pow(x, n) > 0.0
  {
    if n > 0 {
      PowPositive(x, n - 1);
    }
  }

  /** A slider percentage gives a factor between 0.85 and 1.15. */
  lemma FactorInSliderRange(pct: int)
    requires InSliderRange(pct)
    ensures 0.85 <= Factor(pct) <= 1.15
  {
  }

  /** With no change a year, the value never moves from its base. */
  lemma ZeroChangeKeepsBase(base: real, k: nat)
    ensures Compound(base, 0, k) == base
  {
    PowOne(k);
  }

  /** One more year of growth multiplies the value by the yearly factor. */
  lemma NextYear(base: real, pct: int, k: nat)
    ensures Compound(base, pct, k + 1) == Compound(base, pct, k) * Factor(pct)
  {
    PowAdd(Factor(pct), k, 1);
  }

  /** Within the slider range the projection never changes the sign of the
      base value, and its direction from year to year follows the sign of
      the percentage: rising for a positive change, falling for a negative
      one, constant for zero (for a positive base). */
  lemma {:induction false} Direction(base: real, pct: int, k: nat)
    requires InSliderRange(pct) && base > 0.0
    ensures Compound(base, pct, k) > 0.0
    ensures pct > 0 ==> Compound(base, pct, k + 1) > Compound(base, pct, k)
    ensures pct < 0 ==> Compound(base, pct, k + 1) < Compound(base, pct, k)
    ensures pct == 0 ==> Compound(base, pct, k + 1) == Compound(base, pct, k)
  {
    FactorInSliderRange(pct);
    PowPositive(Factor(pct), k);
    NextYear(base, pct, k);
    var v := Compound(base, pct, k);
    assert v == base * Pow(Factor(pct), k);
    assert v > 0.0;
  }

  /** Two years at +10% take 100 to 121. */
  lemma TenPercentTwice()
    ensures Compound(100.0, 10, 2) == 121.0
  {
    assert Factor(10) == 1.1;
    assert Pow(1.1, 2) == 1.1 * Pow(1.1, 1);
  }
}
