/** Money as exact reals, rounded to cents half away from zero (src/pricing/models.py:38-52). */
module Money {
  /** value.quantize(0.01, ROUND_HALF_UP), counted in cents. */
  function Cents(value: real): int {
    if value >= 0.0 then (value * 100.0 + 0.5).Floor else -((-value * 100.0 + 0.5).Floor)
  }

  function Round(value: real): real {
    Cents(value) as real / 100.0
  }

  function Abs(x: real): real {
    if x < 0.0 then -x else x
  }

  function ApplyDiscount(listCost: real, discountPercent: real): real {
    if discountPercent <= 0.0 then listCost else listCost * ((100.0 - discountPercent) / 100.0)
  }

  /** Amounts that round to the same cent differ by strictly less than a cent. */
  lemma SameCent(a: real, b: real)
    requires Round(a) == Round(b)
    ensures Abs(a - b) < 0.01
  {
    assert Cents(a) == Cents(b);
  }
}
