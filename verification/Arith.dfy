/** The few facts about products and quotients that the other modules need. */
module Arith {

  lemma MulMonotone(a: nat, b: nat, d: nat)
    requires a <= b
    ensures a * d <= b * d
  {
    assert 0 <= (b - a) * d;
    assert (b - a) * d == b * d - a * d;
  }

  lemma QuotientIs(v: nat, d: nat, q: nat)
    requires d > 0 && q * d <= v < (q + 1) * d
    ensures v / d == q
  {
    var e := v / d;
    assert e * d <= v < (e + 1) * d;
    if e > q {
      MulMonotone(q + 1, e, d);
    } else if e < q {
      MulMonotone(e + 1, q, d);
    }
  }
}
