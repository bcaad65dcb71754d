/** A few facts about products and quotients of natural numbers. */
module Arithmetic {

  lemma MulMono(a: nat, b: nat, c: nat)
    requires a <= b
    ensures a * c <= b * c
  {
  }

  lemma QuotientUnique(v: nat, d: nat, q: nat)
    requires d > 0 && q * d <= v < (q + 1) * d
    ensures v / d == q
  {
    var p := v / d;
    assert p * d <= v < (p + 1) * d;
    if p < q {
      MulMono(p + 1, q, d);
      assert false;
    } else if q < p {
      MulMono(q + 1, p, d);
      assert false;
    }
  }
}
