/** The unit loop of the dashboard's byte formatter, in 64-bit arithmetic. */
module ByteUnits {
  import opened Arithmetic

  const TWO64: nat := 0x1_0000_0000_0000_0000
  const UNITS := "KMGTPE"

  function Pow1024(n: nat): (p: nat)
    ensures p >= 1
  {
    if n == 0 then 1 else 1024 * Pow1024(n - 1)
  }

  lemma SevenUnitsOverflow()
    ensures Pow1024(6) == 0x1000_0000_0000_0000 && Pow1024(7) > TWO64
  {
    assert Pow1024(1) == 1024;
    assert Pow1024(2) == 0x10_0000;
    assert Pow1024(3) == 0x4000_0000;
    assert Pow1024(4) == 0x100_0000_0000;
    assert Pow1024(5) == 0x4_0000_0000_0000;
  }

  lemma {:induction false} PowMono(a: nat, b: nat)
    requires a <= b
    ensures Pow1024(a) <= Pow1024(b)
    decreases b
  {
    if a < b {
      PowMono(a, b - 1);
    }
  }

  lemma DivideAgain(v: nat, d: nat)
    requires d > 0
    ensures (v / d) / 1024 == v / (1024 * d)
  {
    var n := v / d;
    var q := n / 1024;
    assert n * d <= v < (n + 1) * d;
    assert q * 1024 <= n < (q + 1) * 1024;
    MulMono(q * 1024, n, d);
    MulMono(n + 1, (q + 1) * 1024, d);
    assert q * 1024 * d == q * (1024 * d);
    assert (q + 1) * 1024 * d == (q + 1) * (1024 * d);
    QuotientUnique(v, 1024 * d, q);
  }

  /** The loop for v of at least one unit: the divisor and the index of the unit letter. */
  method UnitOf(v: nat) returns (div: nat, exp: nat)
    requires 1024 <= v < TWO64
    ensures exp < |UNITS| && div == Pow1024(exp + 1) && div < TWO64
    ensures div <= v < 1024 * div
  {
    hide Pow1024;
    PowBase();
    div, exp := 1024, 0;
    var n := v / 1024;
    while n >= 1024
      invariant exp < |UNITS| && div == Pow1024(exp + 1) && 0 < div <= v
      invariant n == v / div
      decreases n
    {
      NextUnit(v, div, exp);
      div := (div * 1024) % TWO64;   // uint64 multiplication
      exp := exp + 1;
      n := n / 1024;
    }
    BelowNext(v, div);
  }

  lemma PowBase()
    ensures Pow1024(1) == 1024
  {
    assert Pow1024(0) == 1;
  }

  /** One more turn does not overflow and stays inside the unit letters. */
  lemma NextUnit(v: nat, div: nat, exp: nat)
    requires 0 < div && v < TWO64 && div == Pow1024(exp + 1) && v / div >= 1024
    ensures 1024 * div <= v && (div * 1024) % TWO64 == 1024 * div == Pow1024(exp + 2)
    ensures exp + 1 < |UNITS|
    ensures (v / div) / 1024 == v / (1024 * div)
  {
    hide Pow1024;
    PowStep(exp + 1);
    DivideAgain(v, div);
    MulMono(1024, v / div, div);
    assert (v / div) * div <= v;
    if exp + 2 >= 7 {
      PowMono(7, exp + 2);
      SevenUnitsOverflow();
      assert false;
    }
  }

  lemma PowStep(n: nat)
    ensures Pow1024(n + 1) == 1024 * Pow1024(n)
  {
  }

  lemma BelowNext(v: nat, div: nat)
    requires div > 0 && v / div < 1024
    ensures v < 1024 * div
  {
    assert v < (v / div + 1) * div;
    MulMono(v / div + 1, 1024, div);
  }

  /** The unit is determined by the value. */
  lemma UnitIsUnique(v: nat, a: nat, b: nat)
    requires Pow1024(a + 1) <= v < Pow1024(a + 2) && Pow1024(b + 1) <= v < Pow1024(b + 2)
    ensures a == b
  {
    hide Pow1024;
    if a < b {
      PowMono(a + 2, b + 1);
      assert false;
    } else if b < a {
      PowMono(b + 2, a + 1);
      assert false;
    }
  }
}
