/** Products, quotients and remainders of integers. */
module Arithmetic {
  lemma Monotone(p: nat, a: nat, b: nat)
    requires a <= b
    ensures p * a <= p * b
  {
    assert p * b == p * a + p * (b - a);
  }

  lemma QuotientBound(x: nat, d: nat)
    requires d > 0
    ensures 0 <= x / d <= x && x % d <= x
  {
    var q := x / d;
    assert x == d * q + x % d;
    Monotone(q, 1, d);
    Monotone(d, 0, q);
  }

  lemma Scale(d: nat, k: int)
    requires k >= 1
    ensures d * k >= d
  {
  }

  lemma ModIs(x: int, d: nat, q: int, r: int)
    requires d > 0 && x == d * q + r && 0 <= r < d
    ensures x % d == r && x / d == q
  {
    var q', r' := x / d, x % d;
    assert d * (q - q') == r' - r;
    if q > q' { Scale(d, q - q'); } else if q < q' { Scale(d, q' - q); }
  }

  lemma HalfMod(x: nat, p: nat)
    requires p > 0
    ensures x % (2 * p) == x % 2 + 2 * (x / 2 % p)
  {
    var h := x / 2;
    var q, r := h / p, h % p;
    assert x == 2 * p * q + (2 * r + x % 2) by {
      assert h == p * q + r;
      assert 2 * (p * q) == 2 * p * q;
    }
    ModIs(x, 2 * p, q, 2 * r + x % 2);
  }
}
