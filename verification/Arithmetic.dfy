/** Facts about division and remainder shared by the HAL modules. */
module Arithmetic {

  const WRAP32: nat := 0x1_0000_0000

  // Quotient and remainder under names that proofs can hide.
  function Div(a: nat, b: nat): nat
    requires b > 0
  {
    a / b
  }

  function Mod(a: nat, b: nat): nat
    requires b > 0
  {
    a % b
  }

  lemma DivModOf(a: nat, b: nat)
    requires b > 0
    ensures a == b * Div(a, b) + Mod(a, b) && Mod(a, b) < b
  {
  }

  lemma DivModIs(a: nat, b: nat, q: nat, r: nat)
    requires b > 0 && a == b * q + r && r < b
    ensures Div(a, b) == q && Mod(a, b) == r
  {
    DivMod(a, b, q, r);
  }

  lemma Distribute(p: int, a: int, b: int)
    ensures p * (a - b) == p * a - p * b && p * (a + b) == p * a + p * b
  {
  }

  lemma AtLeast(p: nat, d: nat)
    requires d >= 1
    ensures p * d >= p
  {
    Distribute(p, d, 1);
    assert p * (d - 1) >= 0;
  }

  // The quotient and the remainder are unique.
  lemma DivMod(a: int, p: nat, q: int, r: nat)
    requires p > 0 && a == p * q + r && r < p
    ensures a / p == q && a % p == r
  {
    var q', r' := a / p, a % p;
    assert a == p * q' + r';
    Distribute(p, q, q');
    if q > q' { AtLeast(p, q - q'); }
    if q < q' { Distribute(p, q', q); AtLeast(p, q' - q); }
  }

  // Multiples of p do not count.
  lemma ModShift(a: int, p: nat, k: int)
    requires p > 0
    ensures (a + p * k) % p == a % p && (a + p * k) / p == a / p + k
  {
    Distribute(p, a / p, k);
    DivMod(a + p * k, p, a / p + k, a % p);
  }

  lemma Associate(a: int, b: int, c: int)
    ensures a * b * c == a * (b * c) == a * c * b
  {
  }

  lemma Scaled(c: nat, a: int, b: int)
    requires a <= b
    ensures c * a <= c * b
  {
    Distribute(c, b, a);
    assert c * (b - a) >= 0;
  }

  lemma Cancel(c: nat, a: int, b: int)
    requires c > 0
    ensures c * a == c * b <==> a == b
  {
    Distribute(c, a, b);
    if a < b { Distribute(c, b, a); AtLeast(c, b - a); }
    if a > b { AtLeast(c, a - b); }
  }

  lemma Ordered(a: int, b: int, p: nat)
    requires p > 0 && a <= b
    ensures a / p <= b / p
  {
    if a / p > b / p { AtLeast(p, a / p - b / p); Distribute(p, a / p, b / p); }
  }

  lemma OneLess(a: int, p: nat)
    requires p > 0
    ensures a % p == (a - p) % p
  {
    ModShift(a, p, -1);
  }
}
