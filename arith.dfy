/** Bytes, powers and facts about integer division that the models share. */
module Arith {
  /** An 8-bit unsigned value, as C's `unsigned char`. */
  type byte = x: int | 0 <= x < 0x100

  lemma MulAtLeast(k: int, b: int)
    requires k >= 1 && b > 0
    ensures k * b >= b
  {
  }

  /** Quotient and remainder are the only pair that rebuilds `a` with `0 <= r < b`. */
  lemma DivModUnique(a: int, b: int, q: int, r: int)
    requires b > 0 && a == q * b + r && 0 <= r < b
    ensures a / b == q && a % b == r
  {
    var q' := a / b;
    var r' := a % b;
    assert (q - q') * b == r' - r;
    if q > q' {
      MulAtLeast(q - q', b);
    } else if q < q' {
      MulAtLeast(q' - q, b);
    }
  }

  /** Dividing twice is dividing by the product. */
  lemma DivDiv(a: nat, b: nat, c: nat)
    requires b > 0 && c > 0
    ensures a / b / c == a / (b * c)
    ensures (a / b % c) * b + a % b == a % (b * c)
  {
    var q := a / b / c;
    var r := (a / b % c) * b + a % b;
    assert a / b == q * c + a / b % c;
    assert a == (q * c + a / b % c) * b + a % b;
    assert a == q * (b * c) + r;
    assert r <= (c - 1) * b + (b - 1) by {
      assert a / b % c <= c - 1;
      MulLeft(a / b % c, c - 1, b);
    }
    DivModUnique(a, b * c, q, r);
  }

  lemma MulLeft(x: nat, y: nat, b: nat)
    requires x <= y
    ensures x * b <= y * b
  {
  }

  /** A product below `n * d` has a factor below `n`. */
  lemma FactorBelow(k: nat, n: nat, d: nat)
    requires d > 0 && k * d < n * d
    ensures k < n
  {
    if k >= n {
      MulLeft(n, k, d);
    }
  }

  function Pow2(w: nat): (r: nat)
    ensures r >= 1
  {
    if w == 0 then 1 else 2 * Pow2(w - 1)
  }

  function Pow10(n: nat): (r: nat)
    ensures r >= 1
  {
    if n == 0 then 1 else 10 * Pow10(n - 1)
  }

  function Pow16(n: nat): (r: nat)
    ensures r >= 1
  {
    if n == 0 then 1 else 16 * Pow16(n - 1)
  }
}
