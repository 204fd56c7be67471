/** Facts about products, quotients and remainders that the arithmetic cores share. */
module Numbers {
  function MinReal(a: real, b: real): real {
    if a < b then a else b
  }

  function MaxReal(a: real, b: real): real {
    if a < b then b else a
  }

  /** Scaling by a positive factor keeps the order. */
  lemma Compare(a: real, b: real, c: real)
    requires c > 0.0
    ensures a < b <==> a * c < b * c
  {
  }

  lemma FactorMonotone(q: nat, a: int, b: int)
    requires a <= b
    ensures q * a <= q * b
  {
  }

  lemma FactorBelow(q: nat, a: int, b: int)
    requires q * a < q * b
    ensures a < b
  {
  }

  /** The only multiple of m strictly between -m and m is zero. */
  lemma NoMultipleBetween(m: nat, d: int)
    ensures 0 - m < m * d < m ==> d == 0
  {
    if d >= 1 { FactorMonotone(m, 1, d); } else if d <= -1 { FactorMonotone(m, d, -1); }
  }

  lemma Remainder(x: nat, m: nat, q: nat, r: nat)
    requires m > 0 && x == m * q + r && r < m
    ensures x % m == r
  {
    var d := x / m - q;
    assert m * d == r - x % m;
    NoMultipleBetween(m, d);
  }
}
