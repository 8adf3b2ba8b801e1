/** Shared value types, integer widths and powers. */
module Common {
  datatype Option<T> = None | Some(value: T)
  datatype Result<T, E> = Ok(value: T) | Err(error: E)

  type byte = x: int | 0 <= x < 256

  const U32 := 0x1_0000_0000
  const U64 := 0x1_0000_0000_0000_0000

  function Pow2(k: nat): (p: nat)
    ensures p > 0
  {
    if k == 0 then 1 else 2 * Pow2(k - 1)
  }

  // ------------------------------------------------------------------ division

  lemma AtLeastOnce(m: nat, t: int)
    requires t >= 1
    ensures m * t >= m
  {
  }

  lemma QuotientIs(x: int, m: nat, p: int, rest: int)
    requires m > 0 && x == m * p + rest && 0 <= rest < m
    ensures x / m == p
  {
    var k, r := x / m, x % m;
    assert x == m * k + r;
    assert m * (k - p) == m * k - m * p && m * (p - k) == m * p - m * k;
    if k > p { AtLeastOnce(m, k - p); } else if k < p { AtLeastOnce(m, p - k); }
  }

  lemma NestedDivision(d: nat, e: nat, p: int, s: int, r: int)
    requires 0 <= s < e && 0 <= r < d
    ensures d * (e * p + s) + r == (d * e) * p + (d * s + r) && 0 <= d * s + r < d * e
  {
    assert d * (e * p + s) == d * (e * p) + d * s;
    assert d * (e * p) == (d * e) * p;
    assert d * s <= d * (e - 1);
    assert d * (e - 1) == d * e - d;
  }

  /** Dividing twice is dividing by the product. */
  lemma DivTwice(n: nat, b: nat, p: nat)
    requires b > 0 && p > 0
    ensures b * p > 0 && n / b / p == n / (b * p)
  {
    var m, s := n / b, n % b;
    var q, r := m / p, m % p;
    NestedDivision(b, p, q, r, s);
    assert n == b * m + s && m == p * q + r;
    QuotientIs(n, b * p, q, b * r + s);
  }
}
