/** Facts about division that the solver does not find by itself. */
module Arithmetic {
  lemma AtLeastOnce(a: int, m: nat)
    requires a >= 1
    ensures a * m >= m
  {
  }

  lemma Remainder(x: nat, m: nat, q: nat, r: nat)
    requires m >= 1 && x == q * m + r && r < m
    ensures x % m == r && x / m == q
  {
    var p, s := x / m, x % m;
    assert x == p * m + s;
    assert (q - p) * m == s - r && (p - q) * m == r - s;
    if q > p {
      AtLeastOnce(q - p, m);
    } else if q < p {
      AtLeastOnce(p - q, m);
    }
  }

  lemma IntQuotient(x: int, m: nat, q: int, r: nat)
    requires m >= 1 && x == q * m + r && r < m
    ensures x / m == q
  {
    var p, s := x / m, x % m;
    assert x == p * m + s;
    assert (q - p) * m == s - r && (p - q) * m == r - s;
    if q > p {
      AtLeastOnce(q - p, m);
    } else if q < p {
      AtLeastOnce(p - q, m);
    }
  }

  lemma TenModulo(n: nat, m: nat)
    requires m >= 1
    ensures n % (10 * m) / 10 == n / 10 % m
    ensures n % (10 * m) % 10 == n % 10
  {
    var h := n / 10;
    var q, r := h / m, h % m;
    assert h == q * m + r;
    assert n == 10 * h + n % 10;
    assert n == q * (10 * m) + (10 * r + n % 10);
    Remainder(n, 10 * m, q, 10 * r + n % 10);
  }

  lemma Regrouped(p: nat, b: nat, s: nat, a: nat, r: nat)
    ensures (p * b + s) * a + r == p * (a * b) + (s * a + r)
  {
    assert (p * b + s) * a == p * b * a + s * a;
    assert p * b * a == p * (a * b);
  }

  lemma BelowProduct(s: nat, b: nat, r: nat, a: nat)
    requires s < b && r < a
    ensures s * a + r < a * b
  {
    AtLeastOnce(b - s, a);
    assert (b - s) * a == a * b - s * a;
  }

  lemma Quotients(n: nat, a: nat, b: nat)
    requires a >= 1 && b >= 1
    ensures n / a / b == n / (a * b)
  {
    var q, r := n / a, n % a;
    NestedQuotient(n, a, b, q, r, q / b, q % b);
  }

  lemma NestedQuotient(n: nat, a: nat, b: nat, q: nat, r: nat, p: nat, s: nat)
    requires a >= 1 && b >= 1
    requires n == q * a + r && r < a
    requires q == p * b + s && s < b
    ensures p == n / (a * b)
  {
    Regrouped(p, b, s, a, r);
    BelowProduct(s, b, r, a);
    Remainder(n, a * b, p, s * a + r);
  }

  lemma QuotientBetween(a: int, b: int, s: nat, w: nat)
    requires s >= 1 && a <= b + w * s
    ensures a / s <= b / s + w
  {
    var q, r, p, t := b / s, b % s, a / s, a % s;
    assert b == q * s + r && a == p * s + t;
    assert (p - (q + w)) * s == a - t - (b - r) - w * s;
    if p > q + w {
      AtLeastOnce(p - (q + w), s);
    }
  }

  lemma QuotientBeyond(a: int, b: int, s: nat, w: nat)
    requires s >= 1 && a >= b + (w + 1) * s
    ensures a / s >= b / s + w + 1
  {
    var q, r, p, t := b / s, b % s, a / s, a % s;
    assert b == q * s + r && a == p * s + t;
    assert (q + w + 1 - p) * s == (b - r) + (w + 1) * s - (a - t);
    if p < q + w + 1 {
      AtLeastOnce(q + w + 1 - p, s);
    }
  }
}
