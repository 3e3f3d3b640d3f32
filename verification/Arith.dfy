/** Multiplication and division by a variable. */
module Arith {

  lemma DivBound(j: nat, m: nat, n: nat)
    requires 0 < m && j < m * n
    ensures j / m < n
  {
    var q := j / m;
    if q >= n {
      TimesMonotone(m, n, q);
    }
  }

  lemma DivLower(j: nat, m: nat, n: nat)
    requires 0 < m && m * n <= j
    ensures n <= j / m
  {
    var q := j / m;
    DivMod(j, m);
    TimesSucc(m, q);
    if q < n {
      TimesMonotone(m, q + 1, n);
    }
  }

  lemma TimesSucc(m: nat, q: nat)
    ensures m * (q + 1) == m * q + m
  {
  }

  lemma TimesMonotone(m: nat, a: nat, b: nat)
    requires a <= b
    ensures m * a <= m * b
  {
    assert m * b == m * a + m * (b - a);
  }

  lemma DivMod(i: nat, m: nat)
    requires m > 0
    ensures i == m * (i / m) + i % m
  {
  }

  lemma TimesZero(m: nat)
    ensures m * 0 == 0
  {
  }

  lemma DivMonotone(a: nat, b: nat, p: nat)
    requires a <= b && p > 0
    ensures a / p <= b / p
  {
    DivMod(a, p);
    DivLower(b, p, a / p);
  }

  lemma DivSmaller(a: nat, p: nat)
    requires p > 0
    ensures a / p <= a
  {
    TimesMonotone(a + 1, 1, p);
    DivBound(a, p, a + 1);
  }

  lemma ModUnique(x: int, m: int, q: int, r: int)
    requires m > 0 && x == q * m + r && 0 <= r < m
    ensures x % m == r && x / m == q
  {
    var d := x / m - q;
    assert x == (x / m) * m + x % m;
    assert d * m == r - x % m;
    assert (d >= 1 ==> d * m >= m) && (d <= -1 ==> d * m <= -m);
  }

  lemma DivTwice(h: int, m: int, n: int)
    requires h >= 0 && m > 0 && n > 0
    ensures h / (n * m) == (h / m) / n
  {
    var q, r, t := (h / m) / n, (h / m) % n, h % m;
    assert h == m * (n * q + r) + t;
    DivTwiceAlgebra(h, m, n, q, r, t);
  }

  lemma DivTwiceAlgebra(h: int, m: int, n: int, q: int, r: int, t: int)
    requires 0 < m && 0 < n && 0 <= r < n && 0 <= t < m && h == m * (n * q + r) + t
    ensures h / (n * m) == q
  {
    var mn, mr := n * m, m * r;
    assert m * (n * q + r) == q * mn + mr;
    assert mr <= m * (n - 1) && m * (n - 1) == mn - m;
    assert mr >= 0 && mn > 0;
    ModUnique(h, mn, q, mr + t);
  }
}
