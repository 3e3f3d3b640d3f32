/** Powers, primes and Fermat's little theorem. */
module Fermat {

  function Pow(x: int, n: nat): int {
    if n == 0 then 1 else x * Pow(x, n - 1)
  }

  lemma {:induction false} PowAdd(x: int, m: nat, n: nat)
    ensures Pow(x, m + n) == Pow(x, m) * Pow(x, n)
  {
    if m > 0 {
      PowAdd(x, m - 1, n);
      assert Pow(x, m + n) == x * (Pow(x, m - 1) * Pow(x, n));
    }
  }

  ghost predicate IsPrime(p: int) {
    p > 1 && forall d :: 1 < d < p ==> p % d != 0
  }

  lemma ModStep(a: int, b: int, c: int, p: int)
    requires p > 0 && a % p == b % p
    ensures (a * c) % p == (b * c) % p
  {
    var k := a / p - b / p;
    assert a == b + k * p;
    assert a * c == b * c + (k * c) * p;
    ModShift(b * c, k * c, p);
  }

  lemma ModShift(a: int, k: int, p: int)
    requires p > 0
    ensures (a + k * p) % p == a % p
  {
    var q, r := a / p, a % p;
    var d := (a + k * p) / p - (q + k);
    var s := (a + k * p) % p;
    assert a + k * p == (d + q + k) * p + s;
    assert (d + q + k) * p == d * p + q * p + k * p;
    assert d * p == r - s;
    assert (d >= 1 ==> d * p >= p) && (d <= -1 ==> d * p <= -p);
  }

  lemma SmallMod(a: int, p: int)
    requires 0 <= a < p
    ensures a % p == a
  {
  }

  /** Euclid: a prime that divides a product divides a factor. */
  lemma {:induction false} PrimeDivides(p: int, a: int, b: int)
    requires IsPrime(p) && 0 < a < p && (a * b) % p == 0
    ensures b % p == 0
    decreases a
  {
    if a > 1 {
      var q, r, k := p / a, p % a, (a * b) / p;
      assert p == q * a + r && 0 < r < a;
      RestOfMultiple(p, a, b, q, r, k);
      PrimeDivides(p, r, b);
    }
  }

  lemma RestOfMultiple(p: int, a: int, b: int, q: int, r: int, k: int)
    requires p > 0 && p == q * a + r && a * b == k * p
    ensures (r * b) % p == 0
  {
    assert (q * a) * b == q * (a * b) && q * (k * p) == (q * k) * p;
    assert r * b == p * b - (q * a) * b;
    assert r * b == (b - q * k) * p;
    ModShift(0, b - q * k, p);
    SmallMod(0, p);
  }

  // ---- the multiples of z permute 1 .. p - 1

  function Range(n: nat): (r: set<int>)
    ensures forall i :: i in r <==> 1 <= i <= n
    ensures |r| == n
  {
    if n == 0 then {} else Range(n - 1) + {n}
  }

  /** The product of the members of s that lie in 1 .. n. */
  function ProdIn(s: set<int>, n: nat): int {
    if n == 0 then 1 else (if n in s then n else 1) * ProdIn(s, n - 1)
  }

  lemma {:induction false} ProdInAbove(s: set<int>, x: int, n: nat)
    requires x > n
    ensures ProdIn(s + {x}, n) == ProdIn(s, n)
  {
    if n > 0 {
      ProdInAbove(s, x, n - 1);
    }
  }

  lemma {:induction false} ProdInAdd(s: set<int>, x: int, n: nat)
    requires x !in s && 1 <= x <= n
    ensures ProdIn(s + {x}, n) == x * ProdIn(s, n)
  {
    if x == n {
      ProdInAbove(s, x, n - 1);
    } else {
      ProdInAdd(s, x, n - 1);
      var c := if n in s then n else 1;
      assert c * (x * ProdIn(s, n - 1)) == x * (c * ProdIn(s, n - 1));
    }
  }

  function Multiple(z: int, i: int, p: int): int
    requires p > 0
  {
    (z * i) % p
  }

  function Image(z: int, p: int, k: nat): (r: set<int>)
    requires p > 0
    ensures forall x :: x in r ==> exists i :: 1 <= i <= k && x == Multiple(z, i, p)
  {
    if k == 0 then {} else Image(z, p, k - 1) + {Multiple(z, k, p)}
  }

  /** The k-th multiple is not 0 and differs from the earlier ones. */
  lemma ImageFresh(z: int, p: int, k: int, j: int)
    requires IsPrime(p) && 0 < z < p && 0 <= j < k < p
    ensures Multiple(z, k, p) != Multiple(z, j, p)
  {
    if Multiple(z, k, p) == Multiple(z, j, p) {
      var d := (z * k) / p - (z * j) / p;
      assert z * (k - j) == d * p;
      ModShift(0, d, p);
      PrimeDivides(p, z, k - j);
      SmallMod(k - j, p);
    }
  }

  lemma {:induction false} ImageCard(z: int, p: int, k: nat)
    requires IsPrime(p) && 0 < z < p && k < p
    ensures |Image(z, p, k)| == k && Image(z, p, k) <= Range(p - 1)
  {
    if k > 0 {
      ImageCard(z, p, k - 1);
      NewMultiple(z, p, k);
    }
  }

  lemma {:induction false} ImageProduct(z: int, p: int, k: nat)
    requires IsPrime(p) && 0 < z < p && k < p
    ensures ProdIn(Image(z, p, k), p - 1) % p == (Pow(z, k) * ProdIn(Range(k), k)) % p
  {
    if k == 0 {
      ProdInEmpty(p - 1);
    } else {
      ImageProduct(z, p, k - 1);
      NewMultiple(z, p, k);
      ImageProductStep(z, p, k);
    }
  }

  lemma ImageProductStep(z: int, p: int, k: nat)
    requires 0 < k < p && 1 <= Multiple(z, k, p) < p && Multiple(z, k, p) !in Image(z, p, k - 1)
    requires ProdIn(Image(z, p, k - 1), p - 1) % p == (Pow(z, k - 1) * ProdIn(Range(k - 1), k - 1)) % p
    ensures ProdIn(Image(z, p, k), p - 1) % p == (Pow(z, k) * ProdIn(Range(k), k)) % p
  {
    var s, x := Image(z, p, k - 1), Multiple(z, k, p);
    assert Image(z, p, k) == s + {x};
    assert Pow(z, k) == z * Pow(z, k - 1);
    ProdInAdd(s, x, p - 1);
    FactStep(k);
    hide Image, Pow, ProdIn, Range, Multiple;
    ProductStep(x, z, k, ProdIn(s, p - 1), Pow(z, k - 1), ProdIn(Range(k - 1), k - 1), p);
  }

  lemma FirstMultiple(z: int, p: int)
    requires p > 0
    ensures Multiple(z, 0, p) == 0
  {
    SmallMod(0, p);
  }

  lemma MultipleRange(z: int, k: int, p: int)
    requires p > 0
    ensures 0 <= Multiple(z, k, p) < p
  {
  }

  lemma NewMultiple(z: int, p: int, k: nat)
    requires IsPrime(p) && 0 < z < p && 0 < k < p
    ensures 1 <= Multiple(z, k, p) < p && Multiple(z, k, p) !in Image(z, p, k - 1)
  {
    hide Multiple, IsPrime;
    FirstMultiple(z, p);
    MultipleRange(z, k, p);
    ImageFresh(z, p, k, 0);
    forall j | 1 <= j <= k - 1 ensures Multiple(z, j, p) != Multiple(z, k, p) {
      ImageFresh(z, p, k, j);
    }
  }

  lemma ProductStep(x: int, z: int, k: int, a: int, w: int, f: int, p: int)
    requires p > 0 && x == Multiple(z, k, p) && a % p == (w * f) % p
    ensures (x * a) % p == ((z * w) * (k * f)) % p
  {
    SmallMod(x, p);
    ModMul(x, z * k, a, w * f, p);
    assert (z * k) * (w * f) == (z * w) * (k * f);
  }

  lemma {:induction false} ProdInEmpty(n: nat)
    ensures ProdIn({}, n) == 1
  {
    if n > 0 {
      ProdInEmpty(n - 1);
    }
  }

  lemma FactStep(k: nat)
    requires k > 0
    ensures ProdIn(Range(k), k) == k * ProdIn(Range(k - 1), k - 1)
  {
    assert Range(k) == Range(k - 1) + {k};
    ProdInAbove(Range(k - 1), k, k - 1);
  }

  lemma ModMul(a: int, b: int, c: int, d: int, p: int)
    requires p > 0 && a % p == b % p && c % p == d % p
    ensures (a * c) % p == (b * d) % p
  {
    ModStep(a, b, c, p);
    ModStep(c, d, b, p);
  }

  lemma {:induction false} FactUnit(p: int, k: nat)
    requires IsPrime(p) && k < p
    ensures ProdIn(Range(k), k) % p != 0
  {
    if k > 0 {
      FactUnit(p, k - 1);
      FactStep(k);
      if (k * ProdIn(Range(k - 1), k - 1)) % p == 0 {
        PrimeDivides(p, k, ProdIn(Range(k - 1), k - 1));
      }
    }
  }

  lemma SubsetCard(s: set<int>, t: set<int>)
    requires s <= t && |s| == |t|
    ensures s == t
  {
    assert t == s + (t - s);
    assert |t - s| == 0;
  }

  /** Fermat's little theorem. */
  lemma LittleTheorem(z: int, p: int)
    requires IsPrime(p) && z % p != 0
    ensures Pow(z, p - 1) % p == 1
  {
    var y := z % p;
    ImageProduct(y, p, p - 1);
    ImageCard(y, p, p - 1);
    SubsetCard(Image(y, p, p - 1), Range(p - 1));
    FactUnit(p, p - 1);
    Cancel(Pow(y, p - 1), ProdIn(Range(p - 1), p - 1), p);
    SmallMod(y, p);
    PowMod(z, y, p - 1, p);
  }

  lemma Cancel(a: int, f: int, p: int)
    requires IsPrime(p) && f % p != 0 && f % p == (a * f) % p
    ensures a % p == 1
  {
    CancelStep(a, f, f % p, p);
    PrimeDivides(p, f % p, a - 1);
    OneMore(a, p);
  }

  lemma CancelStep(a: int, f: int, g: int, p: int)
    requires p > 0 && g == f % p && g == (a * f) % p
    ensures (g * (a - 1)) % p == 0
  {
    SmallMod(g, p);
    ModStep(f, g, a, p);
    assert f * a == a * f;
    SameRest(g * a, g, p);
    assert g * (a - 1) == g * a - g;
  }

  lemma OneMore(a: int, p: int)
    requires p > 1 && (a - 1) % p == 0
    ensures a % p == 1
  {
    ModShift(1, (a - 1) / p, p);
    SmallMod(1, p);
  }

  lemma SameRest(x: int, y: int, p: int)
    requires p > 0 && x % p == y % p
    ensures (x - y) % p == 0
  {
    var d := x / p - y / p;
    assert x - y == d * p;
    ModShift(0, d, p);
  }

  lemma {:induction false} PowMod(x: int, y: int, n: nat, p: int)
    requires p > 0 && x % p == y % p
    ensures Pow(x, n) % p == Pow(y, n) % p
  {
    if n > 0 {
      PowMod(x, y, n - 1, p);
      ModMul(x, y, Pow(x, n - 1), Pow(y, n - 1), p);
    }
  }
}
