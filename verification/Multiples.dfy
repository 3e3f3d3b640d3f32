/** What the ladder computes: the multiples of a point by the doubling and differential
    addition formulas of a Montgomery curve. */
module Multiples {
  import opened Arith
  import opened Bits
  import opened Bytes
  import opened Fermat
  import opened FieldLimbs
  import opened FieldInvert
  import opened FieldMul
  import opened FieldBytes
  import opened Montgomery
  import opened KeyExchange

  /** A point by its u-coordinate x / z, as residues modulo p. */
  datatype Point = Point(x: int, z: int)

  // The formulas of the curve v^2 = u^3 + 486662 u^2 + u.

  function DoubleX(x: int, z: int): int {
    (x * x - z * z) * (x * x - z * z)
  }

  function DoubleZ(x: int, z: int): int {
    4 * (x * z) * (x * x + 486662 * (x * z) + z * z)
  }

  function AddX(x: int, z: int, x': int, z': int): int {
    4 * ((x * x' - z * z') * (x * x' - z * z'))
  }

  function AddZ(u: int, x: int, z: int, x': int, z': int): int {
    4 * u * ((x * z' - z * x') * (x * z' - z * x'))
  }

  /** n times the point with u-coordinate u, from the multiples by half of n. */
  function Multiple(u: int, n: nat, p: int): Point
    requires p > 1
    decreases n
  {
    if n == 0 then Point(1, 0)
    else if n == 1 then Point(u % p, 1)
    else
      var m := Multiple(u, n / 2, p);
      if n % 2 == 0 then Point(DoubleX(m.x, m.z) % p, DoubleZ(m.x, m.z) % p)
      else
        var m' := Multiple(u, n / 2 + 1, p);
        Point(AddX(m.x, m.z, m'.x, m'.z) % p, AddZ(u, m.x, m.z, m'.x, m'.z) % p)
  }

  // ---- one step doubles and adds

  lemma SquareOf(a: int, b: int)
    ensures (a + b) * (a + b) == a * a + 2 * (a * b) + b * b
    ensures (a - b) * (a - b) == a * a - 2 * (a * b) + b * b
    ensures (a + b) * (a - b) == a * a - b * b
  {
  }

  lemma FourProducts(a: int, b: int)
    ensures (a * a) * (b * b) == (a * b) * (a * b)
  {
    assert (a * a) * (b * b) == a * (a * (b * b)) && a * (b * b) == (a * b) * b;
  }

  lemma StepDoubles(u: int, s: Pair)
    ensures Formulas(u, s).x2 == DoubleX(s.x2, s.z2) && Formulas(u, s).z2 == DoubleZ(s.x2, s.z2)
  {
    var x, z := s.x2, s.z2;
    var A, B := x + z, x - z;
    SquareOf(x, z);
    FourProducts(A, B);
    var E := A * A - B * B;
    assert E == 4 * (x * z);
    assert A * A + 121665 * E == x * x + 486662 * (x * z) + z * z;
  }

  lemma CrossProducts(x: int, z: int, x': int, z': int)
    ensures (x' - z') * (x + z) + (x' + z') * (x - z) == 2 * (x * x' - z * z')
    ensures (x' - z') * (x + z) - (x' + z') * (x - z) == 2 * (z * x' - x * z')
  {
  }

  lemma SquareOfTwice(a: int)
    ensures (2 * a) * (2 * a) == 4 * (a * a) && (-a) * (-a) == a * a
  {
  }

  lemma StepAdds(u: int, s: Pair)
    ensures Formulas(u, s).x3 == AddX(s.x2, s.z2, s.x3, s.z3)
    ensures Formulas(u, s).z3 == AddZ(u, s.x2, s.z2, s.x3, s.z3)
  {
    var a, b := s.x2 * s.x3 - s.z2 * s.z3, s.x2 * s.z3 - s.z2 * s.x3;
    CrossProducts(s.x2, s.z2, s.x3, s.z3);
    SquareOfTwice(a);
    SquareOfTwice(b);
    SquareOfTwice(-b);
    assert u * (4 * (b * b)) == 4 * u * (b * b);
  }

  // ---- a common factor

  lemma DoubleScale(c: int, x: int, z: int)
    ensures DoubleX(c * x, c * z) == (c * c) * (c * c) * DoubleX(x, z)
    ensures DoubleZ(c * x, c * z) == (c * c) * (c * c) * DoubleZ(x, z)
  {
    var k := c * c;
    FourProducts(c, x);
    FourProducts(c, z);
    assert (c * x) * (c * z) == k * (x * z);
    var d := x * x - z * z;
    assert (c * x) * (c * x) - (c * z) * (c * z) == k * d;
    FourProducts(k, d);
    var q := x * x + 486662 * (x * z) + z * z;
    assert (c * x) * (c * x) + 486662 * ((c * x) * (c * z)) + (c * z) * (c * z) == k * q;
    Regroup(k, 4 * (x * z), q);
  }

  lemma Regroup(k: int, a: int, b: int)
    ensures (k * a) * (k * b) == (k * k) * (a * b)
  {
    assert (k * a) * (k * b) == k * (a * (k * b)) && a * (k * b) == k * (a * b);
  }

  lemma AddScale(u: int, c: int, x: int, z: int, c': int, x': int, z': int)
    ensures AddX(c * x, c * z, c' * x', c' * z') == (c * c') * (c * c') * AddX(x, z, x', z')
    ensures AddZ(u, c * x, c * z, c' * x', c' * z') == (c * c') * (c * c') * AddZ(u, x, z, x', z')
  {
    var k := c * c';
    Cross(c, x, c', x');
    Cross(c, z, c', z');
    Cross(c, x, c', z');
    Cross(c, z, c', x');
    var d, e := x * x' - z * z', x * z' - z * x';
    assert (c * x) * (c' * x') - (c * z) * (c' * z') == k * d;
    assert (c * x) * (c' * z') - (c * z) * (c' * x') == k * e;
    Regroup(k, d, d);
    Regroup(k, e, e);
    assert 4 * u * ((k * k) * (e * e)) == (k * k) * (4 * u * (e * e));
  }

  lemma Cross(c: int, a: int, c': int, b: int)
    ensures (c * a) * (c' * b) == (c * c') * (a * b)
  {
    assert (c * a) * (c' * b) == c * (a * (c' * b)) && a * (c' * b) == c' * (a * b);
  }

  // ---- residues modulo any p

  predicate Same(x: int, y: int, p: int)
    requires p > 0
  {
    x % p == y % p
  }

  lemma SameMul(a: int, b: int, c: int, d: int, p: int)
    requires p > 0 && Same(a, b, p) && Same(c, d, p)
    ensures Same(a * c, b * d, p)
  {
    ModMul(a, b, c, d, p);
  }

  lemma SameAdd(a: int, b: int, c: int, d: int, p: int)
    requires p > 0 && Same(a, b, p) && Same(c, d, p)
    ensures Same(a + c, b + d, p)
  {
    var k := a / p - b / p + c / p - d / p;
    assert a + c == b + d + k * p;
    ModShift(b + d, k, p);
  }

  lemma SameSub(a: int, b: int, c: int, d: int, p: int)
    requires p > 0 && Same(a, b, p) && Same(c, d, p)
    ensures Same(a - c, b - d, p)
  {
    var k := a / p - b / p - (c / p - d / p);
    assert a - c == b - d + k * p;
    ModShift(b - d, k, p);
  }

  lemma SameResidue(x: int, p: int)
    requires p > 0
    ensures Same(x % p, x, p)
  {
    SmallMod(x % p, p);
  }

  lemma SameReflexive(x: int, p: int)
    requires p > 0
    ensures Same(x, x, p)
  {
  }

  lemma SameSymmetric(p: int)
    requires p > 0
    ensures forall x, y :: Same(x, y, p) ==> Same(y, x, p)
  {
  }

  lemma DoubleSame(x: int, z: int, a: int, b: int, p: int)
    requires p > 0
    ensures Same(x, a, p) && Same(z, b, p) ==>
        Same(DoubleX(x, z), DoubleX(a, b), p) && Same(DoubleZ(x, z), DoubleZ(a, b), p)
  {
    if Same(x, a, p) && Same(z, b, p) {
      SameMul(x, a, x, a, p);
      SameMul(z, b, z, b, p);
      SameMul(x, a, z, b, p);
      SameReflexive(4, p);
      SameReflexive(486662, p);
      hide Same;
      SameSub(x * x, a * a, z * z, b * b, p);
      SameMul(x * x - z * z, a * a - b * b, x * x - z * z, a * a - b * b, p);
      SameMul(4, 4, x * z, a * b, p);
      SameMul(486662, 486662, x * z, a * b, p);
      SameAdd(x * x, a * a, 486662 * (x * z), 486662 * (a * b), p);
      SameAdd(x * x + 486662 * (x * z), a * a + 486662 * (a * b), z * z, b * b, p);
      SameMul(4 * (x * z), 4 * (a * b), x * x + 486662 * (x * z) + z * z, a * a + 486662 * (a * b) + b * b, p);
    }
  }

  lemma AddSame(u: int, x: int, z: int, x': int, z': int, a: int, b: int, a': int, b': int, p: int)
    requires p > 0
    ensures Same(x, a, p) && Same(z, b, p) && Same(x', a', p) && Same(z', b', p) ==>
        Same(AddX(x, z, x', z'), AddX(a, b, a', b'), p) && Same(AddZ(u, x, z, x', z'), AddZ(u, a, b, a', b'), p)
  {
    if Same(x, a, p) && Same(z, b, p) && Same(x', a', p) && Same(z', b', p) {
      SameReflexive(4, p);
      SameReflexive(4 * u, p);
      hide Same;
      SameMul(x, a, x', a', p);
      SameMul(z, b, z', b', p);
      SameMul(x, a, z', b', p);
      SameMul(z, b, x', a', p);
      SameSub(x * x', a * a', z * z', b * b', p);
      SameSub(x * z', a * b', z * x', b * a', p);
      var d, e, d', e' := x * x' - z * z', x * z' - z * x', a * a' - b * b', a * b' - b * a';
      SameMul(d, d', d, d', p);
      SameMul(e, e', e, e', p);
      SameMul(4, 4, d * d, d' * d', p);
      SameMul(4 * u, 4 * u, e * e, e' * e', p);
    }
  }

  // ---- the ladder

  /** x and z are the coordinates of m up to the factor c. */
  predicate Stands(x: int, z: int, m: Point, c: int, p: int)
    requires p > 1
  {
    Same(x, c * m.x, p) && Same(z, c * m.z, p)
  }

  lemma SameChain(x: int, y: int, z: int, p: int)
    requires p > 1
    ensures Same(x, y, p) && Same(y, z, p) ==> Same(x, z, p)
  {
  }

  lemma DoubleMultiple(u: int, n: nat, p: int)
    requires p > 1
    ensures var m := Multiple(u, n, p); Stands(DoubleX(m.x, m.z), DoubleZ(m.x, m.z), Multiple(u, 2 * n, p), 1, p)
  {
    assert (2 * n) / 2 == n;
    SmallMod(0, p);
    SmallMod(1, p);
    var m := Multiple(u, n, p);
    SameResidue(DoubleX(m.x, m.z), p);
    SameResidue(DoubleZ(m.x, m.z), p);
  }

  lemma FourthPower(b: int, a: nat)
    ensures (Pow(b, a) * Pow(b, a)) * (Pow(b, a) * Pow(b, a)) == Pow(b, 4 * a)
  {
    PowAdd(b, a, a);
    PowAdd(b, 2 * a, 2 * a);
  }

  lemma DoubleStands(x: int, z: int, m: Point, c: int, p: int)
    requires p > 1
    ensures Stands(x, z, m, c, p) ==>
        Stands(DoubleX(x, z), DoubleZ(x, z), Point(DoubleX(m.x, m.z), DoubleZ(m.x, m.z)), (c * c) * (c * c), p)
  {
    hide Same, DoubleX, DoubleZ;
    DoubleSame(x, z, c * m.x, c * m.z, p);
    DoubleScale(c, m.x, m.z);
  }

  lemma AddStands(u: int, x: int, z: int, m: Point, c: int, x': int, z': int, m': Point, c': int, p: int)
    requires p > 1
    ensures Stands(x, z, m, c, p) && Stands(x', z', m', c', p) ==>
        Stands(AddX(x, z, x', z'), AddZ(u, x, z, x', z'),
               Point(AddX(m.x, m.z, m'.x, m'.z), AddZ(u, m.x, m.z, m'.x, m'.z)), (c * c') * (c * c'), p)
  {
    hide Same, AddX, AddZ;
    AddSame(u, x, z, x', z', c * m.x, c * m.z, c' * m'.x, c' * m'.z, p);
    AddScale(u, c, m.x, m.z, c', m'.x, m'.z);
  }

  /** Another name for the point takes over its factor. */
  lemma StandsFor(x: int, z: int, m: Point, c: int, s: Point, f: int, p: int)
    requires p > 1
    ensures Stands(x, z, m, c, p) && Stands(m.x, m.z, s, f, p) ==> Stands(x % p, z % p, s, c * f, p)
  {
    SameResidue(x, p);
    SameResidue(z, p);
    hide Same;
    ScaledSum(x, c, m.x, f, s.x, p);
    ScaledSum(z, c, m.z, f, s.z, p);
    SameChain(x % p, x, (c * f) * s.x, p);
    SameChain(z % p, z, (c * f) * s.z, p);
  }

  /** The sum of neighbours, with a factor 4u where the recursion for multiples ends. */
  lemma AddMultiple(u: int, n: nat, p: int)
    requires p > 1
    ensures var m, m', s := Multiple(u, n, p), Multiple(u, n + 1, p), Multiple(u, 2 * n + 1, p);
      var f := if n == 0 then 4 * u else 1;
      Stands(AddX(m.x, m.z, m'.x, m'.z), AddZ(u, m.x, m.z, m'.x, m'.z), s, f, p)
  {
    var m, m', s := Multiple(u, n, p), Multiple(u, n + 1, p), Multiple(u, 2 * n + 1, p);
    if n == 0 {
      FirstSum(u, p);
    } else {
      assert (2 * n + 1) / 2 == n && (2 * n + 1) % 2 == 1;
      hide Same, Multiple;
      SameSymmetric(p);
      SameResidue(AddX(m.x, m.z, m'.x, m'.z), p);
      SameResidue(AddZ(u, m.x, m.z, m'.x, m'.z), p);
    }
  }

  lemma FirstSum(u: int, p: int)
    requires p > 1
    ensures Same(AddX(1, 0, u % p, 1), 4 * u * (u % p), p) && Same(AddZ(u, 1, 0, u % p, 1), 4 * u * 1, p)
  {
    var r := u % p;
    assert AddX(1, 0, r, 1) == 4 * (r * r);
    assert AddZ(u, 1, 0, r, 1) == 4 * u;
    SameResidue(u, p);
    SameReflexive(4 * r, p);
    SameReflexive(4 * u, p);
    hide Same;
    SameMul(4 * r, 4 * r, r, u, p);
    assert (4 * r) * r == 4 * (r * r) && (4 * r) * u == 4 * u * r;
  }

  lemma SquareProduct(b: int, a: nat, c: nat)
    ensures (Pow(b, a) * Pow(b, c)) * (Pow(b, a) * Pow(b, c)) == Pow(b, 2 * a + 2 * c)
    ensures Pow(b, 2 * a + 2 * c) * b == Pow(b, 2 * a + 2 * c + 1) && Pow(b, 2 * a + 2 * c) * 1 == Pow(b, 2 * a + 2 * c)
  {
    PowAdd(b, a, c);
    PowAdd(b, a + c, a + c);
    PowLast(b, 2 * a + 2 * c);
  }

  lemma ScaledSum(x: int, k: int, y: int, f: int, m: int, p: int)
    requires p > 1
    ensures Same(x, k * y, p) && Same(y, f * m, p) ==> Same(x, (k * f) * m, p)
  {
    if Same(x, k * y, p) && Same(y, f * m, p) {
      SameReflexive(k, p);
      SameMul(k, k, y, f * m, p);
      assert k * (f * m) == (k * f) * m;
    }
  }

  lemma AddSymmetric(u: int, x: int, z: int, x': int, z': int)
    ensures AddX(x, z, x', z') == AddX(x', z', x, z) && AddZ(u, x, z, x', z') == AddZ(u, x', z', x, z)
  {
    var b := x * z' - z * x';
    SquareOfTwice(b);
    assert x' * z - z' * x == -b;
  }

  /** The pair holds the k-th multiple and the next, up to powers of 4u. */
  ghost predicate Holds(u: int, r: Pair, k: nat, a: nat, c: nat, p: int) {
    && p > 1 && Stands(r.x2, r.z2, Multiple(u, k, p), Pow(4 * u, a), p)
    && Stands(r.x3, r.z3, Multiple(u, k + 1, p), Pow(4 * u, c), p)
  }

  /** One round of the ladder takes the multiples k and k + 1 to 2k + b and 2k + b + 1. */
  lemma RoundHolds(u: int, s: Pair, b: int, k: nat, a: nat, c: nat, p: int) returns (a': nat, c': nat)
    requires 0 <= b <= 1 && p > 1
    ensures Holds(u, s, k, a, c, p) ==>
        Holds(u, SwapIf(Residues(Formulas(u, SwapIf(s, b)), p), b), 2 * k + b, a', c', p)
  {
    var t := SwapIf(s, b);
    StepDoubles(u, t);
    StepAdds(u, t);
    AddSymmetric(u, s.x2, s.z2, s.x3, s.z3);
    hide Formulas, Stands, DoubleX, DoubleZ, AddX, AddZ, Multiple, Pow;
    var m, m', f, g := Multiple(u, k, p), Multiple(u, k + 1, p), Pow(4 * u, a), Pow(4 * u, c);
    var sum := 2 * a + 2 * c + if k == 0 then 1 else 0;
    AddStands(u, s.x2, s.z2, m, f, s.x3, s.z3, m', g, p);
    AddMultiple(u, k, p);
    SquareProduct(4 * u, a, c);
    StandsFor(AddX(s.x2, s.z2, s.x3, s.z3), AddZ(u, s.x2, s.z2, s.x3, s.z3),
              Point(AddX(m.x, m.z, m'.x, m'.z), AddZ(u, m.x, m.z, m'.x, m'.z)), (f * g) * (f * g),
              Multiple(u, 2 * k + 1, p), if k == 0 then 4 * u else 1, p);
    if b == 0 {
      a', c' := 4 * a, sum;
      DoubleStands(s.x2, s.z2, m, f, p);
      DoubleMultiple(u, k, p);
      StandsFor(DoubleX(s.x2, s.z2), DoubleZ(s.x2, s.z2), Point(DoubleX(m.x, m.z), DoubleZ(m.x, m.z)),
                (f * f) * (f * f), Multiple(u, 2 * k, p), 1, p);
      FourthPower(4 * u, a);
    } else {
      a', c' := sum, 4 * c;
      DoubleStands(s.x3, s.z3, m', g, p);
      DoubleMultiple(u, k + 1, p);
      StandsFor(DoubleX(s.x3, s.z3), DoubleZ(s.x3, s.z3), Point(DoubleX(m'.x, m'.z), DoubleZ(m'.x, m'.z)),
                (g * g) * (g * g), Multiple(u, 2 * (k + 1), p), 1, p);
      FourthPower(4 * u, c);
    }
  }

  lemma TopPower()
    ensures Pow2(255) == TWO_255
  {
    Pow2Large();
    assert Pow2(5) == 32;
    hide Pow2;
    Pow2Add(250, 5);
  }

  /** The 255 bits the ladder reads are those of the scalar modulo 2^255. */
  lemma NextBits(e: seq<byte>, t: nat)
    requires |e| == 32 && t < 255
    ensures var v := LeVal(e) % TWO_255; v / Pow2(t) == 2 * (v / Pow2(t + 1)) + ScalarBit(e, t)
  {
    var l := LeVal(e);
    var q, v := l / TWO_255, l % TWO_255;
    ScalarBitValue(e, t);
    TopPower();
    Pow2Add(t, 255 - t);
    assert Pow2(255 - t) == 2 * Pow2(254 - t) && Pow2(t + 1) == 2 * Pow2(t);
    hide Pow2, LeVal, ScalarBit;
    UpperBits(l, q, v, Pow2(t), Pow2(254 - t));
    DivTwice(v, Pow2(t), 2);
  }

  lemma UpperBits(l: int, q: int, v: int, p: int, m: int)
    requires p > 0 && l == q * (p * (2 * m)) + v && v >= 0
    ensures (l / p) % 2 == (v / p) % 2
  {
    var c := q * m;
    assert q * (p * (2 * m)) == (2 * c) * p;
    assert v == (v / p) * p + v % p;
    assert l == (2 * c + v / p) * p + v % p by {
      assert (2 * c + v / p) * p == (2 * c) * p + (v / p) * p;
    }
    ModUnique(l, p, 2 * c + v / p, v % p);
  }

  function Shifted(v: nat, t: nat): nat {
    QuotientSign(v, Pow2(t));
    v / Pow2(t)
  }

  lemma QuotientSign(v: nat, m: int)
    requires m > 0
    ensures v / m >= 0
  {
    DivMod(v, m);
  }

  /** The number that the bits from t on form, up to bit 254. */
  function TopBits(e: seq<byte>, t: nat): (k: nat)
    requires |e| == 32
  {
    Shifted(LeVal(e) % TWO_255, t)
  }

  /** The ladder after the bits 254 down to t holds the multiples by the number they form and
      its successor. */
  lemma {:induction false} LadderMultiple(u: int, e: seq<byte>, t: nat) returns (a: nat, c: nat)
    requires |e| == 32 && t <= 255
    ensures Holds(u, Ladder(u, e, t), TopBits(e, t), a, c, P)
    decreases 255 - t
  {
    hide LeVal, Pow2, ScalarBit, Holds, Formulas, Residues, SwapIf;
    var v := LeVal(e) % TWO_255;
    if t == 255 {
      TopPower();
      assert v / TWO_255 == 0;
      a, c := 0, 0;
      HoldsFirst(u, P);
    } else {
      a, c := LadderMultiple(u, e, t + 1);
      NextBits(e, t);
      a, c := RoundHolds(u, Ladder(u, e, t + 1), ScalarBit(e, t), v / Pow2(t + 1), a, c, P);
    }
  }

  lemma HoldsFirst(u: int, p: int)
    requires p > 1
    ensures Holds(u, Pair(1, 0, u % p, 1), 0, 0, 0, p)
  {
    assert Pow(4 * u, 0) == 1;
  }

  // ---- the shared secret

  lemma {:induction false} PowProduct(c: int, z: int, n: nat)
    ensures Pow(c * z, n) == Pow(c, n) * Pow(z, n)
  {
    if n > 0 {
      PowProduct(c, z, n - 1);
      Cross(c, z, Pow(c, n - 1), Pow(z, n - 1));
    }
  }

  lemma NonzeroProduct(a: int, b: int, p: int)
    requires IsPrime(p) && a % p != 0 && b % p != 0
    ensures (a * b) % p != 0
  {
    if (a * b) % p == 0 {
      SameResidue(a, p);
      ModStep(a % p, a, b, p);
      PrimeDivides(p, a % p, b);
    }
  }

  lemma {:induction false} NonzeroPower(b: int, n: nat, p: int)
    requires IsPrime(p) && b % p != 0
    ensures Pow(b, n) % p != 0
  {
    if n > 0 {
      NonzeroPower(b, n - 1, p);
      NonzeroProduct(b, Pow(b, n - 1), p);
    } else {
      SmallMod(1, p);
    }
  }

  /** A common factor does not change a quotient. */
  lemma QuotientFactor(c: int, x: int, z: int, x': int, z': int, p: int)
    requires IsPrime(p) && c % p != 0
    ensures Same(x', c * x, p) && Same(z', c * z, p) ==> (x' * Pow(z', p - 2)) % p == (x * Pow(z, p - 2)) % p
  {
    if Same(x', c * x, p) && Same(z', c * z, p) {
      hide IsPrime;
      var w, k := Pow(z, p - 2), Pow(c, p - 2);
      PowMod(z', c * z, p - 2, p);
      PowProduct(c, z, p - 2);
      PowLast(c, p - 2);
      LittleTheorem(c, p);
      hide Pow;
      SameMul(x', c * x, Pow(z', p - 2), k * w, p);
      assert (c * x) * (k * w) == (k * c) * (x * w) by { Cross(c, x, k, w); }
      OneFactor(k * c, x * w, p);
    }
  }

  lemma OneFactor(f: int, m: int, p: int)
    requires p > 1
    ensures f % p == 1 ==> (f * m) % p == m % p
  {
    if f % p == 1 {
      SmallMod(1, p);
      ModStep(f, 1, m, p);
    }
  }

  // The point of order 2, with u = 0: both sides are 0.

  lemma ZeroDouble(x: int, z: int)
    ensures x * z == 0 ==> DoubleZ(x, z) == 0
  {
  }

  lemma FormulasZero(s: Pair)
    ensures s.x2 * s.z2 == 0 ==> Formulas(0, s).z2 == 0
    ensures Formulas(0, s).z3 == 0
  {
    StepDoubles(0, s);
    StepAdds(0, s);
    ZeroDouble(s.x2, s.z2);
    hide Formulas, DoubleX, DoubleZ, AddX;
  }

  lemma StepZero(s: Pair, p: int)
    requires p > 1
    ensures s.x2 * s.z2 == 0 ==> Residues(Formulas(0, s), p).z2 == 0
    ensures Residues(Formulas(0, s), p).z3 == 0
  {
    FormulasZero(s);
    hide Formulas;
    SmallMod(0, p);
  }

  lemma {:induction false} LadderZero(e: seq<byte>, t: nat)
    requires |e| == 32 && t <= 255
    ensures var r := Ladder(0, e, t); r.x2 * r.z2 == 0 && r.x3 * r.z3 == 0
    ensures t < 255 && ScalarBit(e, t) == 0 ==> Ladder(0, e, t).z2 == 0
    decreases 255 - t
  {
    hide Formulas, ScalarBit;
    if t < 255 {
      LadderZero(e, t + 1);
      StepZero(SwapIf(Ladder(0, e, t + 1), ScalarBit(e, t)), P);
    } else {
      SmallMod(0, P);
    }
  }

  lemma {:induction false} MultipleZero(n: nat, p: int)
    requires p > 1
    ensures Multiple(0, n, p).x * Multiple(0, n, p).z == 0 && (n % 2 == 0 ==> Multiple(0, n, p).z == 0)
    decreases n
  {
    SmallMod(0, p);
    if n >= 2 {
      MultipleZero(n / 2, p);
      var m, m' := Multiple(0, n / 2, p), Multiple(0, n / 2 + 1, p);
      ZeroDouble(m.x, m.z);
      assert AddZ(0, m.x, m.z, m'.x, m'.z) == 0;
    }
  }

  /** The clamped scalar. */
  function Scalar(private: seq<byte>): (n: nat)
    requires |private| == 32
  {
    ClampValue(private);
    LeVal(Clamp(private))
  }

  lemma ScalarRange(private: seq<byte>)
    requires |private| == 32
    ensures Scalar(private) == TWO_255 / 2 + LeVal(private) % (TWO_255 / 2) - LeVal(private) % 8
    ensures Scalar(private) < TWO_255 && Scalar(private) % TWO_255 == Scalar(private) && Scalar(private) % 2 == 0
    ensures ScalarBit(Clamp(private), 0) == 0
  {
    ClampValue(private);
    EvenScalar(private);
    hide Clamp, LeVal, ScalarBit;
    ScalarSize(LeVal(private));
    SmallMod(Scalar(private), TWO_255);
  }

  lemma ScalarSize(v: int)
    ensures 0 <= v % (TWO_255 / 2) < TWO_255 / 2 && 0 <= v % 8 < 8
  {
  }

  lemma EvenScalar(private: seq<byte>)
    requires |private| == 32
    ensures ScalarBit(Clamp(private), 0) == 0 && LeVal(Clamp(private)) % 2 == 0
  {
    var e := Clamp(private);
    var x := private[0] as int;
    assert e[0] as int == 8 * (x / 8);
    hide Clamp;
    ScalarBitValue(e, 0);
    assert Pow2(0) == 1;
    assert ScalarBit(e, 0) == (e[0] as int / Pow2(0)) % 2 by { assert 0 / 8 == 0 && 0 % 8 == 0; }
    hide LeVal, Pow2, ScalarBit;
    assert e[0] as int / 1 == 8 * (x / 8) && (8 * (x / 8)) % 2 == 0;
    assert LeVal(e) / 1 == LeVal(e);
  }

  /** The exchange yields the u-coordinate of the multiple of the public point by the clamped
      private key, for every pair of keys. */
  lemma SecretIsMultiple(public: seq<byte>, private: seq<byte>)
    requires |private| == 32 && IsPrime(P)
    ensures var m := Multiple(MontgomeryU(public), Scalar(private), P);
      SharedSecret(public, private) == (m.x * Pow(m.z, P - 2)) % P
  {
    var u, n, e := MontgomeryU(public), Scalar(private), Clamp(private);
    ScalarRange(private);
    assert 0 <= u < P;
    var a, c := LadderMultiple(u, e, 0);
    assert TopBits(e, 0) == n by { assert Pow2(0) == 1; }
    var r, m := Ladder(u, e, 0), Multiple(u, n, P);
    hide Ladder, Multiple, MontgomeryU, Clamp, Scalar, LeVal;
    if u == 0 {
      LadderZero(e, 0);
      MultipleZero(n, P);
      ZeroPower(P - 2);
    } else {
      FourTimes(u);
      NonzeroPower(4 * u, a, P);
      QuotientFactor(Pow(4 * u, a), m.x, m.z, r.x2, r.z2, P);
    }
  }

  lemma ZeroPower(n: nat)
    requires n > 0
    ensures Pow(0, n) == 0
  {
  }

  lemma FourTimes(u: int)
    requires IsPrime(P) && 0 < u < P
    ensures (4 * u) % P != 0
  {
    hide IsPrime;
    SmallMod(u, P);
    if (4 * u) % P == 0 {
      PrimeDivides(P, 4, u);
    }
  }

  lemma ThreeProducts(a: int, b: int, c: int)
    ensures (a * b) * c == a * (b * c)
  {
  }

  lemma Quotient(n: int, d: int, w: int, u: int, p: int)
    requires p > 1
    ensures Same(u, n * w, p) && Same(w * d, 1, p) ==> Same(u * d, n, p)
  {
    if Same(u, n * w, p) && Same(w * d, 1, p) {
      SameReflexive(d, p);
      SameReflexive(n, p);
      hide Same;
      SameMul(u, n * w, d, d, p);
      SameMul(n, n, w * d, 1, p);
      ThreeProducts(n, w, d);
      SameChain(u * d, n * (w * d), n, p);
    }
  }

  /** The u-coordinate of an Edwards point: (1 - y) U = 1 + y. */
  lemma PublicPoint(public: seq<byte>)
    requires IsPrime(P)
    ensures var y := LeVal(public) % TWO_255; (1 - y) % P != 0 ==> Cong(MontgomeryU(public) * (1 - y), y + 1)
  {
    var y := LeVal(public) % TWO_255;
    if (1 - y) % P != 0 {
      var w := Pow(1 - y, P - 2);
      CongReflexive(w);
      InverseCorrect(1 - y, w);
      CongResidue((y + 1) * w);
      hide LeVal, IsPrime, Pow;
      Quotient(y + 1, 1 - y, w, MontgomeryU(public), P);
    }
  }
}
