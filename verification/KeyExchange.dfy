/** ed25519_key_exchange: the Montgomery ladder of section 5 of RFC 7748 on the
    u-coordinate of an Edwards public key. */
module Montgomery {
  import opened Arith
  import opened Bits
  import opened Bytes
  import opened Fermat
  import opened FieldLimbs
  import opened FieldBytes

  /** The two points of the ladder, x2 : z2 and x3 : z3, as residues modulo p. */
  datatype Pair = Pair(x2: int, z2: int, x3: int, z3: int)

  /** The formulas of one step of the ladder, with the names of section 5 of RFC 7748. */
  function Formulas(u: int, s: Pair): Pair {
    var A := s.x2 + s.z2;
    var AA := A * A;
    var B := s.x2 - s.z2;
    var BB := B * B;
    var E := AA - BB;
    var C := s.x3 + s.z3;
    var D := s.x3 - s.z3;
    var DA := D * A;
    var CB := C * B;
    Pair(AA * BB, E * (AA + 121665 * E), (DA + CB) * (DA + CB), u * ((DA - CB) * (DA - CB)))
  }

  function Residues(s: Pair, p: nat): Pair
    requires p > 0
  {
    Pair(s.x2 % p, s.z2 % p, s.x3 % p, s.z3 % p)
  }

  /** One step of the ladder. */
  function Step(u: int, s: Pair): Pair {
    Residues(Formulas(u, s), P)
  }

  function Swap(s: Pair): Pair {
    Pair(s.x3, s.z3, s.x2, s.z2)
  }

  function SwapIf(s: Pair, b: int): Pair {
    if b == 1 then Swap(s) else s
  }

  /** Bit t of the scalar stored little-endian in e. */
  function ScalarBit(e: seq<byte>, t: nat): (b: int)
    requires t < 8 * |e|
    ensures b == 0 || b == 1
  {
    (e[t / 8] as int / Pow2(t % 8)) % 2
  }

  /** The branching ladder after the bits 254 down to t: a set bit works on the
      swapped pair and swaps back at once. */
  function Ladder(u: int, e: seq<byte>, t: nat): Pair
    requires |e| == 32 && t <= 255
    decreases 255 - t
  {
    if t == 255 then Pair(1, 0, u % P, 1)
    else
      var s := Ladder(u, e, t + 1);
      var b := ScalarBit(e, t);
      SwapIf(Step(u, SwapIf(s, b)), b)
  }

  // ---- the scalar

  /** The bits read from the bytes are those of the integer. */
  lemma {:induction false} ScalarBitValue(e: seq<byte>, t: nat)
    requires t < 8 * |e|
    ensures ScalarBit(e, t) == (LeVal(e) / Pow2(t)) % 2
  {
    var v := LeVal(e[1..]);
    assert LeVal(e) == e[0] as int + 256 * v;
    if t < 8 {
      LowBit(e[0] as int, v, t);
    } else {
      ScalarBitValue(e[1..], t - 8);
      assert (t - 8) / 8 == t / 8 - 1 && (t - 8) % 8 == t % 8;
      assert e[1..][t / 8 - 1] == e[t / 8];
      HighBits(e[0] as int, v, t);
    }
  }

  lemma LowBit(b: int, v: int, t: nat)
    requires 0 <= b && v >= 0 && t < 8
    ensures ((b + 256 * v) / Pow2(t)) % 2 == (b / Pow2(t)) % 2
  {
    SmallPowers();
    hide Pow2;
    Pow2Add(t, 7 - t);
    LowBitAlgebra(b, v, Pow2(t), Pow2(7 - t));
  }

  lemma LowBitAlgebra(b: int, v: int, p: int, m: int)
    requires 0 <= b && v >= 0 && p > 0 && p * m == 128
    ensures ((b + 256 * v) / p) % 2 == (b / p) % 2
  {
    var c := v * (2 * m);
    assert c * p == 256 * v by {
      assert c * p == v * (2 * (p * m));
    }
    assert b == (b / p) * p + b % p;
    assert b + 256 * v == (b / p + c) * p + b % p;
    ModUnique(b + 256 * v, p, b / p + c, b % p);
    assert c == 2 * (v * m);
  }

  lemma HighBits(b: int, v: int, t: nat)
    requires 0 <= b < 256 && v >= 0 && t >= 8
    ensures (b + 256 * v) / Pow2(t) == v / Pow2(t - 8)
  {
    var q := Pow2(t - 8);
    assert Pow2(t) == 256 * q by {
      assert Pow2(t) == 2 * Pow2(t - 1) && Pow2(t - 1) == 2 * Pow2(t - 2) && Pow2(t - 2) == 2 * Pow2(t - 3)
          && Pow2(t - 3) == 2 * Pow2(t - 4);
      assert Pow2(t - 4) == 2 * Pow2(t - 5) && Pow2(t - 5) == 2 * Pow2(t - 6) && Pow2(t - 6) == 2 * Pow2(t - 7)
          && Pow2(t - 7) == 2 * q;
    }
    var c, r := v / q, v % q;
    assert v == c * q + r;
    assert b + 256 * v == c * (256 * q) + (256 * r + b);
    ModUnique(b + 256 * v, 256 * q, c, 256 * r + b);
  }

  /** The private key with its low three bits cleared and bits 255, 254 set to 0, 1. */
  function Clamp(s: seq<byte>): (e: seq<byte>)
    requires |s| == 32
    ensures |e| == 32
    ensures e[0] as int == s[0] as int - s[0] as int % 8
    ensures e[31] as int == s[31] as int % 64 + 64
    ensures forall i :: 1 <= i < 31 ==> e[i] == s[i]
  {
    MaskLow3(s[0] as int);
    MaskHigh2(s[31] as int);
    s[0 := And(s[0] as int, 248) as byte][31 := Or(And(s[31] as int, 63), 64) as byte]
  }

  lemma MaskLow3(x: int)
    requires 0 <= x < 256
    ensures And(x, 248) == x - x % 8
  {
    hide And;
    AndStep(x, 248);
    AndStep(x / 2, 124);
    AndStep(x / 4, 62);
    assert x / 2 / 2 == x / 4 && x / 4 / 2 == x / 8;
    assert And(x / 8, 31) == (x / 8) % 32 by { SmallPowers(); AndLow(x / 8, 5); }
  }

  lemma MaskHigh2(x: int)
    requires 0 <= x < 256
    ensures Or(And(x, 63), 64) == x % 64 + 64
  {
    SmallPowers();
    AndLow(x, 6);
    OrJoin(x % 64, 1, 6, 64);
  }

  /** The value of the bytes between the first and the last. */
  function Middle(s: seq<byte>): (v: int)
    requires |s| == 32
    ensures 0 <= v < 0x1000000000000000000000000000000000000000000000000000000000000
  {
    s[1] as int + 0x100 * s[2] as int + 0x10000 * s[3] as int + 0x1000000 * s[4] as int
    + 0x100000000 * s[5] as int + 0x10000000000 * s[6] as int + 0x1000000000000 * s[7] as int
        + 0x100000000000000 * s[8] as int
    + 0x10000000000000000 * s[9] as int + 0x1000000000000000000 * s[10] as int
        + 0x100000000000000000000 * s[11] as int + 0x10000000000000000000000 * s[12] as int
    + 0x1000000000000000000000000 * s[13] as int + 0x100000000000000000000000000 * s[14] as int
        + 0x10000000000000000000000000000 * s[15] as int + 0x1000000000000000000000000000000 * s[16] as int
    + 0x100000000000000000000000000000000 * s[17] as int + 0x10000000000000000000000000000000000 * s[18] as int
        + 0x1000000000000000000000000000000000000 * s[19] as int
        + 0x100000000000000000000000000000000000000 * s[20] as int
    + 0x10000000000000000000000000000000000000000 * s[21] as int
        + 0x1000000000000000000000000000000000000000000 * s[22] as int
        + 0x100000000000000000000000000000000000000000000 * s[23] as int
        + 0x10000000000000000000000000000000000000000000000 * s[24] as int
    + 0x1000000000000000000000000000000000000000000000000 * s[25] as int
        + 0x100000000000000000000000000000000000000000000000000 * s[26] as int
        + 0x10000000000000000000000000000000000000000000000000000 * s[27] as int
        + 0x1000000000000000000000000000000000000000000000000000000 * s[28] as int
    + 0x100000000000000000000000000000000000000000000000000000000 * s[29] as int
        + 0x10000000000000000000000000000000000000000000000000000000000 * s[30] as int
  }

  lemma Ends(s: seq<byte>)
    requires |s| == 32
    ensures LeVal(s) == s[0] as int + 0x100 * Middle(s)
        + 0x100000000000000000000000000000000000000000000000000000000000000 * s[31] as int
  {
    LeVal32(s);
    hide LeVal;
  }

  /** Clamping keeps exactly the bits 3 to 253 of the scalar and sets bit 254. */
  lemma ClampValue(s: seq<byte>)
    requires |s| == 32
    ensures LeVal(Clamp(s)) == TWO_255 / 2 + LeVal(s) % (TWO_255 / 2) - LeVal(s) % 8
  {
    var e := Clamp(s);
    Ends(e);
    Ends(s);
    assert Middle(e) == Middle(s);
    hide Clamp, LeVal, Middle;
    ClampSum(LeVal(e), LeVal(s), s[0] as int, s[31] as int / 64, s[31] as int % 64, Middle(s));
  }

  lemma ClampSum(e: int, v: int, low: int, top: int, high: int, middle: int)
    requires v == low + 0x100 * middle + 0x100000000000000000000000000000000000000000000000000000000000000 * (64 * top
        + high)
    requires e == low - low % 8 + 0x100 * middle
        + 0x100000000000000000000000000000000000000000000000000000000000000 * (high + 64)
    requires 0 <= low < 256 && 0 <= high < 64
        && 0 <= middle < 0x1000000000000000000000000000000000000000000000000000000000000
    ensures e == TWO_255 / 2 + v % (TWO_255 / 2) - v % 8
  {
    var rest := low + 0x100 * middle + 0x100000000000000000000000000000000000000000000000000000000000000 * high;
    ModUnique(v, TWO_255 / 2, top, rest);
    ModUnique(v, 8,
        low / 8 + 0x20 * middle + 0x20000000000000000000000000000000000000000000000000000000000000 * (64 * top
        + high), low % 8);
  }
}

module KeyExchange {
  import opened Arith
  import opened Bits
  import opened Bytes
  import opened Fermat
  import opened FieldLimbs
  import opened FieldMul
  import opened FieldInvert
  import opened FieldBytes
  import opened Montgomery

  // ---- congruence

  lemma CongResidue(x: int)
    ensures Cong(x % P, x)
  {
    SmallMod(x % P, P);
  }

  lemma CongMul(a: int, b: int, c: int, d: int)
    requires Cong(a, b) && Cong(c, d)
    ensures Cong(a * c, b * d)
  {
    ModMul(a, b, c, d, P);
  }

  lemma CongSub(a: int, b: int, c: int, d: int)
    requires Cong(a, b) && Cong(c, d)
    ensures Cong(a - c, b - d)
  {
    CongFrom(a - c, b - d, a / P - b / P - (c / P - d / P));
  }

  /** z computed from x and y, and the reference product of what x and y stand for. */
  lemma CongProduct(z: int, x: int, y: int, x': int, y': int)
    requires Cong(z, x * y) && Cong(x, x') && Cong(y, y')
    ensures Cong(z, x' * y')
  {
    CongMul(x, x', y, y');
  }

  /** The values after the first eight operations of an iteration. */
  ghost predicate Started(x2: int, z2: int, x3: int, z3: int, da: int, cb: int, bb: int, aa: int) {
    && Cong(da, (x3 - z3) * (x2 + z2)) && Cong(cb, (x3 + z3) * (x2 - z2))
    && Cong(bb, (x2 - z2) * (x2 - z2)) && Cong(aa, (x2 + z2) * (x2 + z2))
  }

  /** The values after all of them. */
  ghost predicate Ended(u: int, da: int, cb: int, bb: int, aa: int, r2: int, dd: int, w: int, r3: int, q3: int,
      q2: int) {
    && Cong(r2, aa * bb) && Cong(dd, (da - cb) * (da - cb)) && Cong(w, 121666 * (aa - bb))
    && Cong(r3, (da + cb) * (da + cb)) && Cong(q3, u * dd) && Cong(q2, (aa - bb) * (bb + w))
  }

  /** The values one iteration of the loop computes, against the reference step. The
      loop multiplies by v where the reference has u. */
  lemma StepRefined(v: int, u: int, x2: int, z2: int, x3: int, z3: int,
      da: int, cb: int, bb: int, aa: int, r2: int, dd: int, w: int, r3: int, q3: int, q2: int)
    ensures Started(x2, z2, x3, z3, da, cb, bb, aa) && Ended(v, da, cb, bb, aa, r2, dd, w, r3, q3, q2) && Cong(v, u) ==>
              Pair(r2 % P, q2 % P, r3 % P, q3 % P) == Step(u, Pair(x2 % P, z2 % P, x3 % P, z3 % P))
  {
    if Started(x2, z2, x3, z3, da, cb, bb, aa) && Ended(v, da, cb, bb, aa, r2, dd, w, r3, q3, q2) && Cong(v, u) {
      var s := Pair(x2 % P, z2 % P, x3 % P, z3 % P);
      var A, B, C, D := s.x2 + s.z2, s.x2 - s.z2, s.x3 + s.z3, s.x3 - s.z3;
      CongResidue(x2); CongResidue(z2); CongResidue(x3); CongResidue(z3);
      CongAdd(s.x2, x2, s.z2, z2); CongSub(s.x2, x2, s.z2, z2);
      CongAdd(s.x3, x3, s.z3, z3); CongSub(s.x3, x3, s.z3, z3);
      var AA, BB, DA, CB := A * A, B * B, D * A, C * B;
      hide Cong;
      CongSymmetric();
      CongProduct(aa, x2 + z2, x2 + z2, A, A);
      CongProduct(bb, x2 - z2, x2 - z2, B, B);
      CongProduct(da, x3 - z3, x2 + z2, D, A);
      CongProduct(cb, x3 + z3, x2 - z2, C, B);
      CongProduct(r2, aa, bb, AA, BB);
      CongAdd(da, DA, cb, CB); CongSub(da, DA, cb, CB);
      CongProduct(r3, da + cb, da + cb, DA + CB, DA + CB);
      CongProduct(dd, da - cb, da - cb, DA - CB, DA - CB);
      CongProduct(q3, v, dd, u, (DA - CB) * (DA - CB));
      var E := AA - BB;
      CongSub(aa, AA, bb, BB);
      CongReflexive(121666);
      CongProduct(w, 121666, aa - bb, 121666, E);
      CongAdd(bb, BB, w, 121666 * E);
      assert BB + 121666 * E == AA + 121665 * E;
      CongProduct(q2, aa - bb, bb + w, E, AA + 121665 * E);
      SamePair(r2, AA * BB, q2, E * (AA + 121665 * E), r3, (DA + CB) * (DA + CB), q3, u * ((DA - CB) * (DA - CB)));
    }
  }

  lemma CongSymmetric()
    ensures forall x, y :: Cong(x, y) ==> Cong(y, x)
  {
  }

  lemma CongReflexive(x: int)
    ensures Cong(x, x)
  {
  }

  lemma SamePair(a: int, a': int, b: int, b': int, c: int, c': int, d: int, d': int)
    requires Cong(a, a') && Cong(b, b') && Cong(c, c') && Cong(d, d')
    ensures Pair(a % P, b % P, c % P, d % P) == Pair(a' % P, b' % P, c' % P, d' % P)
  {
  }

  // ---- one iteration

  lemma BoundsWeaken()
    ensures forall h :: Tight(h) ==> Loose(h)
    ensures forall h :: Loose(h) ==> Summed(h)
    ensures forall h :: Summed(h) ==> Factor(h)
  {
  }

  predicate Apart(a: array<int32>, b: array<int32>, c: array<int32>, d: array<int32>, e: array<int32>,
      f: array<int32>, g: array<int32>) {
    && a != b && a != c && a != d && a != e && a != f && a != g && b != c && b != d && b != e && b != f && b != g
    && c != d && c != e && c != f && c != g && d != e && d != f && d != g && e != f && e != g && f != g
    && a.Length == b.Length == c.Length == d.Length == e.Length == f.Length == g.Length == 10
  }

  /** The pair of points four arrays stand for. */
  function PairOf(x2: array<int32>, z2: array<int32>, x3: array<int32>, z3: array<int32>): Pair
    requires x2.Length == z2.Length == x3.Length == z3.Length == 10
    reads x2, z2, x3, z3
  {
    Pair(Val(Elem(x2)) % P, Val(Elem(z2)) % P, Val(Elem(x3)) % P, Val(Elem(z3)) % P)
  }

  predicate AllTight(x2: array<int32>, z2: array<int32>, x3: array<int32>, z3: array<int32>)
    requires x2.Length == z2.Length == x3.Length == z3.Length == 10
    reads x2, z2, x3, z3
  {
    Tight(Elem(x2)) && Tight(Elem(z2)) && Tight(Elem(x3)) && Tight(Elem(z3))
  }

  /** The first eight operations of the loop body: the products of sums and differences. */
  method StepStart(x1: array<int32>, x2: array<int32>, z2: array<int32>, x3: array<int32>, z3: array<int32>,
      tmp0: array<int32>, tmp1: array<int32>)
    requires Apart(x1, x2, z2, x3, z3, tmp0, tmp1) && AllTight(x2, z2, x3, z3)
    modifies x2, z2, x3, z3, tmp0, tmp1
    ensures AllTight(z3, z2, tmp0, tmp1)
    ensures Started(old(Val(Elem(x2))), old(Val(Elem(z2))), old(Val(Elem(x3))), old(Val(Elem(z3))),
              Val(Elem(z3)), Val(Elem(z2)), Val(Elem(tmp0)), Val(Elem(tmp1)))
  {
    BoundsWeaken();
    hide Tight, Loose, Summed, Factor, Cong, Val, Elem, Columns, SerialCarries, Add, Subtract;
    FeSub(tmp0, x3, z3);
    FeSub(tmp1, x2, z2);
    FeAdd(x2, x2, z2);
    FeAdd(z2, x3, z3);
    FeMul(z3, tmp0, x2);
    FeMul(z2, z2, tmp1);
    FeSq(tmp0, tmp1);
    FeSq(tmp1, x2);
  }

  /** The other ten: the reference names are DA, CB, BB, AA for the values found in
      z3, z2, tmp0, tmp1. */
  method StepEnd(x1: array<int32>, x2: array<int32>, z2: array<int32>, x3: array<int32>, z3: array<int32>,
      tmp0: array<int32>, tmp1: array<int32>)
    returns (ghost dd: int, ghost w: int)
    requires Apart(x1, x2, z2, x3, z3, tmp0, tmp1) && Tight(Elem(x1)) && AllTight(z3, z2, tmp0, tmp1)
    modifies x2, z2, x3, z3, tmp0, tmp1
    ensures AllTight(x2, z2, x3, z3)
    ensures Ended(Val(Elem(x1)), old(Val(Elem(z3))), old(Val(Elem(z2))), old(Val(Elem(tmp0))), old(Val(Elem(tmp1))),
              Val(Elem(x2)), dd, w, Val(Elem(x3)), Val(Elem(z3)), Val(Elem(z2)))
  {
    BoundsWeaken();
    hide Tight, Loose, Summed, Factor, Cong, Val, Elem, Columns, SerialCarries, Add, Subtract;
    FeAdd(x3, z3, z2);
    FeSub(z2, z3, z2);
    FeMul(x2, tmp1, tmp0);
    FeSub(tmp1, tmp1, tmp0);
    FeSq(z2, z2);
    dd := Val(Elem(z2));
    FeMul121666(z3, tmp1);
    w := Val(Elem(z3));
    FeSq(x3, x3);
    FeAdd(tmp0, tmp0, z3);
    FeMul(z3, x1, z2);
    FeMul(z2, tmp1, tmp0);
  }

  /** The eighteen field operations of the loop body. */
  method LadderStep(x1: array<int32>, x2: array<int32>, z2: array<int32>, x3: array<int32>, z3: array<int32>,
      tmp0: array<int32>, tmp1: array<int32>, ghost u: int)
    requires Apart(x1, x2, z2, x3, z3, tmp0, tmp1)
    requires Tight(Elem(x1)) && AllTight(x2, z2, x3, z3)
    modifies x2, z2, x3, z3, tmp0, tmp1
    ensures AllTight(x2, z2, x3, z3)
    ensures Cong(Val(Elem(x1)), u) ==> PairOf(x2, z2, x3, z3) == Step(u, old(PairOf(x2, z2, x3, z3)))
  {
    ghost var a, b, c, d := Val(Elem(x2)), Val(Elem(z2)), Val(Elem(x3)), Val(Elem(z3));
    hide Tight, Val, Elem, Step, Started, Ended, Cong;
    StepStart(x1, x2, z2, x3, z3, tmp0, tmp1);
    ghost var da, cb, bb, aa := Val(Elem(z3)), Val(Elem(z2)), Val(Elem(tmp0)), Val(Elem(tmp1));
    ghost var dd, w := StepEnd(x1, x2, z2, x3, z3, tmp0, tmp1);
    StepRefined(Val(Elem(x1)), u, a, b, c, d, da, cb, bb, aa, Val(Elem(x2)), dd, w, Val(Elem(x3)), Val(Elem(z3)),
        Val(Elem(z2)));
  }

  // ---- the whole exchange

  /** The u-coordinate (1 + y) / (1 - y) of an Edwards public key. */
  function MontgomeryU(public: seq<byte>): int {
    var y := LeVal(public) % TWO_255;
    ((y + 1) * Pow(1 - y, P - 2)) % P
  }

  /** What the exchange computes: x2 / z2 at the end of the reference ladder. */
  function SharedSecret(public: seq<byte>, private: seq<byte>): int
    requires |private| == 32
  {
    var r := Ladder(MontgomeryU(public), Clamp(private), 0);
    (r.x2 * Pow(r.z2, P - 2)) % P
  }

  lemma SwapTwice(s: Pair, swap: int, b: int)
    requires 0 <= swap <= 1 && 0 <= b <= 1
    ensures 0 <= Xor(swap, b) <= 1
    ensures SwapIf(SwapIf(s, swap), Xor(swap, b)) == SwapIf(s, b)
    ensures SwapIf(SwapIf(s, b), b) == s
  {
    assert Xor(0, 0) == 0 && Xor(0, 1) == 1 && Xor(1, 0) == 1 && Xor(1, 1) == 0;
  }

  method SwapPair(x2: array<int32>, z2: array<int32>, x3: array<int32>, z3: array<int32>, swap: int)
    requires x2.Length == z2.Length == x3.Length == z3.Length == 10
    requires x2 != z2 && x2 != x3 && x2 != z3 && z2 != x3 && z2 != z3 && x3 != z3
    requires AllTight(x2, z2, x3, z3) && 0 <= swap <= 1
    modifies x2, z2, x3, z3
    ensures AllTight(x2, z2, x3, z3)
    ensures PairOf(x2, z2, x3, z3) == SwapIf(old(PairOf(x2, z2, x3, z3)), swap)
  {
    hide Tight, Val, Elem;
    FeCswap(x2, x3, swap);
    FeCswap(z2, z3, swap);
  }

  /** One round: swap lazily for bit pos, then step. */
  method Round(x1: array<int32>, x2: array<int32>, z2: array<int32>, x3: array<int32>, z3: array<int32>,
      tmp0: array<int32>, tmp1: array<int32>, b: int, swap: int, ghost u: int, ghost s: Pair)
    requires Apart(x1, x2, z2, x3, z3, tmp0, tmp1) && Tight(Elem(x1)) && AllTight(x2, z2, x3, z3)
    requires 0 <= swap <= 1 && 0 <= b <= 1
    modifies x2, z2, x3, z3, tmp0, tmp1
    ensures AllTight(x2, z2, x3, z3)
    ensures Cong(Val(Elem(x1)), u) && old(PairOf(x2, z2, x3, z3)) == SwapIf(s, swap) ==>
              PairOf(x2, z2, x3, z3) == SwapIf(SwapIf(Step(u, SwapIf(s, b)), b), b)
  {
    hide Tight, Val, Elem, Cong, Step, Xor, PairOf, AllTight;
    SwapTwice(s, swap, b);
    SwapPair(x2, z2, x3, z3, Xor(swap, b));
    LadderStep(x1, x2, z2, x3, z3, tmp0, tmp1, u);
    SwapTwice(Step(u, SwapIf(s, b)), 0, b);
  }

  /** Unpacks the public key and maps it to the Montgomery curve. */
  method EdwardsToMontgomery(x1: array<int32>, public: array<byte>, tmp0: array<int32>, tmp1: array<int32>)
    requires public.Length == 32 && x1.Length == tmp0.Length == tmp1.Length == 10
    requires x1 != tmp0 && x1 != tmp1 && tmp0 != tmp1
    modifies x1, tmp0, tmp1
    ensures Tight(Elem(x1)) && Cong(Val(Elem(x1)), MontgomeryU(public[..]))
  {
    BoundsWeaken();
    UnitLimbs();
    hide Tight, Loose, Summed, Factor, Val, Elem, Cong, LeVal, Pow, Columns, SerialCarries, Add, Subtract;
    ghost var y := LeVal(public[..]) % TWO_255;
    FeFromBytes(x1, public);
    ghost var x := Val(Elem(x1));
    Fe1(tmp1);
    FeAdd(tmp0, x1, tmp1);
    FeSub(tmp1, tmp1, x1);
    FeInvert(tmp1, tmp1);
    ghost var w := Val(Elem(tmp1));
    FeMul(x1, tmp0, tmp1);
    EdwardsMap(x, y, w, Val(Elem(x1)));
  }

  lemma UnitLimbs()
    ensures Tight(Limbs(1, 0, 0, 0, 0, 0, 0, 0, 0, 0)) && Val(Limbs(1, 0, 0, 0, 0, 0, 0, 0, 0, 0)) == 1
    ensures Tight(Limbs(0, 0, 0, 0, 0, 0, 0, 0, 0, 0)) && Val(Limbs(0, 0, 0, 0, 0, 0, 0, 0, 0, 0)) == 0
  {
  }

  lemma EdwardsMap(x: int, y: int, w: int, v: int)
    requires Cong(x, y) && Cong(w, Pow(1 - x, P - 2)) && Cong(v, (x + 1) * w)
    ensures Cong(v, ((y + 1) * Pow(1 - y, P - 2)) % P)
  {
    hide Pow;
    CongReflexive(1);
    CongAdd(x, y, 1, 1);
    CongSub(1, 1, x, y);
    PowMod(1 - x, 1 - y, P - 2, P);
    CongProduct(v, x + 1, w, y + 1, Pow(1 - y, P - 2));
    CongResidue((y + 1) * Pow(1 - y, P - 2));
  }

  /** The final inversion: s receives x2 / z2. */
  method Finish(s: array<byte>, x2: array<int32>, z2: array<int32>)
    requires s.Length == 32 && x2.Length == z2.Length == 10 && x2 != z2 && Tight(Elem(x2)) && Tight(Elem(z2))
    modifies s, x2, z2
    ensures LeVal(s[..]) == old(((Val(Elem(x2)) % P) * Pow(Val(Elem(z2)) % P, P - 2)) % P)
  {
    BoundsWeaken();
    ghost var x, z := Val(Elem(x2)), Val(Elem(z2));
    hide Tight, Loose, Summed, Factor, Val, Elem, Cong, LeVal, Pow, Columns, SerialCarries;
    FeInvert(z2, z2);
    ghost var w := Val(Elem(z2));
    FeMul(x2, x2, z2);
    Quotient(x, z, w, Val(Elem(x2)));
    FeToBytes(s, x2);
  }

  lemma Quotient(x: int, z: int, w: int, v: int)
    requires Cong(w, Pow(z, P - 2)) && Cong(v, x * w)
    ensures v % P == ((x % P) * Pow(z % P, P - 2)) % P
  {
    hide Pow;
    CongResidue(x);
    CongResidue(z);
    PowMod(z, z % P, P - 2, P);
    CongProduct(v, x, w, x % P, Pow(z % P, P - 2));
  }

  /** Copies the private key and makes sure it is valid. */
  method ClampKey(private: array<byte>) returns (e: array<byte>)
    requires private.Length == 32
    ensures fresh(e) && e.Length == 32 && e[..] == Clamp(private[..])
  {
    e := new byte[32];
    forall i | 0 <= i < 32 { e[i] := private[i]; }
    MaskLow3(e[0] as int);
    MaskHigh2(e[31] as int);
    e[0] := And(e[0] as int, 248) as byte;
    e[31] := Or(And(e[31] as int, 63), 64) as byte;
    assert e[..] == Clamp(private[..]);
  }

  /** The ladder loop with its initial values and its last conditional swap. */
  method RunLadder(x1: array<int32>, x2: array<int32>, z2: array<int32>, x3: array<int32>, z3: array<int32>,
      tmp0: array<int32>, tmp1: array<int32>, e: array<byte>, ghost u: int)
    requires Apart(x1, x2, z2, x3, z3, tmp0, tmp1) && e.Length == 32
    requires Tight(Elem(x1))
    modifies x2, z2, x3, z3, tmp0, tmp1
    ensures AllTight(x2, z2, x3, z3)
    ensures Cong(Val(Elem(x1)), u) ==> PairOf(x2, z2, x3, z3) == Ladder(u, e[..], 0)
  {
    UnitLimbs();
    hide Tight, Val, Elem, Cong, Step, Xor, LeVal, Pow;
    ghost var k := e[..];
    Fe1(x2);
    Fe0(z2);
    FeCopy(x3, x1);
    Fe1(z3);
    var swap := 0;
    StartPair(Val(Elem(x1)), u);
    for pos := 255 downto 0
      invariant 0 <= swap <= 1 && AllTight(x2, z2, x3, z3)
      invariant Cong(Val(Elem(x1)), u) ==> PairOf(x2, z2, x3, z3) == SwapIf(Ladder(u, k, pos), swap)
    {
      var b := ScalarBit(e[..], pos);
      Round(x1, x2, z2, x3, z3, tmp0, tmp1, b, swap, u, Ladder(u, k, pos + 1));
      swap := b;
    }
    SwapTwice(Ladder(u, k, 0), 0, swap);
    SwapPair(x2, z2, x3, z3, swap);
  }

  /** shared receives the encoding of the shared secret; it may be one of the inputs. */
  method Ed25519KeyExchange(shared: array<byte>, public: array<byte>, private: array<byte>)
    requires shared.Length == public.Length == private.Length == 32
    modifies shared
    ensures LeVal(shared[..]) == old(SharedSecret(public[..], private[..]))
  {
    ghost var u := MontgomeryU(public[..]);
    var e := ClampKey(private);
    hide Tight, Val, Elem, Cong, LeVal, Pow, Clamp, MontgomeryU, Ladder;
    var x1, x2, z2, x3, z3 := new int32[10], new int32[10], new int32[10], new int32[10], new int32[10];
    var tmp0, tmp1 := new int32[10], new int32[10];
    EdwardsToMontgomery(x1, public, tmp0, tmp1);
    RunLadder(x1, x2, z2, x3, z3, tmp0, tmp1, e, u);
    Finish(shared, x2, z2);
  }

  lemma StartPair(v: int, u: int)
    ensures Cong(v, u) ==> v % P == u % P
    ensures 1 % P == 1 && 0 % P == 0
  {
  }
}
