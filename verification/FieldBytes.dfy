/** fe_frombytes and fe_tobytes of fe.c. */
module FieldBytes {
  import opened Arith
  import opened Bits
  import opened Bytes
  import opened FieldLimbs

  /** The little-endian value of a string of bytes. */
  function LeVal(s: seq<byte>): (v: int)
    ensures v >= 0
  {
    if s == [] then 0 else s[0] as int + 256 * LeVal(s[1..])
  }

  lemma LeVal8(s: seq<byte>)
    requires |s| >= 8
    ensures LeVal(s) == s[0] as int + 0x100 * s[1] as int + 0x10000 * s[2] as int + 0x1000000 * s[3] as int
                        + 0x100000000 * s[4] as int + 0x10000000000 * s[5] as int + 0x1000000000000 * s[6] as int
                        + 0x100000000000000 * s[7] as int + 0x10000000000000000 * LeVal(s[8..])
  {
    LeVal4(s);
    LeVal4(s[4..]);
    assert s[4..][4..] == s[8..];
  }

  lemma LeVal4(s: seq<byte>)
    requires |s| >= 4
    ensures LeVal(s) == s[0] as int + 0x100 * s[1] as int + 0x10000 * s[2] as int + 0x1000000 * s[3] as int
                        + 0x100000000 * LeVal(s[4..])
  {
    assert s[1..][1..] == s[2..] && s[2..][1..] == s[3..] && s[3..][1..] == s[4..];
  }

  /** The value of 32 bytes written out. */
  lemma LeVal32(s: seq<byte>)
    requires |s| == 32
    ensures LeVal(s)
      == 0x1 * s[0] as int + 0x100 * s[1] as int + 0x10000 * s[2] as int + 0x1000000 * s[3] as int
       + 0x100000000 * s[4] as int + 0x10000000000 * s[5] as int + 0x1000000000000 * s[6] as int
           + 0x100000000000000 * s[7] as int
       + 0x10000000000000000 * s[8] as int + 0x1000000000000000000 * s[9] as int
           + 0x100000000000000000000 * s[10] as int + 0x10000000000000000000000 * s[11] as int
       + 0x1000000000000000000000000 * s[12] as int + 0x100000000000000000000000000 * s[13] as int
           + 0x10000000000000000000000000000 * s[14] as int + 0x1000000000000000000000000000000 * s[15] as int
       + 0x100000000000000000000000000000000 * s[16] as int + 0x10000000000000000000000000000000000 * s[17] as int
           + 0x1000000000000000000000000000000000000 * s[18] as int
           + 0x100000000000000000000000000000000000000 * s[19] as int
       + 0x10000000000000000000000000000000000000000 * s[20] as int
           + 0x1000000000000000000000000000000000000000000 * s[21] as int
           + 0x100000000000000000000000000000000000000000000 * s[22] as int
           + 0x10000000000000000000000000000000000000000000000 * s[23] as int
       + 0x1000000000000000000000000000000000000000000000000 * s[24] as int
           + 0x100000000000000000000000000000000000000000000000000 * s[25] as int
           + 0x10000000000000000000000000000000000000000000000000000 * s[26] as int
           + 0x1000000000000000000000000000000000000000000000000000000 * s[27] as int
       + 0x100000000000000000000000000000000000000000000000000000000 * s[28] as int
           + 0x10000000000000000000000000000000000000000000000000000000000 * s[29] as int
           + 0x1000000000000000000000000000000000000000000000000000000000000 * s[30] as int
           + 0x100000000000000000000000000000000000000000000000000000000000000 * s[31] as int
  {
    LeVal8(s);
    LeVal8(s[8..]);
    LeVal8(s[16..]);
    LeVal8(s[24..]);
    assert s[8..][8..] == s[16..] && s[16..][8..] == s[24..] && s[24..][8..] == [];
  }

  // ---- fe_frombytes

  function Load3(a: byte, b: byte, c: byte): (r: int)
    ensures r == a as int + 0x100 * b as int + 0x10000 * c as int
  {
    assert Pow2(8) == 0x100 && Pow2(16) == 0x10000 by { SmallPowers(); }
    hide Or, Pow2;
    OrJoin(a as int, b as int, 8, 0x100);
    OrJoin(a as int + b as int * 0x100, c as int, 16, 0x10000);
    Or(Or(a as int, b as int * 0x100), c as int * 0x10000)
  }

  function Load4(a: byte, b: byte, c: byte, d: byte): (r: int)
    ensures r == a as int + 0x100 * b as int + 0x10000 * c as int + 0x1000000 * d as int
  {
    assert Pow2(24) == 0x1000000 by { SmallPowers(); }
    hide Or, Pow2;
    OrJoin(Load3(a, b, c), d as int, 24, 0x1000000);
    Or(Load3(a, b, c), d as int * 0x1000000)
  }

  /** Three bytes without the top bit. */
  function Top(a: byte, b: byte, c: byte): (r: int)
    ensures 0 <= r < 0x800000 && r == Load3(a, b, c) % 0x800000
  {
    SmallPowers();
    AndLow(Load3(a, b, c), 23);
    And(Load3(a, b, c), 8388607)
  }

  lemma SmallPowers()
    ensures Pow2(1) == 2 && Pow2(2) == 4 && Pow2(3) == 8 && Pow2(4) == 16 && Pow2(5) == 32 && Pow2(6) == 64
        && Pow2(7) == 128 && Pow2(8) == 0x100
    ensures Pow2(16) == 0x10000 && Pow2(23) == 0x800000 && Pow2(24) == 0x1000000
  {
    assert Pow2(12) == 4096 by { assert Pow2(6) == 64 && Pow2(9) == 512; }
    assert Pow2(14) == 4 * Pow2(12) && Pow2(16) == 4 * Pow2(14);
    assert Pow2(18) == 4 * Pow2(16) && Pow2(20) == 4 * Pow2(18) && Pow2(22) == 4 * Pow2(20) && Pow2(24) == 4 * Pow2(22);
  }

  /** h is the value of s without its top bit. */
  method FeFromBytes(h: array<int32>, s: array<byte>)
    requires h.Length == 10 && s.Length == 32
    modifies h
    ensures Loose(Elem(h)) && Cong(Val(Elem(h)), LeVal(s[..]) % TWO_255)
  {
    hide Load3, Load4, Top, Val, ParallelCarries, And, Or, LeVal;
    var h0, h1 := Load4(s[0], s[1], s[2], s[3]), Load3(s[4], s[5], s[6]) * 64;
    var h2, h3 := Load3(s[7], s[8], s[9]) * 32, Load3(s[10], s[11], s[12]) * 8;
    var h4, h5 := Load3(s[13], s[14], s[15]) * 4, Load4(s[16], s[17], s[18], s[19]);
    var h6, h7 := Load3(s[20], s[21], s[22]) * 128, Load3(s[23], s[24], s[25]) * 32;
    var h8, h9 := Load3(s[26], s[27], s[28]) * 16, Top(s[29], s[30], s[31]) * 4;
    ghost var c := Limbs(h0, h1, h2, h3, h4, h5, h6, h7, h8, h9);
    Unpacked(s[..], c);
    StoreParallel(h, h0 as int64, h1 as int64, h2 as int64, h3 as int64, h4 as int64, h5 as int64, h6 as int64,
        h7 as int64, h8 as int64, h9 as int64);
    ParallelCarriesCong(c);
  }

  /** The limbs loaded from s cover its low 255 bits. */
  lemma Unpacked(s: seq<byte>, c: Limbs)
    requires |s| == 32
    requires c.h0 == Load4(s[0], s[1], s[2], s[3]) && c.h1 == Load3(s[4], s[5], s[6]) * 64
    requires c.h2 == Load3(s[7], s[8], s[9]) * 32 && c.h3 == Load3(s[10], s[11], s[12]) * 8
    requires c.h4 == Load3(s[13], s[14], s[15]) * 4 && c.h5 == Load4(s[16], s[17], s[18], s[19])
    requires c.h6 == Load3(s[20], s[21], s[22]) * 128 && c.h7 == Load3(s[23], s[24], s[25]) * 32
    requires c.h8 == Load3(s[26], s[27], s[28]) * 16 && c.h9 == Top(s[29], s[30], s[31]) * 4
    ensures Val(c) == LeVal(s) % TWO_255
  {
    hide Load3, Load4, Top;
    LeVal32(s);
    var t := Load3(s[29], s[30], s[31]);
    assert LeVal(s) == Val(c) + (t / 0x800000) * TWO_255;
    assert 0 <= Val(c) < TWO_255;
    ModUnique(LeVal(s), TWO_255, t / 0x800000, Val(c));
  }

  // ---- fe_tobytes

  /** x >> 26 and x >> 25 on a signed value. */
  function Shr26(x: int32): (c: int32)
    ensures 0 <= x as int - c as int * 0x4000000 < 0x4000000
    ensures Within(x as int, 0x8000000) ==> Within(c as int, 2)
  {
    x / 0x4000000
  }

  function Shr25(x: int32): (c: int32)
    ensures 0 <= x as int - c as int * 0x2000000 < 0x2000000
    ensures Within(x as int, 0x4000000) ==> Within(c as int, 2)
  {
    x / 0x2000000
  }

  /** The quotient fe_tobytes computes limb by limb is the exact one. */
  method Quotient(h0: int32, h1: int32, h2: int32, h3: int32, h4: int32, h5: int32, h6: int32, h7: int32, h8: int32,
      h9: int32) returns (q: int32)
    requires Summed(Limbs(h0 as int, h1 as int, h2 as int, h3 as int, h4 as int, h5 as int, h6 as int, h7 as int,
        h8 as int, h9 as int))
    ensures q as int == Val(Limbs(h0 as int, h1 as int, h2 as int, h3 as int, h4 as int, h5 as int, h6 as int,
        h7 as int, h8 as int, h9 as int)) / P
    ensures Within(q as int, 3)
  {
    hide Shr26, Shr25;
    var t := Shr25(19 * h9 + 0x1000000);
    var q0 := Shr26(h0 + t);
    var q1 := Shr25(h1 + q0);
    var q2 := Shr26(h2 + q1);
    var q3 := Shr25(h3 + q2);
    var q4 := Shr26(h4 + q3);
    var q5 := Shr25(h5 + q4);
    var q6 := Shr26(h6 + q5);
    var q7 := Shr25(h7 + q6);
    var q8 := Shr26(h8 + q7);
    var q9 := Shr25(h9 + q8);
    q := q9;
    ghost var h := Limbs(h0 as int, h1 as int, h2 as int, h3 as int, h4 as int, h5 as int, h6 as int, h7 as int,
        h8 as int, h9 as int);
    assert 0 <= Val(h) + t as int - TWO_255 * q as int < TWO_255 by {
      Telescope(h, t as int, q0 as int, q1 as int, q2 as int, q3 as int, q4 as int, q5 as int, q6 as int, q7 as int,
          q8 as int, q9 as int);
    }
    QuotientExact(h, t as int, q as int);
  }

  /** Ten floor divisions in a row divide the value by 2^255. */
  lemma Telescope(h: Limbs, t: int, q0: int, q1: int, q2: int, q3: int, q4: int, q5: int, q6: int, q7: int, q8: int,
      q9: int)
    requires 0 <= h.h0 + t - q0 * 0x4000000 < 0x4000000
    requires 0 <= h.h1 + q0 - q1 * 0x2000000 < 0x2000000
    requires 0 <= h.h2 + q1 - q2 * 0x4000000 < 0x4000000
    requires 0 <= h.h3 + q2 - q3 * 0x2000000 < 0x2000000
    requires 0 <= h.h4 + q3 - q4 * 0x4000000 < 0x4000000
    requires 0 <= h.h5 + q4 - q5 * 0x2000000 < 0x2000000
    requires 0 <= h.h6 + q5 - q6 * 0x4000000 < 0x4000000
    requires 0 <= h.h7 + q6 - q7 * 0x2000000 < 0x2000000
    requires 0 <= h.h8 + q7 - q8 * 0x4000000 < 0x4000000
    requires 0 <= h.h9 + q8 - q9 * 0x2000000 < 0x2000000
    ensures 0 <= Val(h) + t - TWO_255 * q9 < TWO_255
  {
  }

  /** The claim proved in the comment of fe_tobytes: with t = floor((19 h9 + 2^24) / 2^25),
      floor((h + t) / 2^255) = floor(h / p). */
  lemma QuotientExact(h: Limbs, t: int, q: int)
    requires Summed(h)
    requires 0 <= 19 * h.h9 + 0x1000000 - t * 0x2000000 < 0x2000000
    requires 0 <= Val(h) + t - TWO_255 * q < TWO_255
    ensures q == Val(h) / P && Within(q, 3)
  {
    var v := Val(h);
    var rest := v - 0x4000000000000000000000000000000000000000000000000000000000 * h.h9;
    assert Within(rest, 0x8000000000000000000000000000000000000000000000000000000000);
    QuotientBound(v, h.h9, rest, t, v / P, v % P);
    assert v == (v / P) * P + v % P;
    ModUnique(v + t, TWO_255, q, v + t - TWO_255 * q);
    ModUnique(v + t, TWO_255, v / P, v + t - TWO_255 * (v / P));
  }

  /** The limb bounds of fe_tobytes do not imply |h| <= p. */
  lemma BeyondP()
    ensures var h := Limbs(0, 0, 0, 0, 0, 0, 0, 0, 0, 36909875); Summed(h) && Val(h) > P
  {
    assert Val(Limbs(0, 0, 0, 0, 0, 0, 0, 0, 0, 36909875))
        == 0x4000000000000000000000000000000000000000000000000000000000 * 36909875;
  }

  lemma QuotientBound(v: int, h9: int, rest: int, t: int, q: int, r: int)
    requires v == 0x4000000000000000000000000000000000000000000000000000000000 * h9 + rest
    requires Within(h9, 36909875) && Within(rest, 0x8000000000000000000000000000000000000000000000000000000000)
    requires 0 <= 19 * h9 + 0x1000000 - t * 0x2000000 < 0x2000000
    requires v == q * P + r && 0 <= r < P
    ensures 0 <= v + t - TWO_255 * q < TWO_255
    ensures Within(q, 2)
  {
    assert Within(q, 2);
    assert v + t - TWO_255 * q == r - 19 * q + t;
  }

  /** Limbs that are digits: the representation is unique. */
  predicate Digits(h: Limbs) {
    && 0 <= h.h0 < 0x4000000 && 0 <= h.h1 < 0x2000000 && 0 <= h.h2 < 0x4000000 && 0 <= h.h3 < 0x2000000
        && 0 <= h.h4 < 0x4000000
    && 0 <= h.h5 < 0x2000000 && 0 <= h.h6 < 0x4000000 && 0 <= h.h7 < 0x2000000 && 0 <= h.h8 < 0x4000000
        && 0 <= h.h9 < 0x2000000
  }

  /** Carries through the low five limbs, starting with c. */
  method LowDigits(h0: int32, h1: int32, h2: int32, h3: int32, h4: int32, c: int32)
    returns (r0: int32, r1: int32, r2: int32, r3: int32, r4: int32, carry: int32)
    requires Within(c as int, 60) && Within(h0 as int, 73819750) && Within(h1 as int, 36909875)
        && Within(h2 as int, 73819750) && Within(h3 as int, 36909875) && Within(h4 as int, 73819750)
    ensures 0 <= r0 < 0x4000000 && 0 <= r1 < 0x2000000 && 0 <= r2 < 0x4000000 && 0 <= r3 < 0x2000000
        && 0 <= r4 < 0x4000000
    ensures r0 as int + 0x4000000 * r1 as int + 0x8000000000000 * r2 as int + 0x20000000000000000000 * r3 as int
        + 0x40000000000000000000000000 * r4 as int + 0x100000000000000000000000000000000 * carry as int
      == h0 as int + 0x4000000 * h1 as int + 0x8000000000000 * h2 as int + 0x20000000000000000000 * h3 as int
          + 0x40000000000000000000000000 * h4 as int + c as int
    ensures Within(carry as int, 2)
  {
    hide Shr26, Shr25;
    r0 := h0 + c;
    var carry0 := Shr26(r0); r0 := r0 - carry0 * 0x4000000;
    r1 := h1 + carry0;
    var carry1 := Shr25(r1); r1 := r1 - carry1 * 0x2000000;
    r2 := h2 + carry1;
    var carry2 := Shr26(r2); r2 := r2 - carry2 * 0x4000000;
    r3 := h3 + carry2;
    var carry3 := Shr25(r3); r3 := r3 - carry3 * 0x2000000;
    r4 := h4 + carry3;
    var carry4 := Shr26(r4); r4 := r4 - carry4 * 0x4000000;
    carry := carry4;
  }

  /** Carries through the high five limbs, starting with c. */
  method HighDigits(h5: int32, h6: int32, h7: int32, h8: int32, h9: int32, c: int32)
    returns (r5: int32, r6: int32, r7: int32, r8: int32, r9: int32, carry: int32)
    requires Within(c as int, 60) && Within(h5 as int, 36909875) && Within(h6 as int, 73819750)
        && Within(h7 as int, 36909875) && Within(h8 as int, 73819750) && Within(h9 as int, 36909875)
    ensures 0 <= r5 < 0x2000000 && 0 <= r6 < 0x4000000 && 0 <= r7 < 0x2000000 && 0 <= r8 < 0x4000000
        && 0 <= r9 < 0x2000000
    ensures r5 as int + 0x2000000 * r6 as int + 0x8000000000000 * r7 as int + 0x10000000000000000000 * r8 as int
        + 0x40000000000000000000000000 * r9 as int + 0x80000000000000000000000000000000 * carry as int
      == h5 as int + 0x2000000 * h6 as int + 0x8000000000000 * h7 as int + 0x10000000000000000000 * h8 as int
          + 0x40000000000000000000000000 * h9 as int + c as int
    ensures Within(carry as int, 2)
  {
    hide Shr26, Shr25;
    r5 := h5 + c;
    var carry5 := Shr25(r5); r5 := r5 - carry5 * 0x2000000;
    r6 := h6 + carry5;
    var carry6 := Shr26(r6); r6 := r6 - carry6 * 0x4000000;
    r7 := h7 + carry6;
    var carry7 := Shr25(r7); r7 := r7 - carry7 * 0x2000000;
    r8 := h8 + carry7;
    var carry8 := Shr26(r8); r8 := r8 - carry8 * 0x4000000;
    r9 := h9 + carry8;
    var carry9 := Shr25(r9); r9 := r9 - carry9 * 0x2000000;
    carry := carry9;
  }

  /** Adds 19 q and carries, dropping the last carry: h - p q as digits. */
  method Reduce(h0: int32, h1: int32, h2: int32, h3: int32, h4: int32, h5: int32, h6: int32, h7: int32, h8: int32,
      h9: int32, q: int32)
    returns (r0: int32, r1: int32, r2: int32, r3: int32, r4: int32, r5: int32, r6: int32, r7: int32, r8: int32,
        r9: int32)
    requires Summed(Limbs(h0 as int, h1 as int, h2 as int, h3 as int, h4 as int, h5 as int, h6 as int, h7 as int,
        h8 as int, h9 as int))
    requires q as int == Val(Limbs(h0 as int, h1 as int, h2 as int, h3 as int, h4 as int, h5 as int, h6 as int,
        h7 as int, h8 as int, h9 as int)) / P && Within(q as int, 3)
    ensures Digits(Limbs(r0 as int, r1 as int, r2 as int, r3 as int, r4 as int, r5 as int, r6 as int, r7 as int,
        r8 as int, r9 as int))
    ensures Val(Limbs(r0 as int, r1 as int, r2 as int, r3 as int, r4 as int, r5 as int, r6 as int, r7 as int,
        r8 as int, r9 as int))
      == Val(Limbs(h0 as int, h1 as int, h2 as int, h3 as int, h4 as int, h5 as int, h6 as int, h7 as int, h8 as int,
          h9 as int)) % P
  {
    var carry4, carry9;
    r0, r1, r2, r3, r4, carry4 := LowDigits(h0, h1, h2, h3, h4, 19 * q);
    r5, r6, r7, r8, r9, carry9 := HighDigits(h5, h6, h7, h8, h9, carry4);
    FinishReduce(Limbs(h0 as int, h1 as int, h2 as int, h3 as int, h4 as int, h5 as int, h6 as int, h7 as int,
        h8 as int, h9 as int), Limbs(r0 as int, r1 as int, r2 as int, r3 as int, r4 as int, r5 as int, r6 as int,
        r7 as int, r8 as int, r9 as int), q as int, carry9 as int);
  }

  /** v + 19 q modulo 2^255, for the quotient q of v by p. */
  lemma ReduceValue(v: int, w: int, q: int, carry9: int)
    requires 0 <= w < TWO_255 && q == v / P && w == v + 19 * q - TWO_255 * carry9
    ensures w == v % P
  {
    assert v == q * P + v % P;
    ModUnique(v + 19 * q, TWO_255, carry9, w);
    ModUnique(v + 19 * q, TWO_255, q, v % P);
  }

  lemma FinishReduce(h: Limbs, r: Limbs, q: int, carry9: int)
    ensures q == Val(h) / P && Digits(r) && Val(r) == Val(h) + 19 * q - TWO_255 * carry9 ==> Val(r) == Val(h) % P
  {
    if Digits(r) {
      DigitsValue(r);
      hide Val, Digits;
      if q == Val(h) / P && Val(r) == Val(h) + 19 * q - TWO_255 * carry9 {
        ReduceValue(Val(h), Val(r), q, carry9);
      }
    }
  }

  lemma DigitsValue(r: Limbs)
    requires Digits(r)
    ensures 0 <= Val(r) < TWO_255
  {
  }

  /** The value of the limbs from the k-th on, in units of the k-th. */
  function Tail(h: Limbs, k: nat): int
    requires k <= 10
    decreases 10 - k
  {
    if k == 10 then 0 else Limb(h, k) + Radix(k) * Tail(h, k + 1)
  }

  function Radix(k: nat): (m: int)
    ensures m > 0
  {
    if k % 2 == 0 then 0x4000000 else 0x2000000
  }

  lemma TailValue(h: Limbs)
    ensures Val(h) == Tail(h, 0)
  {
    assert Tail(h, 8) == h.h8 + 0x4000000 * h.h9;
    assert Tail(h, 6) == h.h6 + 0x4000000 * (h.h7 + 0x2000000 * Tail(h, 8));
    assert Tail(h, 4) == h.h4 + 0x4000000 * (h.h5 + 0x2000000 * Tail(h, 6));
    assert Tail(h, 2) == h.h2 + 0x4000000 * (h.h3 + 0x2000000 * Tail(h, 4));
    assert Tail(h, 0) == h.h0 + 0x4000000 * (h.h1 + 0x2000000 * Tail(h, 2));
  }

  lemma {:induction false} TailUnique(r: Limbs, t: Limbs, k: nat)
    requires k <= 10 && Digits(r) && Digits(t) && Tail(r, k) == Tail(t, k)
    ensures forall i :: k <= i < 10 ==> Limb(r, i) == Limb(t, i)
    decreases 10 - k
  {
    if k < 10 {
      DigitBound(r, k);
      DigitBound(t, k);
      hide Digits, Limb;
      DigitStep(Limb(r, k), Limb(t, k), Radix(k), Tail(r, k + 1), Tail(t, k + 1));
      TailUnique(r, t, k + 1);
    }
  }

  lemma DigitBound(r: Limbs, k: nat)
    requires k < 10 && Digits(r)
    ensures 0 <= Limb(r, k) < Radix(k)
  {
  }

  /** The digits of a value are unique: those the code works with are the only ones. */
  lemma DigitsUnique(r: Limbs, t: Limbs)
    requires Digits(r) && Digits(t) && Val(r) == Val(t)
    ensures r == t
  {
    hide Digits, Val, Tail;
    TailValue(r);
    TailValue(t);
    TailUnique(r, t, 0);
    assert Limb(r, 0) == Limb(t, 0) && Limb(r, 1) == Limb(t, 1) && Limb(r, 2) == Limb(t, 2)
        && Limb(r, 3) == Limb(t, 3) && Limb(r, 4) == Limb(t, 4);
    assert Limb(r, 5) == Limb(t, 5) && Limb(r, 6) == Limb(t, 6) && Limb(r, 7) == Limb(t, 7)
        && Limb(r, 8) == Limb(t, 8) && Limb(r, 9) == Limb(t, 9);
  }

  lemma DigitStep(a: int, b: int, m: int, x: int, y: int)
    requires 0 <= a < m && 0 <= b < m && a + m * x == b + m * y
    ensures a == b && x == y
  {
    ModUnique(a + m * x, m, x, a);
    ModUnique(b + m * y, m, y, b);
  }

  /** The cast to unsigned char. */
  function Low(x: int): byte {
    (x % 256) as byte
  }

  /** x << k in 32 bits: what does not fit is lost. */
  function Shl32(x: int, k: nat): (r: int)
    ensures -0x8000_0000 <= r < 0x8000_0000
  {
    var y := (x * Pow2(k)) % 0x1_0000_0000;
    if y < 0x8000_0000 then y else y - 0x1_0000_0000
  }

  /** h4 << 6 is the one shift of fe_tobytes that can leave the 32-bit range. For the digits
      r that the reduction of h ends in, it does exactly if bit 127 of the encoded value is
      set. The byte it contributes to does not depend on what is lost. */
  lemma WrappingShift(h: Limbs, r: Limbs)
    requires Digits(r) && Val(r) == Val(h) % P
    ensures Shl32(r.h4, 6) == r.h4 * 64 <==> ((Val(h) % P) / 0x80000000000000000000000000000000) % 2 == 0
  {
    ShiftSix(r.h4);
    UpperHalf(r);
  }

  lemma ShiftSix(h4: int)
    requires 0 <= h4 < 0x4000000
    ensures Shl32(h4, 6) == h4 * 64 <==> h4 < 0x2000000
  {
    assert Pow2(6) == 64 by { SmallPowers(); }
  }

  /** Bit 127 of the value is bit 25 of h4. */
  lemma UpperHalf(r: Limbs)
    requires Digits(r)
    ensures (Val(r) / 0x80000000000000000000000000000000) % 2 == 0 <==> r.h4 < 0x2000000
  {
    var bit := if r.h4 < 0x2000000 then 0 else 1;
    var low := r.h0 + 0x4000000 * r.h1 + 0x8000000000000 * r.h2 + 0x20000000000000000000 * r.h3
               + 0x40000000000000000000000000 * (r.h4 - 0x2000000 * bit);
    var high := r.h5 + 0x2000000 * r.h6 + 0x8000000000000 * r.h7 + 0x10000000000000000000 * r.h8
        + 0x40000000000000000000000000 * r.h9;
    assert Val(r) == low + 0x80000000000000000000000000000000 * (bit + 2 * high);
    hide Val;
    ModUnique(Val(r), 0x80000000000000000000000000000000, bit + 2 * high, low);
  }

  /** Limbs within the bounds of fe_tobytes for which the shift loses a bit. */
  lemma LosingShift()
    ensures var h := Limbs(0, 0, 0, 0, 0x2000000, 0, 0, 0, 0, 0);
      Summed(h) && Digits(h) && Val(h) == Val(h) % P && Shl32(h.h4, 6) != h.h4 * 64
  {
    ShiftSix(0x2000000);
  }

  /** No other shift to the left loses anything. */
  lemma OtherShifts(r: Limbs)
    requires Digits(r)
    ensures Shl32(r.h1, 2) == 4 * r.h1 && Shl32(r.h2, 3) == 8 * r.h2 && Shl32(r.h3, 5) == 32 * r.h3
    ensures Shl32(r.h6, 1) == 2 * r.h6 && Shl32(r.h7, 3) == 8 * r.h7 && Shl32(r.h8, 4) == 16 * r.h8
    ensures Shl32(r.h9, 6) == 64 * r.h9
  {
    SmallPowers();
    hide Pow2;
  }

  /** A byte that two limbs share: the last k bits of one below the first of the next. */
  function Shared(x: int, y: int, k: nat): (b: byte)
    requires 1 <= k <= 6 && 0 <= x < Pow2(k)
    ensures b as int == x + Pow2(k) * (y % Pow2(8 - k))
  {
    SharedValue(x, y, k);
    Low(Or(x, Shl32(y, k)))
  }

  lemma SharedValue(x: int, y: int, k: nat)
    requires 1 <= k <= 6 && 0 <= x < Pow2(k)
    ensures Or(x, Shl32(y, k)) % 256 == x + Pow2(k) * (y % Pow2(8 - k))
  {
    SmallPowers();
    SharedParts(x, y, k, Pow2(k), Pow2(8 - k));
  }

  lemma SharedParts(x: int, y: int, k: nat, p: int, m: int)
    requires p == Pow2(k) && p * m == 256 && m > 0 && 0 <= x < p
    ensures Or(x, Shl32(y, k)) % 256 == x + p * (y % m)
  {
    var w := (y * p) / 0x1_0000_0000 + if (y * p) % 0x1_0000_0000 < 0x8000_0000 then 0 else 1;
    assert Shl32(y, k) == y * p - w * 0x1_0000_0000;
    hide Shl32, Or, Pow2;
    ShiftAlgebra(y, w, p, m);
    OrDisjoint(x, y - w * 0x100_0000 * m, k);
    ByteAlgebra(x, y, w * 0x100_0000, p, m);
  }

  lemma ShiftAlgebra(y: int, w: int, p: int, m: int)
    requires p * m == 256
    ensures (y - w * 0x100_0000 * m) * p == y * p - w * 0x1_0000_0000
  {
    var u := w * 0x100_0000;
    assert (u * m) * p == u * (p * m);
    assert (y - u * m) * p == y * p - (u * m) * p;
  }

  lemma ByteAlgebra(x: int, y: int, u: int, p: int, m: int)
    requires p * m == 256 && m > 0 && 0 <= x < p
    ensures (x + (y - u * m) * p) % 256 == x + p * (y % m)
  {
    var d, r := y / m - u, y % m;
    assert y - u * m == d * m + r by {
      assert d * m == (y / m) * m - u * m;
    }
    assert (d * m + r) * p == d * 256 + r * p by {
      assert (d * m) * p == d * (p * m);
    }
    assert 0 <= r * p <= (m - 1) * p;
    assert (m - 1) * p == 256 - p;
    assert x + (y - u * m) * p == d * 256 + (x + r * p);
  }

  function Lo(h: int, m: int): int requires m > 0 { h % m }
  function Mid(h: int, m: int): int requires m > 0 { (h / m) % 256 }
  function Hi(h: int, m: int): int requires m > 0 { h / m }

  /** A value cut into its low part, two bytes and the rest. */
  lemma Cut(h: int, m: int)
    requires h >= 0 && m > 0
    ensures h == Lo(h, m) + m * Mid(h, m) + (0x100 * m) * Mid(h, 0x100 * m) + (0x10000 * m) * Hi(h, 0x10000 * m)
  {
    var x := h / m;
    var y := x / 256;
    DivTwice(h, m, 0x100);
    DivTwice(h, 0x100 * m, 0x100);
    assert y == h / (0x100 * m) && y / 256 == h / (0x10000 * m);
    var a, b, c := x % 256, y % 256, y / 256;
    assert x == a + 256 * b + 0x10000 * c;
    CutAlgebra(m, a, b, c);
  }

  lemma CutAlgebra(m: int, a: int, b: int, c: int)
    ensures m * (a + 256 * b + 0x10000 * c) == m * a + (0x100 * m) * b + (0x10000 * m) * c
  {
  }

  // The shapes of (unsigned char) (h >> k) and (unsigned char) ((h >> j) | (y << k)).

  function LowByte(h: int): (b: byte)
    ensures b as int == Lo(h, 0x100)
  {
    Low(h)
  }

  function MidByte(h: int, m: int): (b: byte)
    requires m > 0
    ensures b as int == Mid(h, m)
  {
    Low(h / m)
  }

  function HiByte(h: int, m: int): (b: byte)
    requires m > 0 && 0 <= h < 0x100 * m
    ensures b as int == Hi(h, m)
  {
    Below(h, m, 0x100);
    Low(h / m)
  }

  function JointByte(h: int, m: int, y: int, k: nat, p: int, n: int): (b: byte)
    requires 1 <= k <= 6 && p == Pow2(k) && n == Pow2(8 - k) && m > 0 && 0 <= h < p * m
    ensures b as int == Hi(h, m) + p * Lo(y, n)
  {
    Below(h, m, p);
    Shared(h / m, y, k)
  }

  lemma Below(h: int, m: int, n: int)
    requires m > 0 && 0 <= h < n * m
    ensures 0 <= h / m < n
  {
    var x := h / m;
    assert x * m <= h;
    assert x >= n ==> x * m >= n * m;
  }

  lemma LeVal16(s: seq<byte>)
    requires |s| == 16
    ensures LeVal(s)
      == 0x1 * s[0] as int + 0x100 * s[1] as int + 0x10000 * s[2] as int + 0x1000000 * s[3] as int
       + 0x100000000 * s[4] as int + 0x10000000000 * s[5] as int + 0x1000000000000 * s[6] as int
           + 0x100000000000000 * s[7] as int
       + 0x10000000000000000 * s[8] as int + 0x1000000000000000000 * s[9] as int
           + 0x100000000000000000000 * s[10] as int + 0x10000000000000000000000 * s[11] as int
       + 0x1000000000000000000000000 * s[12] as int + 0x100000000000000000000000000 * s[13] as int
           + 0x10000000000000000000000000000 * s[14] as int + 0x1000000000000000000000000000000 * s[15] as int
  {
    LeVal8(s);
    LeVal8(s[8..]);
    assert s[8..][8..] == [];
  }

  /** Bytes 0 to 7. */
  function Pack0(h0: int, h1: int, h2: int): (s: seq<byte>)
    requires 0 <= h0 < 0x4000000 && 0 <= h1 < 0x2000000 && 0 <= h2 < 0x4000000
    ensures |s| == 8
    ensures s[0] as int == Lo(h0, 0x100) && s[1] as int == Mid(h0, 0x100) && s[2] as int == Mid(h0, 0x10000)
        && s[3] as int == Hi(h0, 0x1000000) + 4 * Lo(h1, 64)
    ensures s[4] as int == Mid(h1, 0x40) && s[5] as int == Mid(h1, 0x4000)
        && s[6] as int == Hi(h1, 0x400000) + 8 * Lo(h2, 32) && s[7] as int == Mid(h2, 0x20)
  {
    SmallPowers();
    hide LowByte, MidByte, HiByte, JointByte, Pow2, Lo, Mid, Hi;
    [LowByte(h0), MidByte(h0, 0x100), MidByte(h0, 0x10000), JointByte(h0, 0x1000000, h1, 2, 4, 64),
     MidByte(h1, 0x40), MidByte(h1, 0x4000), JointByte(h1, 0x400000, h2, 3, 8, 32), MidByte(h2, 0x20)]
  }

  /** Bytes 8 to 15. */
  function Pack8(h2: int, h3: int, h4: int): (s: seq<byte>)
    requires 0 <= h2 < 0x4000000 && 0 <= h3 < 0x2000000 && 0 <= h4 < 0x4000000
    ensures |s| == 8
    ensures s[0] as int == Mid(h2, 0x2000) && s[1] as int == Hi(h2, 0x200000) + 32 * Lo(h3, 8)
        && s[2] as int == Mid(h3, 0x8) && s[3] as int == Mid(h3, 0x800)
    ensures s[4] as int == Hi(h3, 0x80000) + 64 * Lo(h4, 4) && s[5] as int == Mid(h4, 0x4)
        && s[6] as int == Mid(h4, 0x400) && s[7] as int == Hi(h4, 0x40000)
  {
    SmallPowers();
    hide LowByte, MidByte, HiByte, JointByte, Pow2, Lo, Mid, Hi;
    [MidByte(h2, 0x2000), JointByte(h2, 0x200000, h3, 5, 32, 8), MidByte(h3, 0x8), MidByte(h3, 0x800),
     JointByte(h3, 0x80000, h4, 6, 64, 4), MidByte(h4, 0x4), MidByte(h4, 0x400), HiByte(h4, 0x40000)]
  }

  /** Bytes 16 to 23. */
  function Pack16(h5: int, h6: int, h7: int): (s: seq<byte>)
    requires 0 <= h5 < 0x2000000 && 0 <= h6 < 0x4000000 && 0 <= h7 < 0x2000000
    ensures |s| == 8
    ensures s[0] as int == Lo(h5, 0x100) && s[1] as int == Mid(h5, 0x100) && s[2] as int == Mid(h5, 0x10000)
        && s[3] as int == Hi(h5, 0x1000000) + 2 * Lo(h6, 128)
    ensures s[4] as int == Mid(h6, 0x80) && s[5] as int == Mid(h6, 0x8000)
        && s[6] as int == Hi(h6, 0x800000) + 8 * Lo(h7, 32) && s[7] as int == Mid(h7, 0x20)
  {
    SmallPowers();
    hide LowByte, MidByte, HiByte, JointByte, Pow2, Lo, Mid, Hi;
    [LowByte(h5), MidByte(h5, 0x100), MidByte(h5, 0x10000), JointByte(h5, 0x1000000, h6, 1, 2, 128),
     MidByte(h6, 0x80), MidByte(h6, 0x8000), JointByte(h6, 0x800000, h7, 3, 8, 32), MidByte(h7, 0x20)]
  }

  /** Bytes 24 to 31. */
  function Pack24(h7: int, h8: int, h9: int): (s: seq<byte>)
    requires 0 <= h7 < 0x2000000 && 0 <= h8 < 0x4000000 && 0 <= h9 < 0x2000000
    ensures |s| == 8
    ensures s[0] as int == Mid(h7, 0x2000) && s[1] as int == Hi(h7, 0x200000) + 16 * Lo(h8, 16)
        && s[2] as int == Mid(h8, 0x10) && s[3] as int == Mid(h8, 0x1000)
    ensures s[4] as int == Hi(h8, 0x100000) + 64 * Lo(h9, 4) && s[5] as int == Mid(h9, 0x4)
        && s[6] as int == Mid(h9, 0x400) && s[7] as int == Hi(h9, 0x40000)
  {
    SmallPowers();
    hide LowByte, MidByte, HiByte, JointByte, Pow2, Lo, Mid, Hi;
    [MidByte(h7, 0x2000), JointByte(h7, 0x200000, h8, 4, 16, 16), MidByte(h8, 0x10), MidByte(h8, 0x1000),
     JointByte(h8, 0x100000, h9, 6, 64, 4), MidByte(h9, 0x4), MidByte(h9, 0x400), HiByte(h9, 0x40000)]
  }

  lemma PackLowValue(h0: int, h1: int, h2: int, h3: int, h4: int)
    requires 0 <= h0 < 0x4000000 && 0 <= h1 < 0x2000000 && 0 <= h2 < 0x4000000 && 0 <= h3 < 0x2000000
        && 0 <= h4 < 0x4000000
    ensures LeVal(Pack0(h0, h1, h2) + Pack8(h2, h3, h4))
      == h0 + 0x4000000 * h1 + 0x8000000000000 * h2 + 0x20000000000000000000 * h3 + 0x40000000000000000000000000 * h4
  {
    hide LeVal, Pack0, Pack8, Lo, Mid, Hi;
    LeVal16(Pack0(h0, h1, h2) + Pack8(h2, h3, h4));
    Cut(h0, 256);
    Cut(h1, 64);
    Cut(h2, 32);
    Cut(h3, 8);
    Cut(h4, 4);
  }

  lemma PackHighValue(h5: int, h6: int, h7: int, h8: int, h9: int)
    requires 0 <= h5 < 0x2000000 && 0 <= h6 < 0x4000000 && 0 <= h7 < 0x2000000 && 0 <= h8 < 0x4000000
        && 0 <= h9 < 0x2000000
    ensures LeVal(Pack16(h5, h6, h7) + Pack24(h7, h8, h9))
      == h5 + 0x2000000 * h6 + 0x8000000000000 * h7 + 0x10000000000000000000 * h8 + 0x40000000000000000000000000 * h9
  {
    hide LeVal, Pack16, Pack24, Lo, Mid, Hi;
    LeVal16(Pack16(h5, h6, h7) + Pack24(h7, h8, h9));
    Cut(h5, 256);
    Cut(h6, 128);
    Cut(h7, 32);
    Cut(h8, 16);
    Cut(h9, 4);
  }

  lemma LeValHalves(a: seq<byte>, b: seq<byte>)
    requires |a| == |b| == 16
    ensures LeVal(a + b) == LeVal(a) + 0x100000000000000000000000000000000 * LeVal(b)
  {
    LeVal32(a + b);
    LeVal16(a);
    LeVal16(b);
  }

  /** s becomes the little-endian encoding of h mod p. */
  method FeToBytes(s: array<byte>, h: array<int32>)
    requires s.Length == 32 && h.Length == 10 && Summed(Elem(h))
    modifies s
    ensures LeVal(s[..]) == Val(Elem(h)) % P
  {
    var q := Quotient(h[0], h[1], h[2], h[3], h[4], h[5], h[6], h[7], h[8], h[9]);
    var r0, r1, r2, r3, r4, r5, r6, r7, r8, r9 := Reduce(h[0], h[1], h[2], h[3], h[4], h[5], h[6], h[7], h[8], h[9], q);
    var low := Pack0(r0 as int, r1 as int, r2 as int) + Pack8(r2 as int, r3 as int, r4 as int);
    var high := Pack16(r5 as int, r6 as int, r7 as int) + Pack24(r7 as int, r8 as int, r9 as int);
    hide Pack0, Pack8, Pack16, Pack24, LeVal, Mid, Hi, Lo;
    PackLowValue(r0 as int, r1 as int, r2 as int, r3 as int, r4 as int);
    PackHighValue(r5 as int, r6 as int, r7 as int, r8 as int, r9 as int);
    LeValHalves(low, high);
    forall i | 0 <= i < 32 { s[i] := if i < 16 then low[i] else high[i - 16]; }
    assert s[..] == low + high;
  }

  /** Two encodings of the same length with the same value are the same. */
  lemma {:induction false} LeValInjective(s: seq<byte>, t: seq<byte>)
    requires |s| == |t| && LeVal(s) == LeVal(t)
    ensures s == t
  {
    if s != [] {
      LeValInjective(s[1..], t[1..]);
      assert s == [s[0]] + s[1..] && t == [t[0]] + t[1..];
    }
  }

  /** Decoding and encoding again reduces the low 255 bits modulo p. */
  method RoundTrip(s: array<byte>) returns (t: array<byte>)
    requires s.Length == 32
    ensures t.Length == 32 && LeVal(t[..]) == (LeVal(s[..]) % TWO_255) % P
  {
    var h := new int32[10];
    t := new byte[32];
    FeFromBytes(h, s);
    FeToBytes(t, h);
  }
}
