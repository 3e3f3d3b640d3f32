/** fe_invert and fe_pow22523 of fe.c: fixed chains of squarings and multiplications. */
module FieldInvert {
  import opened Bits
  import opened Fermat
  import opened FieldLimbs
  import opened FieldMul

  /** h stands for z to the n-th power. */
  ghost predicate IsPower(h: Limbs, z: int, n: nat) {
    Cong(Val(h), Pow(z, n))
  }

  lemma PowerProduct(x: int, y: int, z: int, m: nat, n: nat)
    requires Cong(x, Pow(z, m)) && Cong(y, Pow(z, n))
    ensures Cong(x * y, Pow(z, m + n))
  {
    ModMul(x, Pow(z, m), y, Pow(z, n), P);
    PowAdd(z, m, n);
  }

  /** h = f g for two powers of the same element; h may be f or g. */
  method MulPowers(h: array<int32>, f: array<int32>, g: array<int32>, ghost z: int, ghost m: nat, ghost n: nat)
    requires h.Length == f.Length == g.Length == 10 && Factor(Elem(f)) && Factor(Elem(g))
    modifies h
    ensures Tight(Elem(h))
    ensures old(IsPower(Elem(f), z, m) && IsPower(Elem(g), z, n)) ==> IsPower(Elem(h), z, m + n)
  {
    hide Cong, Val, Pow, Columns, SerialCarries;
    ghost var a, b := Val(Elem(f)), Val(Elem(g));
    FeMul(h, f, g);
    if old(IsPower(Elem(f), z, m) && IsPower(Elem(g), z, n)) {
      PowerProduct(a, b, z, m, n);
      CongTrans(Val(Elem(h)), a * b, Pow(z, m + n));
    }
  }

  method SquarePower(h: array<int32>, f: array<int32>, ghost z: int, ghost n: nat)
    requires h.Length == f.Length == 10 && Factor(Elem(f))
    modifies h
    ensures Tight(Elem(h))
    ensures old(IsPower(Elem(f), z, n)) ==> IsPower(Elem(h), z, 2 * n)
  {
    hide Cong, Val, Pow, Columns, SerialCarries;
    ghost var a := Val(Elem(f));
    FeSq(h, f);
    if old(IsPower(Elem(f), z, n)) {
      PowerProduct(a, a, z, n, n);
      CongTrans(Val(Elem(h)), a * a, Pow(z, 2 * n));
    }
  }

  /** n doubled k times. */
  function Doubled(n: nat, k: nat): nat {
    if k == 0 then n else 2 * Doubled(n, k - 1)
  }

  /** One squaring of f into t, then count - 1 squarings of t in place. */
  method SquareRepeatedly(t: array<int32>, f: array<int32>, count: nat, ghost z: int, ghost n: nat)
    requires t.Length == f.Length == 10 && count >= 1 && Factor(Elem(f))
    modifies t
    ensures Tight(Elem(t))
    ensures old(IsPower(Elem(f), z, n)) ==> IsPower(Elem(t), z, Doubled(n, count))
  {
    hide IsPower, Elem;
    SquarePower(t, f, z, n);
    for i := 1 to count
      invariant Tight(Elem(t))
      invariant old(IsPower(Elem(f), z, n)) ==> IsPower(Elem(t), z, Doubled(n, i))
    {
      SquarePower(t, t, z, Doubled(n, i));
    }
  }

  // ---- the exponents

  /** 2^252 - 3. */
  const P_MINUS_5_OVER_8: nat := 0xffffffffffffffffffffffffffffffffffffffffffffffffffffffffffffffd

  /** The number written with k ones. */
  function Ones(k: nat): nat {
    Pow2(k) - 1
  }

  lemma {:induction false} OnesJoin(a: nat, b: nat)
    ensures Doubled(Ones(a), b) + Ones(b) == Ones(a + b)
    decreases b
  {
    if b > 0 {
      OnesJoin(a, b - 1);
    }
  }

  lemma Pow2Sum(a: nat, b: nat, x: int, y: int)
    requires Pow2(a) == x && Pow2(b) == y
    ensures Pow2(a + b) == x * y
  {
    Pow2Add(a, b);
  }

  lemma Pow2Large()
    ensures Pow2(250) == 0x400000000000000000000000000000000000000000000000000000000000000
  {
    assert Pow2(5) == 32;
    hide Pow2;
    Pow2Sum(5, 5, 32, 32);
    Pow2Sum(10, 10, 0x400, 0x400);
    Pow2Sum(20, 20, 0x100000, 0x100000);
    Pow2Sum(40, 40, 0x10000000000, 0x10000000000);
    Pow2Sum(80, 80, 0x100000000000000000000, 0x100000000000000000000);
    Pow2Sum(160, 80, 0x10000000000000000000000000000000000000000, 0x100000000000000000000);
    Pow2Sum(240, 10, 0x1000000000000000000000000000000000000000000000000000000000000, 0x400);
  }

  /** Three doublings and a sum for the last step of each chain. */
  lemma LastExponents()
    ensures Doubled(Ones(250), 5) + 11 == P - 2
    ensures Doubled(Ones(250), 2) + 1 == P_MINUS_5_OVER_8
    ensures Doubled(1, 1) == 2 && Doubled(2, 2) == 8 && Doubled(11, 1) == 22 && Ones(5) == 31
  {
    Pow2Large();
    assert Ones(5) == 31;
    hide Pow2;
    var n := Ones(250);
    assert Doubled(n, 1) == 2 * n && Doubled(n, 2) == 4 * n && Doubled(n, 3) == 8 * n && Doubled(n, 4) == 16 * n;
  }

  lemma FirstPower(h: Limbs)
    ensures IsPower(h, Val(h), 1)
  {
    assert Pow(Val(h), 1) == Val(h) * Pow(Val(h), 0);
  }

  method JoinOnes(h: array<int32>, f: array<int32>, g: array<int32>, ghost z: int, ghost a: nat, ghost b: nat)
    requires h.Length == f.Length == g.Length == 10 && Factor(Elem(f)) && Factor(Elem(g))
    modifies h
    ensures Tight(Elem(h))
    ensures old(IsPower(Elem(f), z, Doubled(Ones(a), b)) && IsPower(Elem(g), z, Ones(b))) ==>
        IsPower(Elem(h), z, Ones(a + b))
  {
    hide IsPower;
    OnesJoin(a, b);
    MulPowers(h, f, g, z, Doubled(Ones(a), b), Ones(b));
  }

  /** The first half of fe_invert: t0 = z^11 and t1 = z^(2^50 - 1). */
  method InvertStart(t0: array<int32>, t1: array<int32>, t2: array<int32>, t3: array<int32>, z: array<int32>,
      ghost v: int)
    requires t0.Length == t1.Length == t2.Length == t3.Length == z.Length == 10
    requires t0 != t1 && t0 != t2 && t0 != t3 && t0 != z && t1 != t2 && t1 != t3 && t1 != z && t2 != t3 && t2 != z
        && t3 != z
    requires Factor(Elem(z))
    modifies t0, t1, t2, t3
    ensures Tight(Elem(t0)) && Tight(Elem(t1))
    ensures IsPower(Elem(z), v, 1) ==> IsPower(Elem(t0), v, 11) && IsPower(Elem(t1), v, Ones(50))
  {
    LastExponents();
    hide IsPower, Pow, Pow2, Ones, Doubled, Elem, Val;
    SquareRepeatedly(t0, z, 1, v, 1);
    SquareRepeatedly(t1, t0, 2, v, 2);
    MulPowers(t1, z, t1, v, 1, 8);
    MulPowers(t0, t0, t1, v, 2, 9);
    SquareRepeatedly(t2, t0, 1, v, 11);
    MulPowers(t1, t1, t2, v, 9, 22);
    SquareRepeatedly(t2, t1, 5, v, Ones(5));
    JoinOnes(t1, t2, t1, v, 5, 5);
    SquareRepeatedly(t2, t1, 10, v, Ones(10));
    JoinOnes(t2, t2, t1, v, 10, 10);
    SquareRepeatedly(t3, t2, 20, v, Ones(20));
    JoinOnes(t2, t3, t2, v, 20, 20);
    SquareRepeatedly(t2, t2, 10, v, Ones(40));
    JoinOnes(t1, t2, t1, v, 40, 10);
  }

  /** The second half of fe_invert. */
  method InvertEnd(out: array<int32>, t0: array<int32>, t1: array<int32>, t2: array<int32>, t3: array<int32>,
      ghost v: int)
    requires out.Length == t0.Length == t1.Length == t2.Length == t3.Length == 10
    requires t0 != t1 && t0 != t2 && t0 != t3 && t1 != t2 && t1 != t3 && t2 != t3
    requires Factor(Elem(t0)) && Factor(Elem(t1))
    modifies out, t1, t2, t3
    ensures Tight(Elem(out))
    ensures old(IsPower(Elem(t0), v, 11) && IsPower(Elem(t1), v, Ones(50))) ==> IsPower(Elem(out), v, P - 2)
  {
    LastExponents();
    hide IsPower, Pow, Pow2, Ones, Doubled, Elem, Val;
    SquareRepeatedly(t2, t1, 50, v, Ones(50));
    JoinOnes(t2, t2, t1, v, 50, 50);
    SquareRepeatedly(t3, t2, 100, v, Ones(100));
    JoinOnes(t2, t3, t2, v, 100, 100);
    SquareRepeatedly(t2, t2, 50, v, Ones(200));
    JoinOnes(t1, t2, t1, v, 200, 50);
    SquareRepeatedly(t1, t1, 5, v, Ones(250));
    MulPowers(out, t1, t0, v, Doubled(Ones(250), 5), 11);
  }

  /** out = z^(p - 2); out may be z. */
  method FeInvert(out: array<int32>, z: array<int32>)
    requires out.Length == z.Length == 10 && Factor(Elem(z))
    modifies out
    ensures Tight(Elem(out)) && IsPower(Elem(out), old(Val(Elem(z))), P - 2)
  {
    ghost var v := Val(Elem(z));
    FirstPower(Elem(z));
    hide IsPower, Pow, Pow2, Ones, Doubled, Elem, Val;
    var t0, t1, t2, t3 := new int32[10], new int32[10], new int32[10], new int32[10];
    InvertStart(t0, t1, t2, t3, z, v);
    InvertEnd(out, t0, t1, t2, t3, v);
  }

  /** The first half of fe_pow22523: t0 = z^(2^50 - 1). */
  method Pow22523Start(t0: array<int32>, t1: array<int32>, t2: array<int32>, z: array<int32>, ghost v: int)
    requires t0.Length == t1.Length == t2.Length == z.Length == 10
    requires t0 != t1 && t0 != t2 && t0 != z && t1 != t2 && t1 != z && t2 != z
    requires Factor(Elem(z))
    modifies t0, t1, t2
    ensures Tight(Elem(t0))
    ensures IsPower(Elem(z), v, 1) ==> IsPower(Elem(t0), v, Ones(50))
  {
    LastExponents();
    hide IsPower, Pow, Pow2, Ones, Doubled, Elem, Val;
    SquareRepeatedly(t0, z, 1, v, 1);
    SquareRepeatedly(t1, t0, 2, v, 2);
    MulPowers(t1, z, t1, v, 1, 8);
    MulPowers(t0, t0, t1, v, 2, 9);
    SquareRepeatedly(t0, t0, 1, v, 11);
    MulPowers(t0, t1, t0, v, 9, 22);
    SquareRepeatedly(t1, t0, 5, v, Ones(5));
    JoinOnes(t0, t1, t0, v, 5, 5);
    SquareRepeatedly(t1, t0, 10, v, Ones(10));
    JoinOnes(t1, t1, t0, v, 10, 10);
    SquareRepeatedly(t2, t1, 20, v, Ones(20));
    JoinOnes(t1, t2, t1, v, 20, 20);
    SquareRepeatedly(t1, t1, 10, v, Ones(40));
    JoinOnes(t0, t1, t0, v, 40, 10);
  }

  /** The second half of fe_pow22523. */
  method Pow22523End(out: array<int32>, z: array<int32>, t0: array<int32>, t1: array<int32>, t2: array<int32>,
      ghost v: int)
    requires out.Length == z.Length == t0.Length == t1.Length == t2.Length == 10
    requires t0 != t1 && t0 != t2 && t1 != t2 && z != t0 && z != t1 && z != t2
    requires Factor(Elem(z)) && Factor(Elem(t0))
    modifies out, t0, t1, t2
    ensures Tight(Elem(out))
    ensures old(IsPower(Elem(z), v, 1) && IsPower(Elem(t0), v, Ones(50))) ==> IsPower(Elem(out), v, P_MINUS_5_OVER_8)
  {
    LastExponents();
    hide IsPower, Pow, Pow2, Ones, Doubled, Elem, Val;
    SquareRepeatedly(t1, t0, 50, v, Ones(50));
    JoinOnes(t1, t1, t0, v, 50, 50);
    SquareRepeatedly(t2, t1, 100, v, Ones(100));
    JoinOnes(t1, t2, t1, v, 100, 100);
    SquareRepeatedly(t1, t1, 50, v, Ones(200));
    JoinOnes(t0, t1, t0, v, 200, 50);
    SquareRepeatedly(t0, t0, 2, v, Ones(250));
    MulPowers(out, t0, z, v, Doubled(Ones(250), 2), 1);
  }

  /** out = z^(2^252 - 3); out may be z. */
  method FePow22523(out: array<int32>, z: array<int32>)
    requires out.Length == z.Length == 10 && Factor(Elem(z))
    modifies out
    ensures Tight(Elem(out)) && IsPower(Elem(out), old(Val(Elem(z))), P_MINUS_5_OVER_8)
  {
    ghost var v := Val(Elem(z));
    FirstPower(Elem(z));
    hide IsPower, Pow, Pow2, Ones, Doubled, Elem, Val;
    var t0, t1, t2 := new int32[10], new int32[10], new int32[10];
    Pow22523Start(t0, t1, t2, z, v);
    Pow22523End(out, z, t0, t1, t2, v);
  }

  /** What fe_invert is for: if p is prime, the inverse of every nonzero element. */
  lemma InverseCorrect(z: int, w: int)
    requires IsPrime(P) && z % P != 0 && Cong(w, Pow(z, P - 2))
    ensures Cong(w * z, 1)
  {
    LittleTheorem(z, P);
    hide Pow, IsPrime;
    PowLast(z, P - 2);
    Fermat.ModStep(w, Pow(z, P - 2), z, P);
  }

  lemma PowLast(z: int, n: nat)
    ensures Pow(z, n + 1) == Pow(z, n) * z
  {
  }
}
