/** Multiplication, squaring and the linear operations of fe.c. */
module FieldMul {
  import opened Bits
  import opened FieldLimbs

  // ---- the product of two limb vectors, modulo p

  function Add(a: Limbs, b: Limbs): Limbs {
    Limbs(a.h0 + b.h0, a.h1 + b.h1, a.h2 + b.h2, a.h3 + b.h3, a.h4 + b.h4,
          a.h5 + b.h5, a.h6 + b.h6, a.h7 + b.h7, a.h8 + b.h8, a.h9 + b.h9)
  }

  function Mul(x: int, y: int): int { x * y }

  function Scale(c: int, a: Limbs): Limbs {
    Limbs(Mul(c, a.h0), Mul(c, a.h1), Mul(c, a.h2), Mul(c, a.h3), Mul(c, a.h4),
          Mul(c, a.h5), Mul(c, a.h6), Mul(c, a.h7), Mul(c, a.h8), Mul(c, a.h9))
  }

  /** m times the weight of limb i: a rotation, in which a limb that wraps around
      counts 19 times and a limb that meets half a bit too much counts twice. */
  function Rotate(i: nat, m: Limbs): Limbs
    requires i < 10
  {
    match i
    case 0 => Limbs(m.h0, m.h1, m.h2, m.h3, m.h4, m.h5, m.h6, m.h7, m.h8, m.h9)
    case 1 => Limbs(38 * m.h9, m.h0, 2 * m.h1, m.h2, 2 * m.h3, m.h4, 2 * m.h5, m.h6, 2 * m.h7, m.h8)
    case 2 => Limbs(19 * m.h8, 19 * m.h9, m.h0, m.h1, m.h2, m.h3, m.h4, m.h5, m.h6, m.h7)
    case 3 => Limbs(38 * m.h7, 19 * m.h8, 38 * m.h9, m.h0, 2 * m.h1, m.h2, 2 * m.h3, m.h4, 2 * m.h5, m.h6)
    case 4 => Limbs(19 * m.h6, 19 * m.h7, 19 * m.h8, 19 * m.h9, m.h0, m.h1, m.h2, m.h3, m.h4, m.h5)
    case 5 => Limbs(38 * m.h5, 19 * m.h6, 38 * m.h7, 19 * m.h8, 38 * m.h9, m.h0, 2 * m.h1, m.h2, 2 * m.h3, m.h4)
    case 6 => Limbs(19 * m.h4, 19 * m.h5, 19 * m.h6, 19 * m.h7, 19 * m.h8, 19 * m.h9, m.h0, m.h1, m.h2, m.h3)
    case 7 => Limbs(38 * m.h3, 19 * m.h4, 38 * m.h5, 19 * m.h6, 38 * m.h7, 19 * m.h8, 38 * m.h9, m.h0, 2 * m.h1, m.h2)
    case 8 => Limbs(19 * m.h2, 19 * m.h3, 19 * m.h4, 19 * m.h5, 19 * m.h6, 19 * m.h7, 19 * m.h8, 19 * m.h9, m.h0, m.h1)
    case _ => Limbs(38 * m.h1, 19 * m.h2, 38 * m.h3, 19 * m.h4, 38 * m.h5, 19 * m.h6, 38 * m.h7, 19 * m.h8, 38 * m.h9,
        m.h0)
  }

  function Weight(i: nat): int
    requires i < 10
  {
    match i
    case 0 => 0x1
    case 1 => 0x4000000
    case 2 => 0x8000000000000
    case 3 => 0x20000000000000000000
    case 4 => 0x40000000000000000000000000
    case 5 => 0x100000000000000000000000000000000
    case 6 => 0x200000000000000000000000000000000000000
    case 7 => 0x800000000000000000000000000000000000000000000
    case 8 => 0x1000000000000000000000000000000000000000000000000000
    case _ => 0x4000000000000000000000000000000000000000000000000000000000
  }

  lemma RotateCong(i: nat, m: Limbs)
    requires i < 10
    ensures Cong(Val(Rotate(i, m)), Weight(i) * Val(m))
  {
    match i
    case 0 =>
    case 1 =>
      CongFrom(Val(Rotate(1, m)), Weight(1) * Val(m),
        -(0x2 * m.h9));
    case 2 =>
      CongFrom(Val(Rotate(2, m)), Weight(2) * Val(m),
        -(0x1 * m.h8 + 0x4000000 * m.h9));
    case 3 =>
      CongFrom(Val(Rotate(3, m)), Weight(3) * Val(m),
        -(0x2 * m.h7 + 0x4000000 * m.h8 + 0x10000000000000 * m.h9));
    case 4 =>
      CongFrom(Val(Rotate(4, m)), Weight(4) * Val(m),
        -(0x1 * m.h6 + 0x4000000 * m.h7 + 0x8000000000000 * m.h8 + 0x20000000000000000000 * m.h9));
    case 5 =>
      CongFrom(Val(Rotate(5, m)), Weight(5) * Val(m),
        -(0x2 * m.h5 + 0x4000000 * m.h6 + 0x10000000000000 * m.h7 + 0x20000000000000000000 * m.h8
            + 0x80000000000000000000000000 * m.h9));
    case 6 =>
      CongFrom(Val(Rotate(6, m)), Weight(6) * Val(m),
        -(0x1 * m.h4 + 0x4000000 * m.h5 + 0x8000000000000 * m.h6 + 0x20000000000000000000 * m.h7
            + 0x40000000000000000000000000 * m.h8 + 0x100000000000000000000000000000000 * m.h9));
    case 7 =>
      CongFrom(Val(Rotate(7, m)), Weight(7) * Val(m),
        -(0x2 * m.h3 + 0x4000000 * m.h4 + 0x10000000000000 * m.h5 + 0x20000000000000000000 * m.h6
            + 0x80000000000000000000000000 * m.h7 + 0x100000000000000000000000000000000 * m.h8
            + 0x400000000000000000000000000000000000000 * m.h9));
    case 8 =>
      CongFrom(Val(Rotate(8, m)), Weight(8) * Val(m),
        -(0x1 * m.h2 + 0x4000000 * m.h3 + 0x8000000000000 * m.h4 + 0x20000000000000000000 * m.h5
            + 0x40000000000000000000000000 * m.h6 + 0x100000000000000000000000000000000 * m.h7
            + 0x200000000000000000000000000000000000000 * m.h8
            + 0x800000000000000000000000000000000000000000000 * m.h9));
    case _ =>
      CongFrom(Val(Rotate(9, m)), Weight(9) * Val(m),
        -(0x2 * m.h1 + 0x4000000 * m.h2 + 0x10000000000000 * m.h3 + 0x20000000000000000000 * m.h4
            + 0x80000000000000000000000000 * m.h5 + 0x100000000000000000000000000000000 * m.h6
            + 0x400000000000000000000000000000000000000 * m.h7
            + 0x800000000000000000000000000000000000000000000 * m.h8
            + 0x2000000000000000000000000000000000000000000000000000 * m.h9));
  }

  /** The schoolbook product: limb i of f times g, moved up by i limbs, summed. */
  function Columns(f: Limbs, g: Limbs): Limbs {
    Add(Add(Add(Add(Rotate(0, Scale(f.h0, g)), Rotate(1, Scale(f.h1, g))),
                Add(Rotate(2, Scale(f.h2, g)), Rotate(3, Scale(f.h3, g)))),
            Add(Add(Rotate(4, Scale(f.h4, g)), Rotate(5, Scale(f.h5, g))),
                Add(Rotate(6, Scale(f.h6, g)), Rotate(7, Scale(f.h7, g))))),
        Add(Rotate(8, Scale(f.h8, g)), Rotate(9, Scale(f.h9, g))))
  }

  lemma ValAdd(a: Limbs, b: Limbs)
    ensures Val(Add(a, b)) == Val(a) + Val(b)
  {
  }

  lemma ValScale(c: int, a: Limbs)
    ensures Val(Scale(c, a)) == c * Val(a)
  {
  }

  lemma CongAdd(a: int, b: int, c: int, d: int)
    requires Cong(a, b) && Cong(c, d)
    ensures Cong(a + c, b + d)
  {
    CongFrom(a + c, b + d, a / P - b / P + c / P - d / P);
  }

  /** One term of the product: limb i of f, weighted, times g. */
  lemma TermCong(i: nat, c: int, g: Limbs)
    requires i < 10
    ensures Cong(Val(Rotate(i, Scale(c, g))), Weight(i) * c * Val(g))
  {
    hide Rotate, Scale, Val, Weight, Cong;
    RotateCong(i, Scale(c, g));
    ValScale(c, g);
    assert Weight(i) * (c * Val(g)) == Weight(i) * c * Val(g);
  }

  lemma SumCong(a: Limbs, b: Limbs, x: int, y: int)
    requires Cong(Val(a), x) && Cong(Val(b), y)
    ensures Cong(Val(Add(a, b)), x + y)
  {
    ValAdd(a, b);
    CongAdd(Val(a), x, Val(b), y);
  }

  lemma ColumnsCong(f: Limbs, g: Limbs)
    ensures Cong(Val(Columns(f, g)), Val(f) * Val(g))
  {
    hide Rotate, Scale, Add, Cong, Val;
    var v := Val(g);
    var r0, r1, r2, r3, r4 := Rotate(0, Scale(f.h0, g)), Rotate(1, Scale(f.h1, g)), Rotate(2, Scale(f.h2, g)),
        Rotate(3, Scale(f.h3, g)), Rotate(4, Scale(f.h4, g));
    var r5, r6, r7, r8, r9 := Rotate(5, Scale(f.h5, g)), Rotate(6, Scale(f.h6, g)), Rotate(7, Scale(f.h7, g)),
        Rotate(8, Scale(f.h8, g)), Rotate(9, Scale(f.h9, g));
    TermCong(0, f.h0, g); var t0 := Weight(0) * f.h0 * v;
    TermCong(1, f.h1, g); var t1 := Weight(1) * f.h1 * v;
    TermCong(2, f.h2, g); var t2 := Weight(2) * f.h2 * v;
    TermCong(3, f.h3, g); var t3 := Weight(3) * f.h3 * v;
    TermCong(4, f.h4, g); var t4 := Weight(4) * f.h4 * v;
    TermCong(5, f.h5, g); var t5 := Weight(5) * f.h5 * v;
    TermCong(6, f.h6, g); var t6 := Weight(6) * f.h6 * v;
    TermCong(7, f.h7, g); var t7 := Weight(7) * f.h7 * v;
    TermCong(8, f.h8, g); var t8 := Weight(8) * f.h8 * v;
    TermCong(9, f.h9, g); var t9 := Weight(9) * f.h9 * v;
    SumCong(r0, r1, t0, t1); SumCong(r2, r3, t2, t3); SumCong(r4, r5, t4, t5); SumCong(r6, r7, t6, t7);
        SumCong(r8, r9, t8, t9);
    var s01, s23, s45, s67, s89 := Add(r0, r1), Add(r2, r3), Add(r4, r5), Add(r6, r7), Add(r8, r9);
    SumCong(s01, s23, t0 + t1, t2 + t3); SumCong(s45, s67, t4 + t5, t6 + t7);
    SumCong(Add(s01, s23), Add(s45, s67), t0 + t1 + (t2 + t3), t4 + t5 + (t6 + t7));
    SumCong(Add(Add(s01, s23), Add(s45, s67)), s89, t0 + t1 + (t2 + t3) + (t4 + t5 + (t6 + t7)), t8 + t9);
    Distribute(f, v);
  }

  lemma Distribute(f: Limbs, v: int)
    ensures Val(f) * v
      == Weight(0) * f.h0 * v + Weight(1) * f.h1 * v + (Weight(2) * f.h2 * v + Weight(3) * f.h3 * v)
       + (Weight(4) * f.h4 * v + Weight(5) * f.h5 * v + (Weight(6) * f.h6 * v + Weight(7) * f.h7 * v))
       + (Weight(8) * f.h8 * v + Weight(9) * f.h9 * v)
  {
  }

  // ---- the operations

  /** A product of two 32-bit values as a 64-bit one. */
  function Prod(x: int32, y: int32): (r: int64)
    requires Within(x as int, 0x10000000)
    ensures r as int == Mul(x as int, y as int) && Within(r as int, 0x800000000000000)
    ensures Within(x as int, 0x8000000) || Within(y as int, 0x40000000) ==> Within(r as int, 0x400000000000000)
  {
    ProdBound(x as int, y as int, 0x10000000, 0x80000000);
    if Within(x as int, 0x8000000) then ProdBound(x as int, y as int, 0x8000000, 0x80000000); x as int64 * y as int64
    else if Within(y as int, 0x40000000) then ProdBound(x as int, y as int, 0x10000000, 0x40000000);
        x as int64 * y as int64
    else x as int64 * y as int64
  }

  lemma MulLe(a: int, b: int, c: int, d: int)
    requires 0 <= a <= b && 0 <= c <= d
    ensures 0 <= a * c <= b * d
  {
    assert a * c <= b * c <= b * d;
  }

  lemma ProdBound(x: int, y: int, a: int, b: int)
    requires Within(x, a) && Within(y, b)
    ensures Within(x * y, a * b)
  {
    var u, v := if x < 0 then -x else x, if y < 0 then -y else y;
    MulLe(u, a, v, b);
    assert x * y == u * v || x * y == -(u * v);
  }

  /** A column: ten products added up from the left. */
  function Sum(a0: int64, a1: int64, a2: int64, a3: int64, a4: int64, a5: int64, a6: int64, a7: int64, a8: int64,
      a9: int64): (r: int64)
    requires Within(a0 as int, 0x400000000000000) && Within(a1 as int, 0x400000000000000)
        && Within(a2 as int, 0x400000000000000)
    requires Within(a3 as int, 0x400000000000000) && Within(a4 as int, 0x400000000000000)
        && Within(a5 as int, 0x400000000000000)
    requires Within(a6 as int, 0x400000000000000) && Within(a7 as int, 0x400000000000000)
        && Within(a8 as int, 0x400000000000000)
    requires Within(a9 as int, 0x400000000000000)
    ensures r as int == a0 as int + a1 as int + a2 as int + a3 as int + a4 as int
                        + a5 as int + a6 as int + a7 as int + a8 as int + a9 as int
    ensures Within(r as int, 0x4000000000000000)
  {
    a0 + a1 + a2 + a3 + a4 + a5 + a6 + a7 + a8 + a9
  }

  /** A column of a square: at most six products, at most two of them wide. */
  function SquareSum(a0: int64, a1: int64, a2: int64, a3: int64, a4: int64, a5: int64): (r: int64)
    requires Within(a0 as int, 0x400000000000000) && Within(a1 as int, 0x400000000000000)
        && Within(a2 as int, 0x800000000000000)
    requires Within(a3 as int, 0x400000000000000) && Within(a4 as int, 0x800000000000000)
        && Within(a5 as int, 0x400000000000000)
    ensures r as int == a0 as int + a1 as int + a2 as int + a3 as int + a4 as int + a5 as int
    ensures Within(r as int, 0x2000000000000000)
  {
    a0 + a1 + a2 + a3 + a4 + a5
  }

  /** The precomputed multiples 2 x and 19 y only scale the product of x and y. */
  lemma Scaled(x: int, y: int)
    ensures Mul(2 * x, y) == 2 * Mul(x, y) && Mul(x, 19 * y) == 19 * Mul(x, y) && Mul(2 * x, 19 * y) == 38 * Mul(x, y)
  {
  }

  /** The same for squares, where twice a product stands for it and its mirror. */
  lemma ScaledSquare(x: int, y: int)
    ensures Mul(x, y) == Mul(y, x)
    ensures Mul(2 * x, y) == 2 * Mul(x, y) && Mul(2 * x, 2 * y) == 4 * Mul(x, y) && Mul(x, 19 * y) == 19 * Mul(x, y)
    ensures Mul(x, 38 * y) == 38 * Mul(x, y) && Mul(2 * x, 19 * y) == 38 * Mul(x, y)
        && Mul(2 * x, 38 * y) == 76 * Mul(x, y)
  {
  }

  /** The ten column sums of the schoolbook product. */
  method Multiply(f: array<int32>, g: array<int32>)
    returns (h0: int64, h1: int64, h2: int64, h3: int64, h4: int64, h5: int64, h6: int64, h7: int64, h8: int64,
        h9: int64)
    requires f.Length == g.Length == 10 && Factor(Elem(f)) && Factor(Elem(g))
    ensures Limbs(h0 as int, h1 as int, h2 as int, h3 as int, h4 as int, h5 as int, h6 as int, h7 as int, h8 as int,
        h9 as int)
      == Columns(Elem(f), Elem(g))
    ensures Products(Limbs(h0 as int, h1 as int, h2 as int, h3 as int, h4 as int, h5 as int, h6 as int, h7 as int,
        h8 as int, h9 as int))
  {
    hide Mul, Prod, Sum;
    var f0, f1, f2, f3, f4, f5, f6, f7, f8, f9 := f[0], f[1], f[2], f[3], f[4], f[5], f[6], f[7], f[8], f[9];
    var g0, g1, g2, g3, g4, g5, g6, g7, g8, g9 := g[0], g[1], g[2], g[3], g[4], g[5], g[6], g[7], g[8], g[9];
    var g1_19, g2_19, g3_19, g4_19, g5_19, g6_19, g7_19, g8_19, g9_19 := 19 * g1, 19 * g2, 19 * g3, 19 * g4, 19 * g5,
        19 * g6, 19 * g7, 19 * g8, 19 * g9;
    var f1_2, f3_2, f5_2, f7_2, f9_2 := 2 * f1, 2 * f3, 2 * f5, 2 * f7, 2 * f9;
    Scaled(f1 as int, g1 as int); Scaled(f1 as int, g3 as int); Scaled(f1 as int, g5 as int);
        Scaled(f1 as int, g7 as int); Scaled(f1 as int, g9 as int);
    Scaled(f2 as int, g8 as int); Scaled(f2 as int, g9 as int);
    Scaled(f3 as int, g1 as int); Scaled(f3 as int, g3 as int); Scaled(f3 as int, g5 as int);
        Scaled(f3 as int, g7 as int); Scaled(f3 as int, g8 as int); Scaled(f3 as int, g9 as int);
    Scaled(f4 as int, g6 as int); Scaled(f4 as int, g7 as int); Scaled(f4 as int, g8 as int);
        Scaled(f4 as int, g9 as int);
    Scaled(f5 as int, g1 as int); Scaled(f5 as int, g3 as int); Scaled(f5 as int, g5 as int);
        Scaled(f5 as int, g6 as int); Scaled(f5 as int, g7 as int); Scaled(f5 as int, g8 as int);
        Scaled(f5 as int, g9 as int);
    Scaled(f6 as int, g4 as int); Scaled(f6 as int, g5 as int); Scaled(f6 as int, g6 as int);
        Scaled(f6 as int, g7 as int); Scaled(f6 as int, g8 as int); Scaled(f6 as int, g9 as int);
    Scaled(f7 as int, g1 as int); Scaled(f7 as int, g3 as int); Scaled(f7 as int, g4 as int);
        Scaled(f7 as int, g5 as int); Scaled(f7 as int, g6 as int); Scaled(f7 as int, g7 as int);
        Scaled(f7 as int, g8 as int); Scaled(f7 as int, g9 as int);
    Scaled(f8 as int, g2 as int); Scaled(f8 as int, g3 as int); Scaled(f8 as int, g4 as int);
        Scaled(f8 as int, g5 as int); Scaled(f8 as int, g6 as int); Scaled(f8 as int, g7 as int);
        Scaled(f8 as int, g8 as int); Scaled(f8 as int, g9 as int);
    Scaled(f9 as int, g1 as int); Scaled(f9 as int, g2 as int); Scaled(f9 as int, g3 as int);
        Scaled(f9 as int, g4 as int); Scaled(f9 as int, g5 as int); Scaled(f9 as int, g6 as int);
        Scaled(f9 as int, g7 as int); Scaled(f9 as int, g8 as int); Scaled(f9 as int, g9 as int);
    h0 := Sum(Prod(f0, g0), Prod(f1_2, g9_19), Prod(f2, g8_19), Prod(f3_2, g7_19), Prod(f4, g6_19),
              Prod(f5_2, g5_19), Prod(f6, g4_19), Prod(f7_2, g3_19), Prod(f8, g2_19), Prod(f9_2, g1_19));
    h1 := Sum(Prod(f0, g1), Prod(f1, g0), Prod(f2, g9_19), Prod(f3, g8_19), Prod(f4, g7_19),
              Prod(f5, g6_19), Prod(f6, g5_19), Prod(f7, g4_19), Prod(f8, g3_19), Prod(f9, g2_19));
    h2 := Sum(Prod(f0, g2), Prod(f1_2, g1), Prod(f2, g0), Prod(f3_2, g9_19), Prod(f4, g8_19),
              Prod(f5_2, g7_19), Prod(f6, g6_19), Prod(f7_2, g5_19), Prod(f8, g4_19), Prod(f9_2, g3_19));
    h3 := Sum(Prod(f0, g3), Prod(f1, g2), Prod(f2, g1), Prod(f3, g0), Prod(f4, g9_19),
              Prod(f5, g8_19), Prod(f6, g7_19), Prod(f7, g6_19), Prod(f8, g5_19), Prod(f9, g4_19));
    h4 := Sum(Prod(f0, g4), Prod(f1_2, g3), Prod(f2, g2), Prod(f3_2, g1), Prod(f4, g0),
              Prod(f5_2, g9_19), Prod(f6, g8_19), Prod(f7_2, g7_19), Prod(f8, g6_19), Prod(f9_2, g5_19));
    h5 := Sum(Prod(f0, g5), Prod(f1, g4), Prod(f2, g3), Prod(f3, g2), Prod(f4, g1),
              Prod(f5, g0), Prod(f6, g9_19), Prod(f7, g8_19), Prod(f8, g7_19), Prod(f9, g6_19));
    h6 := Sum(Prod(f0, g6), Prod(f1_2, g5), Prod(f2, g4), Prod(f3_2, g3), Prod(f4, g2),
              Prod(f5_2, g1), Prod(f6, g0), Prod(f7_2, g9_19), Prod(f8, g8_19), Prod(f9_2, g7_19));
    h7 := Sum(Prod(f0, g7), Prod(f1, g6), Prod(f2, g5), Prod(f3, g4), Prod(f4, g3),
              Prod(f5, g2), Prod(f6, g1), Prod(f7, g0), Prod(f8, g9_19), Prod(f9, g8_19));
    h8 := Sum(Prod(f0, g8), Prod(f1_2, g7), Prod(f2, g6), Prod(f3_2, g5), Prod(f4, g4),
              Prod(f5_2, g3), Prod(f6, g2), Prod(f7_2, g1), Prod(f8, g0), Prod(f9_2, g9_19));
    h9 := Sum(Prod(f0, g9), Prod(f1, g8), Prod(f2, g7), Prod(f3, g6), Prod(f4, g5),
              Prod(f5, g4), Prod(f6, g3), Prod(f7, g2), Prod(f8, g1), Prod(f9, g0));
  }

  /** The ten column sums of a square, each mixed product computed once. */
  method Square(f: array<int32>)
    returns (h0: int64, h1: int64, h2: int64, h3: int64, h4: int64, h5: int64, h6: int64, h7: int64, h8: int64,
        h9: int64)
    requires f.Length == 10 && Factor(Elem(f))
    ensures Limbs(h0 as int, h1 as int, h2 as int, h3 as int, h4 as int, h5 as int, h6 as int, h7 as int, h8 as int,
        h9 as int)
      == Columns(Elem(f), Elem(f))
    ensures Bounded(Limbs(h0 as int, h1 as int, h2 as int, h3 as int, h4 as int, h5 as int, h6 as int, h7 as int,
        h8 as int, h9 as int), 0x2000000000000000, 0x2000000000000000)
  {
    hide Mul, Prod, SquareSum;
    var f0, f1, f2, f3, f4, f5, f6, f7, f8, f9 := f[0], f[1], f[2], f[3], f[4], f[5], f[6], f[7], f[8], f[9];
    var f0_2, f1_2, f2_2, f3_2, f4_2, f5_2, f6_2, f7_2, f5_38, f6_19, f7_38, f8_19, f9_38 := 2 * f0, 2 * f1, 2 * f2,
        2 * f3, 2 * f4, 2 * f5, 2 * f6, 2 * f7, 38 * f5, 19 * f6, 38 * f7, 19 * f8, 38 * f9;
    ScaledSquare(f0 as int, f0 as int); ScaledSquare(f0 as int, f1 as int); ScaledSquare(f0 as int, f2 as int);
        ScaledSquare(f0 as int, f3 as int); ScaledSquare(f0 as int, f4 as int); ScaledSquare(f0 as int, f5 as int);
        ScaledSquare(f0 as int, f6 as int); ScaledSquare(f0 as int, f7 as int); ScaledSquare(f0 as int, f8 as int);
        ScaledSquare(f0 as int, f9 as int);
    ScaledSquare(f1 as int, f1 as int); ScaledSquare(f1 as int, f2 as int); ScaledSquare(f1 as int, f3 as int);
        ScaledSquare(f1 as int, f4 as int); ScaledSquare(f1 as int, f5 as int); ScaledSquare(f1 as int, f6 as int);
        ScaledSquare(f1 as int, f7 as int); ScaledSquare(f1 as int, f8 as int); ScaledSquare(f1 as int, f9 as int);
    ScaledSquare(f2 as int, f2 as int); ScaledSquare(f2 as int, f3 as int); ScaledSquare(f2 as int, f4 as int);
        ScaledSquare(f2 as int, f5 as int); ScaledSquare(f2 as int, f6 as int); ScaledSquare(f2 as int, f7 as int);
        ScaledSquare(f2 as int, f8 as int); ScaledSquare(f2 as int, f9 as int);
    ScaledSquare(f3 as int, f3 as int); ScaledSquare(f3 as int, f4 as int); ScaledSquare(f3 as int, f5 as int);
        ScaledSquare(f3 as int, f6 as int); ScaledSquare(f3 as int, f7 as int); ScaledSquare(f3 as int, f8 as int);
        ScaledSquare(f3 as int, f9 as int);
    ScaledSquare(f4 as int, f4 as int); ScaledSquare(f4 as int, f5 as int); ScaledSquare(f4 as int, f6 as int);
        ScaledSquare(f4 as int, f7 as int); ScaledSquare(f4 as int, f8 as int); ScaledSquare(f4 as int, f9 as int);
    ScaledSquare(f5 as int, f5 as int); ScaledSquare(f5 as int, f6 as int); ScaledSquare(f5 as int, f7 as int);
        ScaledSquare(f5 as int, f8 as int); ScaledSquare(f5 as int, f9 as int);
    ScaledSquare(f6 as int, f6 as int); ScaledSquare(f6 as int, f7 as int); ScaledSquare(f6 as int, f8 as int);
        ScaledSquare(f6 as int, f9 as int);
    ScaledSquare(f7 as int, f7 as int); ScaledSquare(f7 as int, f8 as int); ScaledSquare(f7 as int, f9 as int);
    ScaledSquare(f8 as int, f8 as int); ScaledSquare(f8 as int, f9 as int);
    ScaledSquare(f9 as int, f9 as int);
    h0 := SquareSum(Prod(f0, f0), Prod(f1_2, f9_38), Prod(f2_2, f8_19), Prod(f3_2, f7_38), Prod(f4_2, f6_19),
        Prod(f5, f5_38));
    h1 := SquareSum(Prod(f0_2, f1), Prod(f2, f9_38), Prod(f3_2, f8_19), Prod(f4, f7_38), Prod(f5_2, f6_19), 0);
    h2 := SquareSum(Prod(f0_2, f2), Prod(f1_2, f1), Prod(f3_2, f9_38), Prod(f5_2, f7_38), Prod(f4_2, f8_19),
        Prod(f6, f6_19));
    h3 := SquareSum(Prod(f0_2, f3), Prod(f1_2, f2), Prod(f4, f9_38), Prod(f5_2, f8_19), Prod(f6, f7_38), 0);
    h4 := SquareSum(Prod(f0_2, f4), Prod(f1_2, f3_2), Prod(f2, f2), Prod(f5_2, f9_38), Prod(f6_2, f8_19),
        Prod(f7, f7_38));
    h5 := SquareSum(Prod(f0_2, f5), Prod(f1_2, f4), Prod(f2_2, f3), Prod(f6, f9_38), Prod(f7_2, f8_19), 0);
    h6 := SquareSum(Prod(f0_2, f6), Prod(f1_2, f5_2), Prod(f2_2, f4), Prod(f3_2, f3), Prod(f7_2, f9_38),
        Prod(f8, f8_19));
    h7 := SquareSum(Prod(f0_2, f7), Prod(f1_2, f6), Prod(f2_2, f5), Prod(f3_2, f4), Prod(f8, f9_38), 0);
    h8 := SquareSum(Prod(f0_2, f8), Prod(f1_2, f7_2), Prod(f2_2, f6), Prod(f3_2, f5_2), Prod(f4, f4), Prod(f9, f9_38));
    h9 := SquareSum(Prod(f0_2, f9), Prod(f1_2, f8), Prod(f2_2, f7), Prod(f3_2, f6), Prod(f4_2, f5), 0);
  }

  method Store(h: array<int32>, h0: int32, h1: int32, h2: int32, h3: int32, h4: int32, h5: int32, h6: int32,
      h7: int32, h8: int32, h9: int32)
    requires h.Length == 10
    modifies h
    ensures Elem(h) == Limbs(h0 as int, h1 as int, h2 as int, h3 as int, h4 as int, h5 as int, h6 as int, h7 as int,
        h8 as int, h9 as int)
  {
    h[0], h[1], h[2], h[3], h[4] := h0, h1, h2, h3, h4;
    h[5], h[6], h[7], h[8], h[9] := h5, h6, h7, h8, h9;
  }

  method Fe0(h: array<int32>)
    requires h.Length == 10
    modifies h
    ensures Elem(h) == Limbs(0, 0, 0, 0, 0, 0, 0, 0, 0, 0)
  {
    Store(h, 0, 0, 0, 0, 0, 0, 0, 0, 0, 0);
  }

  method Fe1(h: array<int32>)
    requires h.Length == 10
    modifies h
    ensures Elem(h) == Limbs(1, 0, 0, 0, 0, 0, 0, 0, 0, 0)
  {
    Store(h, 1, 0, 0, 0, 0, 0, 0, 0, 0, 0);
  }

  method FeCopy(h: array<int32>, f: array<int32>)
    requires h.Length == f.Length == 10
    modifies h
    ensures Elem(h) == old(Elem(f))
  {
    Store(h, f[0], f[1], f[2], f[3], f[4], f[5], f[6], f[7], f[8], f[9]);
  }

  function Subtract(a: Limbs, b: Limbs): Limbs {
    Add(a, Scale(-1, b))
  }

  /** x is kept where mask is 0 and replaced by y where it is all ones. */
  lemma Masked(x: int, y: int)
    ensures Xor(x, And(Xor(x, y), 0)) == x && Xor(x, And(Xor(x, y), -1)) == y
    ensures Xor(y, And(Xor(x, y), 0)) == y && Xor(y, And(Xor(x, y), -1)) == x
  {
    AndMasks(Xor(x, y));
    XorZero(x);
    XorZero(y);
    XorCancel(x, y);
  }

  /** Swaps x and y when b is 1, keeps them when b is 0, as the code does for each limb. */
  function SwapLimbs(x: int32, y: int32, b: int): (r: (int32, int32))
    requires b == 0 || b == 1
    ensures r == if b == 1 then (y, x) else (x, y)
  {
    Masked(x as int, y as int);
    var m := And(Xor(x as int, y as int), -b);
    (Xor(x as int, m) as int32, Xor(y as int, m) as int32)
  }

  /** Replaces (f, g) by (g, f) if b is 1; f may be g. */
  method FeCswap(f: array<int32>, g: array<int32>, b: int)
    requires f.Length == g.Length == 10 && (b == 0 || b == 1)
    modifies f, g
    ensures Elem(f) == old(if b == 1 then Elem(g) else Elem(f))
    ensures Elem(g) == old(if b == 1 then Elem(f) else Elem(g))
  {
    hide SwapLimbs;
    var s0 := SwapLimbs(f[0], g[0], b);
    var s1 := SwapLimbs(f[1], g[1], b);
    var s2 := SwapLimbs(f[2], g[2], b);
    var s3 := SwapLimbs(f[3], g[3], b);
    var s4 := SwapLimbs(f[4], g[4], b);
    var s5 := SwapLimbs(f[5], g[5], b);
    var s6 := SwapLimbs(f[6], g[6], b);
    var s7 := SwapLimbs(f[7], g[7], b);
    var s8 := SwapLimbs(f[8], g[8], b);
    var s9 := SwapLimbs(f[9], g[9], b);
    Store(f, s0.0, s1.0, s2.0, s3.0, s4.0, s5.0, s6.0, s7.0, s8.0, s9.0);
    Store(g, s0.1, s1.1, s2.1, s3.1, s4.1, s5.1, s6.1, s7.1, s8.1, s9.1);
  }

  /** h = f + g; h may be f or g. */
  method FeAdd(h: array<int32>, f: array<int32>, g: array<int32>)
    requires h.Length == f.Length == g.Length == 10 && Loose(Elem(f)) && Loose(Elem(g))
    modifies h
    ensures Elem(h) == Add(old(Elem(f)), old(Elem(g)))
    ensures Summed(Elem(h)) && Val(Elem(h)) == Val(old(Elem(f))) + Val(old(Elem(g)))
  {
    var f0, f1, f2, f3, f4, f5, f6, f7, f8, f9 := f[0], f[1], f[2], f[3], f[4], f[5], f[6], f[7], f[8], f[9];
    var g0, g1, g2, g3, g4, g5, g6, g7, g8, g9 := g[0], g[1], g[2], g[3], g[4], g[5], g[6], g[7], g[8], g[9];
    var h0, h1, h2, h3, h4, h5, h6, h7, h8, h9 := f0 + g0, f1 + g1, f2 + g2, f3 + g3, f4 + g4, f5 + g5, f6 + g6,
        f7 + g7, f8 + g8, f9 + g9;
    Store(h, h0, h1, h2, h3, h4, h5, h6, h7, h8, h9);
  }

  /** h = f - g; h may be f or g. */
  method FeSub(h: array<int32>, f: array<int32>, g: array<int32>)
    requires h.Length == f.Length == g.Length == 10 && Loose(Elem(f)) && Loose(Elem(g))
    modifies h
    ensures Elem(h) == Subtract(old(Elem(f)), old(Elem(g)))
    ensures Summed(Elem(h)) && Val(Elem(h)) == Val(old(Elem(f))) - Val(old(Elem(g)))
  {
    var f0, f1, f2, f3, f4, f5, f6, f7, f8, f9 := f[0], f[1], f[2], f[3], f[4], f[5], f[6], f[7], f[8], f[9];
    var g0, g1, g2, g3, g4, g5, g6, g7, g8, g9 := g[0], g[1], g[2], g[3], g[4], g[5], g[6], g[7], g[8], g[9];
    var h0, h1, h2, h3, h4, h5, h6, h7, h8, h9 := f0 - g0, f1 - g1, f2 - g2, f3 - g3, f4 - g4, f5 - g5, f6 - g6,
        f7 - g7, f8 - g8, f9 - g9;
    Store(h, h0, h1, h2, h3, h4, h5, h6, h7, h8, h9);
  }

  /** h = f g; h may be f or g. */
  method FeMul(h: array<int32>, f: array<int32>, g: array<int32>)
    requires h.Length == f.Length == g.Length == 10 && Factor(Elem(f)) && Factor(Elem(g))
    modifies h
    ensures Elem(h) == SerialCarries(Columns(old(Elem(f)), old(Elem(g))))
    ensures Tight(Elem(h)) && Cong(Val(Elem(h)), Val(old(Elem(f))) * Val(old(Elem(g))))
  {
    hide SerialCarries, Columns, Val;
    var h0, h1, h2, h3, h4, h5, h6, h7, h8, h9 := Multiply(f, g);
    StoreSerial(h, h0, h1, h2, h3, h4, h5, h6, h7, h8, h9);
    ColumnsCong(old(Elem(f)), old(Elem(g)));
    SerialCarriesCong(Columns(old(Elem(f)), old(Elem(g))));
  }

  /** h = f f, limb for limb what FeMul(h, f, f) stores; h may be f. */
  method FeSq(h: array<int32>, f: array<int32>)
    requires h.Length == f.Length == 10 && Factor(Elem(f))
    modifies h
    ensures Elem(h) == SerialCarries(Columns(old(Elem(f)), old(Elem(f))))
    ensures Tight(Elem(h)) && Cong(Val(Elem(h)), Val(old(Elem(f))) * Val(old(Elem(f))))
  {
    hide SerialCarries, Columns, Val;
    var h0, h1, h2, h3, h4, h5, h6, h7, h8, h9 := Square(f);
    StoreSerial(h, h0, h1, h2, h3, h4, h5, h6, h7, h8, h9);
    ColumnsCong(old(Elem(f)), old(Elem(f)));
    SerialCarriesCong(Columns(old(Elem(f)), old(Elem(f))));
  }

  lemma DoubleCong(c: Limbs, v: int)
    requires Cong(Val(c), v)
    ensures Cong(Val(Add(c, c)), 2 * v)
  {
    SumCong(c, c, v, v);
  }

  /** h = 2 f f; h may be f. */
  method FeSq2(h: array<int32>, f: array<int32>)
    requires h.Length == f.Length == 10 && Factor(Elem(f))
    modifies h
    ensures Tight(Elem(h)) && Cong(Val(Elem(h)), 2 * (Val(old(Elem(f))) * Val(old(Elem(f)))))
  {
    hide SerialCarries, Columns, Val, Cong;
    var h0, h1, h2, h3, h4, h5, h6, h7, h8, h9 := Square(f);
    ghost var c := Limbs(h0 as int, h1 as int, h2 as int, h3 as int, h4 as int, h5 as int, h6 as int, h7 as int,
        h8 as int, h9 as int);
    h0, h1, h2, h3, h4, h5, h6, h7, h8, h9 := h0 + h0, h1 + h1, h2 + h2, h3 + h3, h4 + h4, h5 + h5, h6 + h6, h7 + h7,
        h8 + h8, h9 + h9;
    assert Limbs(h0 as int, h1 as int, h2 as int, h3 as int, h4 as int, h5 as int, h6 as int, h7 as int, h8 as int,
        h9 as int) == Add(c, c);
    StoreSerial(h, h0, h1, h2, h3, h4, h5, h6, h7, h8, h9);
    ColumnsCong(old(Elem(f)), old(Elem(f)));
    DoubleCong(c, Val(old(Elem(f))) * Val(old(Elem(f))));
    SerialCarriesCong(Add(c, c));
    CongTrans(Val(Elem(h)), Val(Add(c, c)), 2 * (Val(old(Elem(f))) * Val(old(Elem(f)))));
  }

  lemma CongTrans(a: int, b: int, c: int)
    requires Cong(a, b) && Cong(b, c)
    ensures Cong(a, c)
  {
  }

  /** h = 121666 f; h may be f. */
  method FeMul121666(h: array<int32>, f: array<int32>)
    requires h.Length == f.Length == 10 && Summed(Elem(f))
    modifies h
    ensures Loose(Elem(h)) && Cong(Val(Elem(h)), 121666 * Val(old(Elem(f))))
  {
    hide ParallelCarries, Cong;
    ghost var c := Scale(121666, Elem(f));
    StoreParallel(h, f[0] as int64 * 121666, f[1] as int64 * 121666, f[2] as int64 * 121666, f[3] as int64 * 121666,
        f[4] as int64 * 121666, f[5] as int64 * 121666, f[6] as int64 * 121666, f[7] as int64 * 121666,
        f[8] as int64 * 121666, f[9] as int64 * 121666);
    ParallelCarriesCong(c);
    ValScale(121666, old(Elem(f)));
  }
}
