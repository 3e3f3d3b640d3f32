/** Elements of the field of integers modulo 2^255 - 19 as ten signed limbs whose
    weights are 2^0, 2^26, 2^51, 2^77, 2^102, 2^128, 2^153, 2^179, 2^204, 2^230. */
module FieldLimbs {

  newtype int32 = x: int | -0x8000_0000 <= x < 0x8000_0000
  newtype int64 = x: int | -0x8000_0000_0000_0000 <= x < 0x8000_0000_0000_0000

  const TWO_255: int := 0x8000000000000000000000000000000000000000000000000000000000000000
  const P: int := 0x7fffffffffffffffffffffffffffffffffffffffffffffffffffffffffffffed

  datatype Limbs = Limbs(h0: int, h1: int, h2: int, h3: int, h4: int, h5: int, h6: int, h7: int, h8: int, h9: int)

  /** The integer a limb vector stands for. */
  function Val(h: Limbs): int {
    h.h0 + 0x4000000 * h.h1 + 0x8000000000000 * h.h2 + 0x20000000000000000000 * h.h3
    + 0x40000000000000000000000000 * h.h4 + 0x100000000000000000000000000000000 * h.h5
    + 0x200000000000000000000000000000000000000 * h.h6 + 0x800000000000000000000000000000000000000000000 * h.h7
    + 0x1000000000000000000000000000000000000000000000000000 * h.h8
    + 0x4000000000000000000000000000000000000000000000000000000000 * h.h9
  }

  predicate Within(x: int, b: int) { -b <= x <= b }

  /** |h| bounded by even, odd, even, odd, etc. */
  predicate Bounded(h: Limbs, even: int, odd: int) {
    && Within(h.h0, even) && Within(h.h1, odd) && Within(h.h2, even) && Within(h.h3, odd) && Within(h.h4, even)
    && Within(h.h5, odd) && Within(h.h6, even) && Within(h.h7, odd) && Within(h.h8, even) && Within(h.h9, odd)
  }

  // The limb bounds the comments of fe.c name, rounded down: 1.01, 1.1 and 1.65
  // times 2^25 or 2^26 for the even limbs and half of that for the odd ones.
  predicate Tight(h: Limbs) { Bounded(h, 33889976, 16944988) }
  predicate Loose(h: Limbs) { Bounded(h, 36909875, 18454937) }
  predicate Summed(h: Limbs) { Bounded(h, 73819750, 36909875) }
  predicate Factor(h: Limbs) { Bounded(h, 110729625, 55364812) }

  ghost predicate Cong(a: int, b: int) {
    a % P == b % P
  }

  lemma CongFrom(a: int, b: int, k: int)
    requires a == b + k * P
    ensures Cong(a, b)
  {
  }

  // ---- carries

  /** Moves c units of limb i + 1 out of limb i; limb 9 hands over to limb 0 with
      weight 19 because 2^255 is congruent to 19. */
  function Move(h: Limbs, i: nat, c: int): Limbs
    requires i < 10
  {
    match i
    case 0 => h.(h0 := h.h0 - c * 0x4000000, h1 := h.h1 + c)
    case 1 => h.(h1 := h.h1 - c * 0x2000000, h2 := h.h2 + c)
    case 2 => h.(h2 := h.h2 - c * 0x4000000, h3 := h.h3 + c)
    case 3 => h.(h3 := h.h3 - c * 0x2000000, h4 := h.h4 + c)
    case 4 => h.(h4 := h.h4 - c * 0x4000000, h5 := h.h5 + c)
    case 5 => h.(h5 := h.h5 - c * 0x2000000, h6 := h.h6 + c)
    case 6 => h.(h6 := h.h6 - c * 0x4000000, h7 := h.h7 + c)
    case 7 => h.(h7 := h.h7 - c * 0x2000000, h8 := h.h8 + c)
    case 8 => h.(h8 := h.h8 - c * 0x4000000, h9 := h.h9 + c)
    case _ => h.(h9 := h.h9 - c * 0x2000000, h0 := h.h0 + c * 19)
  }

  function Limb(h: Limbs, i: nat): int
    requires i < 10
  {
    match i
    case 0 => h.h0 case 1 => h.h1 case 2 => h.h2 case 3 => h.h3 case 4 => h.h4
    case 5 => h.h5 case 6 => h.h6 case 7 => h.h7 case 8 => h.h8 case _ => h.h9
  }

  /** The multiple of 2^26, 2^25 nearest to x, in units. */
  function Round26(x: int): (c: int)
    ensures -0x2000000 <= x - c * 0x4000000 < 0x2000000
  {
    (x + 0x2000000) / 0x4000000
  }

  function Round25(x: int): (c: int)
    ensures -0x1000000 <= x - c * 0x2000000 < 0x1000000
  {
    (x + 0x1000000) / 0x2000000
  }

  // The carries as the code computes them; none of the intermediates overflows.
  function Carry26(x: int64): (c: int64)
    requires Within(x as int, 0x7000000000000000)
    ensures c as int == Round26(x as int)
  {
    (x + 0x2000000) / 0x4000000
  }

  function Carry25(x: int64): (c: int64)
    requires Within(x as int, 0x7000000000000000)
    ensures c as int == Round25(x as int)
  {
    (x + 0x1000000) / 0x2000000
  }

  /** One carry: what does not fit limb i, rounding to nearest, moves on. */
  function CarryStep(h: Limbs, i: nat): Limbs
    requires i < 10
  {
    Move(h, i, if i % 2 == 0 then Round26(Limb(h, i)) else Round25(Limb(h, i)))
  }

  lemma MoveCong(h: Limbs, i: nat, c: int)
    requires i < 10
    ensures Cong(Val(Move(h, i, c)), Val(h))
  {
    if i == 9 {
      CongFrom(Val(Move(h, i, c)), Val(h), -c);
    }
  }

  lemma CarryStepCong(h: Limbs, i: nat)
    requires i < 10
    ensures Cong(Val(CarryStep(h, i)), Val(h))
  {
    MoveCong(h, i, if i % 2 == 0 then Round26(Limb(h, i)) else Round25(Limb(h, i)));
  }

  /** The first four of the twelve carries that end fe_mul, fe_sq and fe_sq2. */
  function SerialStart(a0: Limbs): Limbs {
    var a1 := CarryStep(a0, 0);
    var a2 := CarryStep(a1, 4);
    var a3 := CarryStep(a2, 1);
    var a4 := CarryStep(a3, 5);
    a4
  }

  lemma SerialStartCong(a0: Limbs)
    ensures Cong(Val(SerialStart(a0)), Val(a0))
  {
    var a1 := CarryStep(a0, 0);
    var a2 := CarryStep(a1, 4);
    var a3 := CarryStep(a2, 1);
    var a4 := CarryStep(a3, 5);
    CarryStepCong(a0, 0); CarryStepCong(a1, 4); CarryStepCong(a2, 1); CarryStepCong(a3, 5);
  }

  /** The middle four of them. */
  function SerialMiddle(a0: Limbs): Limbs {
    var a1 := CarryStep(a0, 2);
    var a2 := CarryStep(a1, 6);
    var a3 := CarryStep(a2, 3);
    var a4 := CarryStep(a3, 7);
    a4
  }

  lemma SerialMiddleCong(a0: Limbs)
    ensures Cong(Val(SerialMiddle(a0)), Val(a0))
  {
    var a1 := CarryStep(a0, 2);
    var a2 := CarryStep(a1, 6);
    var a3 := CarryStep(a2, 3);
    var a4 := CarryStep(a3, 7);
    CarryStepCong(a0, 2); CarryStepCong(a1, 6); CarryStepCong(a2, 3); CarryStepCong(a3, 7);
  }

  /** The last four of them. */
  function SerialEnd(a0: Limbs): Limbs {
    var a1 := CarryStep(a0, 4);
    var a2 := CarryStep(a1, 8);
    var a3 := CarryStep(a2, 9);
    var a4 := CarryStep(a3, 0);
    a4
  }

  lemma SerialEndCong(a0: Limbs)
    ensures Cong(Val(SerialEnd(a0)), Val(a0))
  {
    var a1 := CarryStep(a0, 4);
    var a2 := CarryStep(a1, 8);
    var a3 := CarryStep(a2, 9);
    var a4 := CarryStep(a3, 0);
    CarryStepCong(a0, 4); CarryStepCong(a1, 8); CarryStepCong(a2, 9); CarryStepCong(a3, 0);
  }

  /** The first five of the ten carries that end fe_mul121666 and fe_frombytes. */
  function ParallelStart(a0: Limbs): Limbs {
    var a1 := CarryStep(a0, 9);
    var a2 := CarryStep(a1, 1);
    var a3 := CarryStep(a2, 3);
    var a4 := CarryStep(a3, 5);
    var a5 := CarryStep(a4, 7);
    a5
  }

  lemma ParallelStartCong(a0: Limbs)
    ensures Cong(Val(ParallelStart(a0)), Val(a0))
  {
    var a1 := CarryStep(a0, 9);
    var a2 := CarryStep(a1, 1);
    var a3 := CarryStep(a2, 3);
    var a4 := CarryStep(a3, 5);
    var a5 := CarryStep(a4, 7);
    CarryStepCong(a0, 9); CarryStepCong(a1, 1); CarryStepCong(a2, 3); CarryStepCong(a3, 5); CarryStepCong(a4, 7);
  }

  /** The last five of them. */
  function ParallelEnd(a0: Limbs): Limbs {
    var a1 := CarryStep(a0, 0);
    var a2 := CarryStep(a1, 2);
    var a3 := CarryStep(a2, 4);
    var a4 := CarryStep(a3, 6);
    var a5 := CarryStep(a4, 8);
    a5
  }

  lemma ParallelEndCong(a0: Limbs)
    ensures Cong(Val(ParallelEnd(a0)), Val(a0))
  {
    var a1 := CarryStep(a0, 0);
    var a2 := CarryStep(a1, 2);
    var a3 := CarryStep(a2, 4);
    var a4 := CarryStep(a3, 6);
    var a5 := CarryStep(a4, 8);
    CarryStepCong(a0, 0); CarryStepCong(a1, 2); CarryStepCong(a2, 4); CarryStepCong(a3, 6); CarryStepCong(a4, 8);
  }

  function SerialCarries(a: Limbs): Limbs { SerialEnd(SerialMiddle(SerialStart(a))) }

  function ParallelCarries(a: Limbs): Limbs { ParallelEnd(ParallelStart(a)) }

  lemma SerialCarriesCong(a: Limbs)
    ensures Cong(Val(SerialCarries(a)), Val(a))
  {
    hide SerialStart, SerialMiddle, SerialEnd, Val;
    SerialStartCong(a);
    SerialMiddleCong(SerialStart(a));
    SerialEndCong(SerialMiddle(SerialStart(a)));
  }

  lemma ParallelCarriesCong(a: Limbs)
    ensures Cong(Val(ParallelCarries(a)), Val(a))
  {
    hide ParallelStart, ParallelEnd, Val;
    ParallelStartCong(a);
    ParallelEndCong(ParallelStart(a));
  }

  // What the code may hold between the groups of carries.
  predicate Products(h: Limbs) {
    && Within(h.h0, 0x4000000000000000) && Within(h.h1, 0x4000000000000000) && Within(h.h2, 0x4000000000000000)
        && Within(h.h3, 0x4000000000000000) && Within(h.h4, 0x4000000000000000)
    && Within(h.h5, 0x4000000000000000) && Within(h.h6, 0x4000000000000000) && Within(h.h7, 0x4000000000000000)
        && Within(h.h8, 0x4000000000000000) && Within(h.h9, 0x4000000000000000)
  }

  predicate AfterStart(h: Limbs) {
    && Within(h.h0, 0x2000000) && Within(h.h1, 0x1000000) && Within(h.h2, 0x4001000000000000)
        && Within(h.h3, 0x4000000000000000) && Within(h.h4, 0x2000000)
    && Within(h.h5, 0x1000000) && Within(h.h6, 0x4001000000000000) && Within(h.h7, 0x4000000000000000)
        && Within(h.h8, 0x4000000000000000) && Within(h.h9, 0x4000000000000000)
  }

  predicate AfterMiddle(h: Limbs) {
    && Within(h.h0, 0x2000000) && Within(h.h1, 0x1000000) && Within(h.h2, 0x2000000) && Within(h.h3, 0x1000000)
        && Within(h.h4, 0x4000000000)
    && Within(h.h5, 0x1000000) && Within(h.h6, 0x2000000) && Within(h.h7, 0x1000000)
        && Within(h.h8, 0x4001000000000000) && Within(h.h9, 0x4000000000000000)
  }

  predicate Scaled(h: Limbs) {
    && Within(h.h0, 0x83000000000) && Within(h.h1, 0x42000000000) && Within(h.h2, 0x83000000000)
        && Within(h.h3, 0x42000000000) && Within(h.h4, 0x83000000000)
    && Within(h.h5, 0x42000000000) && Within(h.h6, 0x83000000000) && Within(h.h7, 0x42000000000)
        && Within(h.h8, 0x83000000000) && Within(h.h9, 0x42000000000)
  }

  predicate AfterOdd(h: Limbs) {
    && Within(h.h0, 0x84000000000) && Within(h.h1, 0x1000000) && Within(h.h2, 0x84000000000)
        && Within(h.h3, 0x1000000) && Within(h.h4, 0x84000000000)
    && Within(h.h5, 0x1000000) && Within(h.h6, 0x84000000000) && Within(h.h7, 0x1000000)
        && Within(h.h8, 0x84000000000) && Within(h.h9, 0x1000000)
  }

  // ---- the arrays that hold elements

  function Elem(f: array<int32>): Limbs
    requires f.Length == 10
    reads f
  {
    Limbs(f[0] as int, f[1] as int, f[2] as int, f[3] as int, f[4] as int,
          f[5] as int, f[6] as int, f[7] as int, f[8] as int, f[9] as int)
  }

  /** Carries 0, 4, 1, 5 of fe_mul. */
  method CarrySerialStart(c0: int64, c1: int64, c2: int64, c3: int64, c4: int64, c5: int64, c6: int64, c7: int64,
      c8: int64, c9: int64)
    returns (h0: int64, h1: int64, h2: int64, h3: int64, h4: int64, h5: int64, h6: int64, h7: int64, h8: int64,
        h9: int64)
    requires Products(Limbs(c0 as int, c1 as int, c2 as int, c3 as int, c4 as int, c5 as int, c6 as int, c7 as int,
        c8 as int, c9 as int))
    ensures Limbs(h0 as int, h1 as int, h2 as int, h3 as int, h4 as int, h5 as int, h6 as int, h7 as int, h8 as int,
        h9 as int)
      == SerialStart(Limbs(c0 as int, c1 as int, c2 as int, c3 as int, c4 as int, c5 as int, c6 as int, c7 as int,
          c8 as int, c9 as int))
    ensures AfterStart(Limbs(h0 as int, h1 as int, h2 as int, h3 as int, h4 as int, h5 as int, h6 as int, h7 as int,
        h8 as int, h9 as int))
  {
    hide Round26, Round25, Carry26, Carry25;
    h0, h1, h2, h3, h4, h5, h6, h7, h8, h9 := c0, c1, c2, c3, c4, c5, c6, c7, c8, c9;
    ghost var a := Limbs(h0 as int, h1 as int, h2 as int, h3 as int, h4 as int, h5 as int, h6 as int, h7 as int,
        h8 as int, h9 as int);
    var carry := Carry26(h0); h1 := h1 + carry; h0 := h0 - carry * 0x4000000;
    a := CarryStep(a, 0);
        assert a == Limbs(h0 as int, h1 as int, h2 as int, h3 as int, h4 as int, h5 as int, h6 as int, h7 as int,
        h8 as int, h9 as int);
    carry := Carry26(h4); h5 := h5 + carry; h4 := h4 - carry * 0x4000000;
    a := CarryStep(a, 4);
        assert a == Limbs(h0 as int, h1 as int, h2 as int, h3 as int, h4 as int, h5 as int, h6 as int, h7 as int,
        h8 as int, h9 as int);
    carry := Carry25(h1); h2 := h2 + carry; h1 := h1 - carry * 0x2000000;
    a := CarryStep(a, 1);
        assert a == Limbs(h0 as int, h1 as int, h2 as int, h3 as int, h4 as int, h5 as int, h6 as int, h7 as int,
        h8 as int, h9 as int);
    carry := Carry25(h5); h6 := h6 + carry; h5 := h5 - carry * 0x2000000;
    a := CarryStep(a, 5);
        assert a == Limbs(h0 as int, h1 as int, h2 as int, h3 as int, h4 as int, h5 as int, h6 as int, h7 as int,
        h8 as int, h9 as int);
  }

  /** Carries 2, 6, 3, 7 of fe_mul. */
  method CarrySerialMiddle(c0: int64, c1: int64, c2: int64, c3: int64, c4: int64, c5: int64, c6: int64, c7: int64,
      c8: int64, c9: int64)
    returns (h0: int64, h1: int64, h2: int64, h3: int64, h4: int64, h5: int64, h6: int64, h7: int64, h8: int64,
        h9: int64)
    requires AfterStart(Limbs(c0 as int, c1 as int, c2 as int, c3 as int, c4 as int, c5 as int, c6 as int, c7 as int,
        c8 as int, c9 as int))
    ensures Limbs(h0 as int, h1 as int, h2 as int, h3 as int, h4 as int, h5 as int, h6 as int, h7 as int, h8 as int,
        h9 as int)
      == SerialMiddle(Limbs(c0 as int, c1 as int, c2 as int, c3 as int, c4 as int, c5 as int, c6 as int, c7 as int,
          c8 as int, c9 as int))
    ensures AfterMiddle(Limbs(h0 as int, h1 as int, h2 as int, h3 as int, h4 as int, h5 as int, h6 as int, h7 as int,
        h8 as int, h9 as int))
  {
    hide Round26, Round25, Carry26, Carry25;
    h0, h1, h2, h3, h4, h5, h6, h7, h8, h9 := c0, c1, c2, c3, c4, c5, c6, c7, c8, c9;
    ghost var a := Limbs(h0 as int, h1 as int, h2 as int, h3 as int, h4 as int, h5 as int, h6 as int, h7 as int,
        h8 as int, h9 as int);
    var carry := Carry26(h2); h3 := h3 + carry; h2 := h2 - carry * 0x4000000;
    a := CarryStep(a, 2);
        assert a == Limbs(h0 as int, h1 as int, h2 as int, h3 as int, h4 as int, h5 as int, h6 as int, h7 as int,
        h8 as int, h9 as int);
    carry := Carry26(h6); h7 := h7 + carry; h6 := h6 - carry * 0x4000000;
    a := CarryStep(a, 6);
        assert a == Limbs(h0 as int, h1 as int, h2 as int, h3 as int, h4 as int, h5 as int, h6 as int, h7 as int,
        h8 as int, h9 as int);
    carry := Carry25(h3); h4 := h4 + carry; h3 := h3 - carry * 0x2000000;
    a := CarryStep(a, 3);
        assert a == Limbs(h0 as int, h1 as int, h2 as int, h3 as int, h4 as int, h5 as int, h6 as int, h7 as int,
        h8 as int, h9 as int);
    carry := Carry25(h7); h8 := h8 + carry; h7 := h7 - carry * 0x2000000;
    a := CarryStep(a, 7);
        assert a == Limbs(h0 as int, h1 as int, h2 as int, h3 as int, h4 as int, h5 as int, h6 as int, h7 as int,
        h8 as int, h9 as int);
  }

  /** Carries 4, 8, 9, 0 of fe_mul. */
  method CarrySerialEnd(c0: int64, c1: int64, c2: int64, c3: int64, c4: int64, c5: int64, c6: int64, c7: int64,
      c8: int64, c9: int64)
    returns (h0: int64, h1: int64, h2: int64, h3: int64, h4: int64, h5: int64, h6: int64, h7: int64, h8: int64,
        h9: int64)
    requires AfterMiddle(Limbs(c0 as int, c1 as int, c2 as int, c3 as int, c4 as int, c5 as int, c6 as int, c7 as int,
        c8 as int, c9 as int))
    ensures Limbs(h0 as int, h1 as int, h2 as int, h3 as int, h4 as int, h5 as int, h6 as int, h7 as int, h8 as int,
        h9 as int)
      == SerialEnd(Limbs(c0 as int, c1 as int, c2 as int, c3 as int, c4 as int, c5 as int, c6 as int, c7 as int,
          c8 as int, c9 as int))
    ensures Tight(Limbs(h0 as int, h1 as int, h2 as int, h3 as int, h4 as int, h5 as int, h6 as int, h7 as int,
        h8 as int, h9 as int))
  {
    hide Round26, Round25, Carry26, Carry25;
    h0, h1, h2, h3, h4, h5, h6, h7, h8, h9 := c0, c1, c2, c3, c4, c5, c6, c7, c8, c9;
    ghost var a := Limbs(h0 as int, h1 as int, h2 as int, h3 as int, h4 as int, h5 as int, h6 as int, h7 as int,
        h8 as int, h9 as int);
    var carry := Carry26(h4); h5 := h5 + carry; h4 := h4 - carry * 0x4000000;
    a := CarryStep(a, 4);
        assert a == Limbs(h0 as int, h1 as int, h2 as int, h3 as int, h4 as int, h5 as int, h6 as int, h7 as int,
        h8 as int, h9 as int);
    carry := Carry26(h8); h9 := h9 + carry; h8 := h8 - carry * 0x4000000;
    a := CarryStep(a, 8);
        assert a == Limbs(h0 as int, h1 as int, h2 as int, h3 as int, h4 as int, h5 as int, h6 as int, h7 as int,
        h8 as int, h9 as int);
    carry := Carry25(h9); h0 := h0 + carry * 19; h9 := h9 - carry * 0x2000000;
    a := CarryStep(a, 9);
        assert a == Limbs(h0 as int, h1 as int, h2 as int, h3 as int, h4 as int, h5 as int, h6 as int, h7 as int,
        h8 as int, h9 as int);
    carry := Carry26(h0); h1 := h1 + carry; h0 := h0 - carry * 0x4000000;
    a := CarryStep(a, 0);
        assert a == Limbs(h0 as int, h1 as int, h2 as int, h3 as int, h4 as int, h5 as int, h6 as int, h7 as int,
        h8 as int, h9 as int);
  }

  /** Carries 9, 1, 3, 5, 7 of fe_mul121666. */
  method CarryParallelStart(c0: int64, c1: int64, c2: int64, c3: int64, c4: int64, c5: int64, c6: int64, c7: int64,
      c8: int64, c9: int64)
    returns (h0: int64, h1: int64, h2: int64, h3: int64, h4: int64, h5: int64, h6: int64, h7: int64, h8: int64,
        h9: int64)
    requires Scaled(Limbs(c0 as int, c1 as int, c2 as int, c3 as int, c4 as int, c5 as int, c6 as int, c7 as int,
        c8 as int, c9 as int))
    ensures Limbs(h0 as int, h1 as int, h2 as int, h3 as int, h4 as int, h5 as int, h6 as int, h7 as int, h8 as int,
        h9 as int)
      == ParallelStart(Limbs(c0 as int, c1 as int, c2 as int, c3 as int, c4 as int, c5 as int, c6 as int, c7 as int,
          c8 as int, c9 as int))
    ensures AfterOdd(Limbs(h0 as int, h1 as int, h2 as int, h3 as int, h4 as int, h5 as int, h6 as int, h7 as int,
        h8 as int, h9 as int))
  {
    hide Round26, Round25, Carry26, Carry25;
    h0, h1, h2, h3, h4, h5, h6, h7, h8, h9 := c0, c1, c2, c3, c4, c5, c6, c7, c8, c9;
    ghost var a := Limbs(h0 as int, h1 as int, h2 as int, h3 as int, h4 as int, h5 as int, h6 as int, h7 as int,
        h8 as int, h9 as int);
    var carry := Carry25(h9); h0 := h0 + carry * 19; h9 := h9 - carry * 0x2000000;
    a := CarryStep(a, 9);
        assert a == Limbs(h0 as int, h1 as int, h2 as int, h3 as int, h4 as int, h5 as int, h6 as int, h7 as int,
        h8 as int, h9 as int);
    carry := Carry25(h1); h2 := h2 + carry; h1 := h1 - carry * 0x2000000;
    a := CarryStep(a, 1);
        assert a == Limbs(h0 as int, h1 as int, h2 as int, h3 as int, h4 as int, h5 as int, h6 as int, h7 as int,
        h8 as int, h9 as int);
    carry := Carry25(h3); h4 := h4 + carry; h3 := h3 - carry * 0x2000000;
    a := CarryStep(a, 3);
        assert a == Limbs(h0 as int, h1 as int, h2 as int, h3 as int, h4 as int, h5 as int, h6 as int, h7 as int,
        h8 as int, h9 as int);
    carry := Carry25(h5); h6 := h6 + carry; h5 := h5 - carry * 0x2000000;
    a := CarryStep(a, 5);
        assert a == Limbs(h0 as int, h1 as int, h2 as int, h3 as int, h4 as int, h5 as int, h6 as int, h7 as int,
        h8 as int, h9 as int);
    carry := Carry25(h7); h8 := h8 + carry; h7 := h7 - carry * 0x2000000;
    a := CarryStep(a, 7);
        assert a == Limbs(h0 as int, h1 as int, h2 as int, h3 as int, h4 as int, h5 as int, h6 as int, h7 as int,
        h8 as int, h9 as int);
  }

  /** Carries 0, 2, 4, 6, 8 of fe_mul121666. */
  method CarryParallelEnd(c0: int64, c1: int64, c2: int64, c3: int64, c4: int64, c5: int64, c6: int64, c7: int64,
      c8: int64, c9: int64)
    returns (h0: int64, h1: int64, h2: int64, h3: int64, h4: int64, h5: int64, h6: int64, h7: int64, h8: int64,
        h9: int64)
    requires AfterOdd(Limbs(c0 as int, c1 as int, c2 as int, c3 as int, c4 as int, c5 as int, c6 as int, c7 as int,
        c8 as int, c9 as int))
    ensures Limbs(h0 as int, h1 as int, h2 as int, h3 as int, h4 as int, h5 as int, h6 as int, h7 as int, h8 as int,
        h9 as int)
      == ParallelEnd(Limbs(c0 as int, c1 as int, c2 as int, c3 as int, c4 as int, c5 as int, c6 as int, c7 as int,
          c8 as int, c9 as int))
    ensures Loose(Limbs(h0 as int, h1 as int, h2 as int, h3 as int, h4 as int, h5 as int, h6 as int, h7 as int,
        h8 as int, h9 as int))
  {
    hide Round26, Round25, Carry26, Carry25;
    h0, h1, h2, h3, h4, h5, h6, h7, h8, h9 := c0, c1, c2, c3, c4, c5, c6, c7, c8, c9;
    ghost var a := Limbs(h0 as int, h1 as int, h2 as int, h3 as int, h4 as int, h5 as int, h6 as int, h7 as int,
        h8 as int, h9 as int);
    var carry := Carry26(h0); h1 := h1 + carry; h0 := h0 - carry * 0x4000000;
    a := CarryStep(a, 0);
        assert a == Limbs(h0 as int, h1 as int, h2 as int, h3 as int, h4 as int, h5 as int, h6 as int, h7 as int,
        h8 as int, h9 as int);
    carry := Carry26(h2); h3 := h3 + carry; h2 := h2 - carry * 0x4000000;
    a := CarryStep(a, 2);
        assert a == Limbs(h0 as int, h1 as int, h2 as int, h3 as int, h4 as int, h5 as int, h6 as int, h7 as int,
        h8 as int, h9 as int);
    carry := Carry26(h4); h5 := h5 + carry; h4 := h4 - carry * 0x4000000;
    a := CarryStep(a, 4);
        assert a == Limbs(h0 as int, h1 as int, h2 as int, h3 as int, h4 as int, h5 as int, h6 as int, h7 as int,
        h8 as int, h9 as int);
    carry := Carry26(h6); h7 := h7 + carry; h6 := h6 - carry * 0x4000000;
    a := CarryStep(a, 6);
        assert a == Limbs(h0 as int, h1 as int, h2 as int, h3 as int, h4 as int, h5 as int, h6 as int, h7 as int,
        h8 as int, h9 as int);
    carry := Carry26(h8); h9 := h9 + carry; h8 := h8 - carry * 0x4000000;
    a := CarryStep(a, 8);
        assert a == Limbs(h0 as int, h1 as int, h2 as int, h3 as int, h4 as int, h5 as int, h6 as int, h7 as int,
        h8 as int, h9 as int);
  }

  /** The end of fe_mul, fe_sq and fe_sq2: carry and store the limbs in h. */
  method StoreSerial(h: array<int32>,
      c0: int64, c1: int64, c2: int64, c3: int64, c4: int64, c5: int64, c6: int64, c7: int64, c8: int64, c9: int64)
    requires h.Length == 10
    requires Products(Limbs(c0 as int, c1 as int, c2 as int, c3 as int, c4 as int, c5 as int, c6 as int, c7 as int,
        c8 as int, c9 as int))
    modifies h
    ensures Elem(h) == SerialCarries(Limbs(c0 as int, c1 as int, c2 as int, c3 as int, c4 as int, c5 as int,
        c6 as int, c7 as int, c8 as int, c9 as int))
    ensures Tight(Elem(h))
  {
    hide SerialStart, SerialMiddle, SerialEnd;
    var a0, a1, a2, a3, a4, a5, a6, a7, a8, a9 := CarrySerialStart(c0, c1, c2, c3, c4, c5, c6, c7, c8, c9);
    var b0, b1, b2, b3, b4, b5, b6, b7, b8, b9 := CarrySerialMiddle(a0, a1, a2, a3, a4, a5, a6, a7, a8, a9);
    var h0, h1, h2, h3, h4, h5, h6, h7, h8, h9 := CarrySerialEnd(b0, b1, b2, b3, b4, b5, b6, b7, b8, b9);
    h[0] := h0 as int32; h[1] := h1 as int32;
    h[2] := h2 as int32; h[3] := h3 as int32;
    h[4] := h4 as int32; h[5] := h5 as int32;
    h[6] := h6 as int32; h[7] := h7 as int32;
    h[8] := h8 as int32; h[9] := h9 as int32;
  }

  /** The end of fe_mul121666 and fe_frombytes: carry and store the limbs in h. */
  method StoreParallel(h: array<int32>,
      c0: int64, c1: int64, c2: int64, c3: int64, c4: int64, c5: int64, c6: int64, c7: int64, c8: int64, c9: int64)
    requires h.Length == 10
    requires Scaled(Limbs(c0 as int, c1 as int, c2 as int, c3 as int, c4 as int, c5 as int, c6 as int, c7 as int,
        c8 as int, c9 as int))
    modifies h
    ensures Elem(h) == ParallelCarries(Limbs(c0 as int, c1 as int, c2 as int, c3 as int, c4 as int, c5 as int,
        c6 as int, c7 as int, c8 as int, c9 as int))
    ensures Loose(Elem(h))
  {
    hide ParallelStart, ParallelEnd;
    var a0, a1, a2, a3, a4, a5, a6, a7, a8, a9 := CarryParallelStart(c0, c1, c2, c3, c4, c5, c6, c7, c8, c9);
    var h0, h1, h2, h3, h4, h5, h6, h7, h8, h9 := CarryParallelEnd(a0, a1, a2, a3, a4, a5, a6, a7, a8, a9);
    h[0] := h0 as int32; h[1] := h1 as int32;
    h[2] := h2 as int32; h[3] := h3 as int32;
    h[4] := h4 as int32; h[5] := h5 as int32;
    h[6] := h6 as int32; h[7] := h7 as int32;
    h[8] := h8 as int32; h[9] := h9 as int32;
  }

}
