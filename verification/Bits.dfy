/** The bitwise operators of C on two's complement integers, as functions on
    unbounded integers: a negative number has infinitely many leading ones. */
module Bits {
  import opened Arith

  function Abs(x: int): nat {
    if x < 0 then -x else x
  }

  predicate SignOnly(x: int) { x == 0 || x == -1 }

  function And(a: int, b: int): int
    decreases Abs(a) + Abs(b)
  {
    if SignOnly(a) && SignOnly(b) then (if a == -1 && b == -1 then -1 else 0)
    else 2 * And(a / 2, b / 2) + if a % 2 == 1 && b % 2 == 1 then 1 else 0
  }

  function Or(a: int, b: int): int
    decreases Abs(a) + Abs(b)
  {
    if SignOnly(a) && SignOnly(b) then (if a == -1 || b == -1 then -1 else 0)
    else 2 * Or(a / 2, b / 2) + if a % 2 == 1 || b % 2 == 1 then 1 else 0
  }

  function Xor(a: int, b: int): int
    decreases Abs(a) + Abs(b)
  {
    if SignOnly(a) && SignOnly(b) then (if a != b then -1 else 0)
    else 2 * Xor(a / 2, b / 2) + if a % 2 != b % 2 then 1 else 0
  }

  function Pow2(k: nat): (p: int)
    ensures p > 0
  {
    if k == 0 then 1 else 2 * Pow2(k - 1)
  }

  lemma {:induction false} Pow2Add(a: nat, b: nat)
    ensures Pow2(a + b) == Pow2(a) * Pow2(b)
  {
    if a > 0 {
      Pow2Add(a - 1, b);
    }
  }

  // ---- conditional swap

  lemma {:induction false} AndMasks(a: int)
    ensures And(a, 0) == 0 && And(a, -1) == a
    decreases Abs(a)
  {
    if !SignOnly(a) {
      AndMasks(a / 2);
    }
  }

  lemma {:induction false} XorZero(a: int)
    ensures Xor(a, 0) == a
    decreases Abs(a)
  {
    if !SignOnly(a) {
      XorZero(a / 2);
    }
  }

  lemma {:induction false} XorCancel(a: int, b: int)
    ensures Xor(a, Xor(a, b)) == b && Xor(b, Xor(a, b)) == a
    decreases Abs(a) + Abs(b)
  {
    if !(SignOnly(a) && SignOnly(b)) {
      XorCancel(a / 2, b / 2);
      var x := Xor(a, b);
      assert x / 2 == Xor(a / 2, b / 2) && x % 2 == (if a % 2 != b % 2 then 1 else 0);
      XorStep(a, x);
      XorStep(b, x);
    }
  }

  lemma XorStep(a: int, b: int)
    ensures Xor(a, b) == 2 * Xor(a / 2, b / 2) + if a % 2 != b % 2 then 1 else 0
  {
  }

  /** Xor keeps the width: bits values stay bits values. */
  lemma {:induction false} XorRange(a: int, b: int, k: nat)
    requires -Pow2(k) <= a < Pow2(k) && -Pow2(k) <= b < Pow2(k)
    ensures -Pow2(k) <= Xor(a, b) < Pow2(k)
    decreases k
  {
    if k > 0 && !(SignOnly(a) && SignOnly(b)) {
      XorRange(a / 2, b / 2, k - 1);
    }
  }

  // ---- masks and packed fields

  lemma OrStep(a: int, b: int)
    ensures Or(a, b) == 2 * Or(a / 2, b / 2) + if a % 2 == 1 || b % 2 == 1 then 1 else 0
  {
  }

  lemma {:induction false} OrZero(a: int)
    ensures Or(0, a) == a && Or(a, 0) == a
    decreases Abs(a)
  {
    if !SignOnly(a) {
      OrZero(a / 2);
    }
  }

  lemma TimesTwice(y: int, p: int, q: int)
    requires q == 2 * p
    ensures y * q == 2 * (y * p)
  {
  }

  lemma OrHalf(x: int, z: int)
    requires Or(x / 2, z) == x / 2 + z && Or(z, x / 2) == x / 2 + z
    ensures Or(x, 2 * z) == x + 2 * z && Or(2 * z, x) == x + 2 * z
  {
    OrStep(x, 2 * z);
    OrStep(2 * z, x);
  }

  /** Fields that do not overlap are combined by adding them. */
  lemma {:induction false} OrDisjoint(x: int, y: int, k: nat)
    requires 0 <= x < Pow2(k)
    ensures Or(x, y * Pow2(k)) == x + y * Pow2(k) && Or(y * Pow2(k), x) == x + y * Pow2(k)
    decreases k
  {
    if k == 0 {
      OrZero(y);
    } else {
      OrDisjoint(x / 2, y, k - 1);
      assert Pow2(k) == 2 * Pow2(k - 1);
      hide Or, Pow2;
      TimesTwice(y, Pow2(k - 1), Pow2(k));
      OrHalf(x, y * Pow2(k - 1));
    }
  }

  lemma OrJoin(x: int, y: int, k: nat, p: int)
    requires p == Pow2(k) && 0 <= x < p
    ensures Or(x, y * p) == x + y * p
  {
    OrDisjoint(x, y, k);
  }

  lemma AndStep(a: int, b: int)
    ensures And(a, b) == 2 * And(a / 2, b / 2) + if a % 2 == 1 && b % 2 == 1 then 1 else 0
  {
  }

  /** Masking with k ones keeps the low k bits. */
  lemma {:induction false} AndLow(x: int, k: nat)
    ensures And(x, Pow2(k) - 1) == x % Pow2(k)
    decreases k
  {
    if k == 0 {
      AndMasks(x);
    } else {
      AndLow(x / 2, k - 1);
      AndLowStep(x, Pow2(k - 1));
    }
  }

  /** Masking with k zeros below other bits clears the low k bits. */
  lemma {:induction false} AndHigh(x: nat, m: nat, k: nat)
    ensures And(x, m * Pow2(k)) == And(x / Pow2(k), m) * Pow2(k)
  {
    if k > 0 {
      AndHigh(x / 2, m, k - 1);
      TimesTwice(m, Pow2(k - 1), Pow2(k));
      AndStep(x, m * Pow2(k));
      TimesTwice(And(x / Pow2(k), m), Pow2(k - 1), Pow2(k));
      DivTwice(x, 2, Pow2(k - 1));
    }
  }

  /** Clearing the low bits of a 32-bit number rounds it down. */
  lemma MaskHigh(x: nat, k: nat, m: nat)
    requires k <= 32 && m == Pow2(k) && x < 0x1_0000_0000 && Pow2(32) == 0x1_0000_0000
    ensures And(x, 0x1_0000_0000 - m) == (x / m) * m
  {
    hide And, Pow2;
    var t := Pow2(32 - k);
    Pow2Add(32 - k, k);
    AndHigh(x, t - 1, k);
    TimesPred(t, m);
    var q := x / m;
    DivBound(x, m, t);
    AndLow(q, 32 - k);
    ModUnique(q, t, 0, q);
    assert And(x, 0x1_0000_0000 - m) == And(q, t - 1) * m;
  }

  lemma TimesPred(t: nat, m: nat)
    requires t > 0
    ensures (t - 1) * m == t * m - m && m * t == t * m
  {
  }

  lemma AndLowStep(x: int, p: nat)
    requires p > 0 && And(x / 2, p - 1) == (x / 2) % p
    ensures And(x, 2 * p - 1) == x % (2 * p)
  {
    AndStep(x, 2 * p - 1);
    assert (2 * p - 1) / 2 == p - 1;
    hide And;
    HalveMod(x, p);
  }

  lemma HalveMod(x: int, p: nat)
    requires p > 0
    ensures x % (2 * p) == 2 * ((x / 2) % p) + x % 2
  {
    var q := (x / 2) / p;
    var r := 2 * ((x / 2) % p) + x % 2;
    assert x == q * (2 * p) + r && 0 <= r < 2 * p;
    ModUnique(x, 2 * p, q, r);
  }
}
