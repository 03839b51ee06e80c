/**
 The bitwise operators on 32-bit words, read as arithmetic on natural numbers: shifts double and halve, a
 mask of low ones keeps the low bits, a mask of shifted ones looks only above the shift, and an or of
 parts that do not overlap adds them.
 */
module Bits {

  const TWO_32: nat := 0x1_0000_0000

  function Pow2(k: nat): (p: nat)
    ensures p > 0
  {
    if k == 0 then 1 else 2 * Pow2(k - 1)
  }

  /** The operand of a bitwise operator: its value modulo 2^32. */
  function ToUint32(a: nat): nat {
    a % TWO_32
  }

  function And(a: nat, b: nat): nat {
    if a == 0 || b == 0 then 0
    else 2 * And(a / 2, b / 2) + if a % 2 == 1 && b % 2 == 1 then 1 else 0
  }

  function Or(a: nat, b: nat): nat
    decreases a + b
  {
    if a == 0 then b
    else if b == 0 then a
    else 2 * Or(a / 2, b / 2) + if a % 2 == 1 || b % 2 == 1 then 1 else 0
  }

  /** a times 2^k. */
  function Shl(a: nat, k: nat): nat {
    if k == 0 then a else 2 * Shl(a, k - 1)
  }

  /** a divided by 2^k, rounded down. */
  function Shr(a: nat, k: nat): nat {
    if k == 0 then a else Shr(a / 2, k - 1)
  }

  lemma ShiftByFour(a: nat)
    ensures Shl(a, 4) == 16 * a && Shr(a, 4) == a / 16
  {
    assert Shl(a, 1) == 2 * a && Shl(a, 2) == 4 * a;
    assert Shl(a, 3) == 8 * a;
    var half, quarter := a / 2, a / 4;
    assert Shr(a, 4) == Shr(half, 3) == Shr(quarter, 2);
    assert Shr(quarter, 2) == Shr(quarter / 2, 1) == quarter / 2 / 2;
  }

  lemma {:induction false} ShiftsAdd(a: nat, j: nat, k: nat)
    ensures Shl(a, j + k) == Shl(Shl(a, j), k)
    ensures Shr(a, j + k) == Shr(Shr(a, j), k)
    ensures Pow2(j + k) == Shl(Pow2(j), k)
    decreases j + k
  {
    if k > 0 {
      ShiftsAdd(a, j, k - 1);
    }
    if j > 0 {
      ShiftsAdd(a / 2, j - 1, k);
    }
  }

  /** The shifts by whole octets and the powers they go with. */
  lemma ShiftByEight(a: nat)
    ensures Shl(a, 8) == 0x100 * a && Shr(a, 8) == a / 0x100 && Pow2(8) == 0x100
  {
    ShiftsAdd(a, 4, 4);
    ShiftByFour(a);
    ShiftByFour(Shl(a, 4));
    ShiftByFour(Shr(a, 4));
    ShiftByFour(1);
    ShiftByFour(16);
    PowIsShift(8);
    ShiftsAdd(1, 4, 4);
  }

  lemma ShiftBySixteen(a: nat)
    ensures Shl(a, 16) == 0x1_0000 * a && Shr(a, 16) == a / 0x1_0000 && Pow2(16) == 0x1_0000
  {
    ShiftsAdd(a, 8, 8);
    ShiftByEight(a);
    ShiftByEight(Shl(a, 8));
    ShiftByEight(Shr(a, 8));
    assert a / 0x100 / 0x100 == a / 0x1_0000;
    ShiftByEight(Pow2(8));
  }

  lemma ShiftByTwentyFour(a: nat)
    ensures Shl(a, 24) == 0x100_0000 * a && Shr(a, 24) == a / 0x100_0000 && Pow2(24) == 0x100_0000
  {
    ShiftsAdd(a, 16, 8);
    ShiftBySixteen(a);
    ShiftByEight(Shl(a, 16));
    ShiftByEight(Shr(a, 16));
    assert a / 0x1_0000 / 0x100 == a / 0x100_0000;
    ShiftByEight(Pow2(16));
  }

  lemma {:induction false} PowIsShift(k: nat)
    ensures Pow2(k) == Shl(1, k)
  {
    if k > 0 {
      PowIsShift(k - 1);
    }
  }

  lemma {:induction false} ShlOfSum(a: nat, b: nat, k: nat)
    ensures Shl(a + b, k) == Shl(a, k) + Shl(b, k)
  {
    if k > 0 {
      ShlOfSum(a, b, k - 1);
    }
  }

  /** Shifting keeps the order of numbers, also with low bits filled in. */
  lemma ShlOrder(a: nat, b: nat, low: nat, k: nat)
    requires low < Pow2(k)
    ensures a < b <==> Shl(a, k) + low < Shl(b, k)
  {
    PowIsShift(k);
    if a < b {
      ShlOfSum(a + 1, b - a - 1, k);
      ShlOfSum(a, 1, k);
    } else {
      ShlOfSum(b, a - b, k);
    }
  }

  lemma {:induction false} ShrBelow(a: nat, k: nat)
    ensures a < Pow2(k) ==> Shr(a, k) == 0
  {
    if k > 0 {
      ShrBelow(a / 2, k - 1);
    }
  }

  /** Masking with 2^k - 1 keeps the low k bits. */
  lemma {:induction false} AndLowMask(a: nat, k: nat)
    ensures And(a, Pow2(k) - 1) + Shl(Shr(a, k), k) == a
  {
    if k > 0 {
      AndLowMask(a / 2, k - 1);
      assert (Pow2(k) - 1) / 2 == Pow2(k - 1) - 1;
    }
  }

  /** Masking a word with 0xff takes its low octet. */
  lemma LowOctet(a: nat)
    ensures And(a, 0xff) == a % 0x100
  {
    AndLowMask(a, 8);
    ShiftByEight(a);
    ShiftByEight(a / 0x100);
  }

  /** A mask of m above k zero bits looks only at the bits of a above k. */
  lemma {:induction false} AndShiftedMask(a: nat, m: nat, k: nat)
    ensures And(a, Shl(m, k)) == Shl(And(Shr(a, k), m), k)
  {
    if k > 0 {
      AndShiftedMask(a / 2, m, k - 1);
    }
  }

  /** Joining a high part shifted by k with a low part below 2^k adds them. */
  lemma {:induction false} OrDisjoint(a: nat, b: nat, k: nat)
    requires b < Pow2(k)
    ensures Or(Shl(a, k), b) == Shl(a, k) + b
  {
    if k > 0 {
      OrDisjoint(a, b / 2, k - 1);
    }
  }
}
