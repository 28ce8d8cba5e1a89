/**
 Bitwise operators on natural numbers, and the arithmetic facts the kernel's
 masks, shifts and packed descriptors rely on. A machine word is a natural
 number below 2^64, so `~x` is `2^64 - 1 - x`.
 */
module Bits {

  const TWO64: nat := 0x1_0000_0000_0000_0000

  type Word = x: int | 0 <= x < TWO64

  function Pow2(k: nat): (r: nat)
    ensures r >= 1
  {
    if k == 0 then 1 else 2 * Pow2(k - 1)
  }

  function BitOr(a: nat, b: nat): nat
    decreases a + b
  {
    if a == 0 then b
    else if b == 0 then a
    else 2 * BitOr(a / 2, b / 2) + (if a % 2 == 1 || b % 2 == 1 then 1 else 0)
  }

  function BitAnd(a: nat, b: nat): nat
    decreases a + b
  {
    if a == 0 || b == 0 then 0
    else 2 * BitAnd(a / 2, b / 2) + (if a % 2 == 1 && b % 2 == 1 then 1 else 0)
  }

  function Shl(a: nat, k: nat): nat
  {
    if k == 0 then a else 2 * Shl(a, k - 1)
  }

  function Shr(a: nat, k: nat): nat
  {
    if k == 0 then a else Shr(a / 2, k - 1)
  }

  /** The low k bits of a. */
  function Low(a: nat, k: nat): (r: nat)
    ensures r < Pow2(k)
  {
    if k == 0 then 0 else 2 * Low(a / 2, k - 1) + a % 2
  }

  lemma Pow2Values()
    ensures Pow2(9) == 0x200 && Pow2(10) == 0x400 && Pow2(11) == 0x800 && Pow2(12) == 0x1000
    ensures Pow2(64) == TWO64
  {
    assert Pow2(4) == 16;
    assert Pow2(8) == 256;
    assert Pow2(9) == 512;
    assert Pow2(16) == 65536 by { assert Pow2(12) == 4096; }
    assert Pow2(32) == 0x1_0000_0000 by { assert Pow2(20) == 0x10_0000; assert Pow2(24) == 0x100_0000; assert Pow2(28) == 0x1000_0000; }
    assert Pow2(40) == 0x100_0000_0000 by { assert Pow2(36) == 0x10_0000_0000; }
    assert Pow2(48) == 0x1_0000_0000_0000 by { assert Pow2(44) == 0x1000_0000_0000; }
    assert Pow2(56) == 0x100_0000_0000_0000 by { assert Pow2(52) == 0x10_0000_0000_0000; }
    assert Pow2(60) == 0x1000_0000_0000_0000;
  }

  lemma OrHalves(a: nat, b: nat)
    ensures BitOr(a, b) / 2 == BitOr(a / 2, b / 2)
    ensures BitOr(a, b) % 2 == if a % 2 == 1 || b % 2 == 1 then 1 else 0
  {
  }

  lemma AndHalves(a: nat, b: nat)
    ensures BitAnd(a, b) / 2 == BitAnd(a / 2, b / 2)
    ensures BitAnd(a, b) % 2 == if a % 2 == 1 && b % 2 == 1 then 1 else 0
  {
  }

  /** The parts of a word above and below bit k are or-ed independently. */
  lemma {:induction false} OrSplit(k: nat, a1: nat, a0: nat, b1: nat, b0: nat)
    requires a0 < Pow2(k) && b0 < Pow2(k)
    ensures BitOr(a0, b0) < Pow2(k)
    ensures BitOr(Shl(a1, k) + a0, Shl(b1, k) + b0) == Shl(BitOr(a1, b1), k) + BitOr(a0, b0)
  {
    if k == 0 {
    } else {
      OrSplit(k - 1, a1, a0 / 2, b1, b0 / 2);
      OrHalves(Shl(a1, k) + a0, Shl(b1, k) + b0);
      OrHalves(a0, b0);
      assert (Shl(a1, k) + a0) / 2 == Shl(a1, k - 1) + a0 / 2;
      assert (Shl(b1, k) + b0) / 2 == Shl(b1, k - 1) + b0 / 2;
    }
  }

  /** x | y == x exactly when every bit of y is already set in x. */
  lemma {:induction false} OrAbsorbs(x: nat, y: nat)
    ensures BitOr(x, y) == x <==> BitAnd(x, y) == y
    decreases x + y
  {
    if x == 0 || y == 0 {
    } else {
      OrAbsorbs(x / 2, y / 2);
      OrHalves(x, y);
      AndHalves(x, y);
    }
  }

  lemma {:induction false} OrAssoc(a: nat, b: nat, c: nat)
    ensures BitOr(BitOr(a, b), c) == BitOr(a, BitOr(b, c))
    decreases a + b + c
  {
    if a == 0 || b == 0 || c == 0 {
    } else {
      OrHalves(a, b); OrHalves(b, c);
      OrHalves(BitOr(a, b), c); OrHalves(a, BitOr(b, c));
      OrAssoc(a / 2, b / 2, c / 2);
    }
  }

  predicate BitSet(a: nat, k: nat) { Shr(a, k) % 2 == 1 }

  /** A bit of a | b is set exactly when it is set in a or in b. */
  lemma {:induction false} OrSets(a: nat, b: nat, k: nat)
    ensures BitSet(BitOr(a, b), k) <==> BitSet(a, k) || BitSet(b, k)
  {
    OrHalves(a, b);
    if k == 0 {
    } else {
      OrSets(a / 2, b / 2, k - 1);
    }
  }

  /** `a & (2^k - 1)` keeps the low k bits. */
  lemma {:induction false} AndMask(a: nat, k: nat)
    ensures BitAnd(a, Pow2(k) - 1) == Low(a, k)
  {
    if k == 0 {
    } else {
      AndMask(a / 2, k - 1);
      AndHalves(a, Pow2(k) - 1);
      assert (Pow2(k) - 1) / 2 == Pow2(k - 1) - 1;
    }
  }

  /** In w-bit arithmetic `a & ~(2^k - 1)` clears the low k bits. */
  lemma {:induction false} AndClear(a: nat, k: nat, w: nat)
    requires k <= w && a < Pow2(w)
    ensures Pow2(k) <= Pow2(w)
    ensures BitAnd(a, Pow2(w) - Pow2(k)) == Shl(Shr(a, k), k)
  {
    if k == 0 {
      AndMask(a, w);
      LowAll(a, w);
    } else {
      AndClear(a / 2, k - 1, w - 1);
      AndHalves(a, Pow2(w) - Pow2(k));
      assert (Pow2(w) - Pow2(k)) / 2 == Pow2(w - 1) - Pow2(k - 1);
      assert (Pow2(w) - Pow2(k)) % 2 == 0;
    }
  }

  lemma {:induction false} LowAll(a: nat, w: nat)
    requires a < Pow2(w)
    ensures Low(a, w) == a
  {
    if w == 0 {
    } else {
      LowAll(a / 2, w - 1);
    }
  }

  /** Clearing the low k bits rounds down to a multiple of 2^k. */
  lemma {:induction false} ShiftFloor(a: nat, k: nat)
    ensures Shl(Shr(a, k), k) <= a < Shl(Shr(a, k) + 1, k)
    ensures Shl(Shr(a, k) + 1, k) == Shl(Shr(a, k), k) + Pow2(k)
  {
    if k == 0 {
    } else {
      ShiftFloor(a / 2, k - 1);
    }
  }

  lemma {:induction false} ShlMonotone(a: nat, b: nat, k: nat)
    ensures a < b <==> Shl(a, k) < Shl(b, k)
  {
    if k == 0 {
    } else {
      ShlMonotone(a, b, k - 1);
    }
  }

  // The shift distances the kernel uses, as arithmetic on literals.

  lemma Shift3(a: nat)
    ensures Shr(a, 3) == a / 8 && Low(a, 3) == a % 8 && Shl(a, 3) == a * 8
  {
    assert Shr(a / 2 / 2, 1) == Shr(a / 8, 0) && Low(a / 2 / 2, 1) == a / 4 % 2;
    assert Shr(a / 2, 2) == Shr(a / 2 / 2, 1) && Low(a / 2, 2) == 2 * Low(a / 2 / 2, 1) + a / 2 % 2;
    assert Shl(a, 1) == 2 * Shl(a, 0);
    assert Shl(a, 2) == 2 * Shl(a, 1);
  }

  lemma Shift6(a: nat)
    ensures Shr(a, 6) == a / 64 && Low(a, 6) == a % 64 && Shl(a, 6) == a * 64
  {
    Shift3(a); Shift3(a / 8); Shift3(a * 8); Shift3(a / 8 % 8);
    ShrAdd(a, 3, 3); LowAdd(a, 3, 3); ShlAdd(a, 3, 3);
  }

  lemma Shift9(a: nat)
    ensures Shr(a, 9) == a / 0x200 && Low(a, 9) == a % 0x200 && Shl(a, 9) == a * 0x200
  {
    Shift6(a); Shift3(a / 64); Shift3(a * 64); Shift6(a / 64 % 8);
    ShrAdd(a, 6, 3); LowAdd(a, 6, 3); ShlAdd(a, 6, 3);
  }

  lemma Shift12(a: nat)
    ensures Shr(a, 12) == a / 0x1000 && Low(a, 12) == a % 0x1000 && Shl(a, 12) == a * 0x1000
  {
    Shift9(a); Shift3(a / 0x200); Shift3(a * 0x200);
    ShrAdd(a, 9, 3); LowAdd(a, 9, 3); ShlAdd(a, 9, 3);
    Shift9(a / 0x200 % 8);
  }

  lemma Shift21(a: nat)
    ensures Shr(a, 21) == a / 0x20_0000 && Shl(a, 21) == a * 0x20_0000
  {
    Shift9(a / 0x1000);
    Shift12(a);
    ShrAdd(a, 12, 9);
    ShlAdd(a, 12, 9);
    Shift9(Shl(a, 12));
  }

  lemma Shift30(a: nat)
    ensures Shr(a, 30) == a / 0x4000_0000 && Shl(a, 30) == a * 0x4000_0000
  {
    Shift21(a);
    Shift9(a / 0x20_0000);
    ShrAdd(a, 21, 9);
    ShlAdd(a, 21, 9);
    Shift9(Shl(a, 21));
  }

  lemma {:induction false} ShrAdd(a: nat, j: nat, k: nat)
    ensures Shr(a, j + k) == Shr(Shr(a, j), k)
  {
    if j == 0 {
    } else {
      ShrAdd(a / 2, j - 1, k);
    }
  }

  lemma {:induction false} LowAdd(a: nat, j: nat, k: nat)
    ensures Low(a, j + k) == Low(a, j) + Shl(Low(Shr(a, j), k), j)
  {
    if j == 0 {
    } else {
      LowAdd(a / 2, j - 1, k);
    }
  }

  lemma {:induction false} ShlAdd(a: nat, j: nat, k: nat)
    ensures Shl(a, j + k) == Shl(Shl(a, j), k)
  {
    if k == 0 {
    } else {
      ShlAdd(a, j, k - 1);
    }
  }
}
