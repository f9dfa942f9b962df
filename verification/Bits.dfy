/**
 Shifts and masks on natural numbers, defined bit by bit.
 */
module Bits {

  function Pow2(n: nat): (p: nat)
    ensures p > 0
  {
    if n == 0 then 1 else 2 * Pow2(n - 1)
  }

  /** `x >> k`. */
  function Shr(x: nat, k: nat): nat
    decreases k
  {
    if k == 0 then x else Shr(x / 2, k - 1)
  }

  /** `x & ((1 << k) - 1)`. */
  function Low(x: nat, k: nat): (y: nat)
    ensures y < Pow2(k)
    decreases k
  {
    if k == 0 then 0 else 2 * Low(x / 2, k - 1) + x % 2
  }

  /** `(hi << k) | lo`, for a `lo` of `k` bits. */
  function Cat(hi: nat, lo: nat, k: nat): nat
    decreases k
  {
    if k == 0 then hi else 2 * Cat(hi, lo / 2, k - 1) + lo % 2
  }

  lemma {:induction false} CatShrLow(x: nat, k: nat)
    ensures Cat(Shr(x, k), Low(x, k), k) == x
  {
    if k > 0 { CatShrLow(x / 2, k - 1); }
  }

  lemma {:induction false} ShrCat(hi: nat, lo: nat, k: nat)
    ensures Shr(Cat(hi, lo, k), k) == hi
  {
    if k > 0 { ShrCat(hi, lo / 2, k - 1); }
  }

  lemma {:induction false} LowCat(hi: nat, lo: nat, k: nat)
    requires lo < Pow2(k)
    ensures Low(Cat(hi, lo, k), k) == lo
  {
    if k > 0 { LowCat(hi, lo / 2, k - 1); }
  }

  lemma {:induction false} ShrShr(x: nat, a: nat, b: nat)
    ensures Shr(Shr(x, a), b) == Shr(x, a + b)
  {
    if a > 0 { ShrShr(x / 2, a - 1, b); }
  }

  lemma {:induction false} ShrBound(x: nat, a: nat, b: nat)
    requires x < Pow2(a + b)
    ensures Shr(x, a) < Pow2(b)
  {
    if a > 0 { ShrBound(x / 2, a - 1, b); }
  }

  lemma {:induction false} CatBound(hi: nat, lo: nat, a: nat, k: nat)
    requires hi < Pow2(a)
    ensures Cat(hi, lo, k) < Pow2(a + k)
  {
    if k > 0 { CatBound(hi, lo / 2, a, k - 1); }
  }

  lemma {:induction false} LowSmall(x: nat, k: nat)
    requires x < Pow2(k)
    ensures Low(x, k) == x
  {
    if k > 0 { LowSmall(x / 2, k - 1); }
  }

  /** A multiple of a power of two has no bits below it. */
  lemma {:induction false} LowMultiple(m: nat, k: nat)
    ensures Low(Pow2(k) * m, k) == 0
  {
    if k > 0 {
      assert Pow2(k) * m == 2 * (Pow2(k - 1) * m);
      LowMultiple(m, k - 1);
    }
  }

  // ----- single bits

  predicate Bit(x: nat, k: nat)
    decreases k
  {
    if k == 0 then x % 2 == 1 else Bit(x / 2, k - 1)
  }

  /** `x | (1 << k)`. */
  function SetBit(x: nat, k: nat): nat
    decreases k
  {
    if k == 0 then (if x % 2 == 1 then x else x + 1) else 2 * SetBit(x / 2, k - 1) + x % 2
  }

  lemma {:induction false} BitSetBit(x: nat, k: nat, j: nat)
    ensures Bit(SetBit(x, k), j) <==> j == k || Bit(x, j)
    ensures SetBit(x, k) != 0
    decreases k
  {
    if k > 0 { BitSetBit(x / 2, k - 1, if j > 0 then j - 1 else 0); }
  }

  lemma {:induction false} BitShr(x: nat, k: nat)
    ensures Bit(x, k) <==> Shr(x, k) % 2 == 1
    ensures Shr(x, k + 1) == Shr(x, k) / 2
    decreases k
  {
    if k > 0 { BitShr(x / 2, k - 1); }
  }

  lemma {:induction false} BitZero(k: nat)
    ensures !Bit(0, k)
  {
    if k > 0 { BitZero(k - 1); }
  }

  // ----- bitwise operations

  datatype Gate = And | Or | AndNot | Xor

  predicate Applied(g: Gate, a: bool, b: bool) {
    match g
    case And => a && b
    case Or => a || b
    case AndNot => a && !b
    case Xor => a != b
  }

  /** `x & y`, `x | y`, `x & ~y` or `x ^ y`. */
  function Bitwise(g: Gate, x: nat, y: nat): nat
    decreases x + y
  {
    if x == 0 && y == 0 then 0 else
      2 * Bitwise(g, x / 2, y / 2) + if Applied(g, x % 2 == 1, y % 2 == 1) then 1 else 0
  }

  lemma {:induction false} BitwiseSplits(g: Gate, x: nat, y: nat, k: nat)
    ensures Shr(Bitwise(g, x, y), k) == Bitwise(g, Shr(x, k), Shr(y, k))
    ensures Low(Bitwise(g, x, y), k) == Bitwise(g, Low(x, k), Low(y, k))
    decreases k
  {
    if k > 0 {
      BitwiseSplits(g, x / 2, y / 2, k - 1);
      BitwiseStep(g, x, y);
      BitwiseStep(g, Low(x, k), Low(y, k));
    }
  }

  lemma BitwiseStep(g: Gate, x: nat, y: nat)
    ensures Bitwise(g, x, y) / 2 == Bitwise(g, x / 2, y / 2)
    ensures Bitwise(g, x, y) % 2 == if Applied(g, x % 2 == 1, y % 2 == 1) then 1 else 0
  {
  }

  /** An operation works bit by bit. */
  lemma {:induction false} BitwiseBit(g: Gate, x: nat, y: nat, k: nat)
    ensures Bit(Bitwise(g, x, y), k) <==> Applied(g, Bit(x, k), Bit(y, k))
    decreases k
  {
    BitwiseStep(g, x, y);
    if k > 0 { BitwiseBit(g, x / 2, y / 2, k - 1); }
  }

  lemma {:induction false} NoBitAbove(x: nat, n: nat, k: nat)
    requires x < Pow2(n) && n <= k
    ensures !Bit(x, k)
    decreases n
  {
    if n == 0 {
      BitZero(k);
    } else {
      NoBitAbove(x / 2, n - 1, k - 1);
    }
  }

  /** Numbers of `n` bits that differ do so in one of them. */
  lemma {:induction false} DifferingBit(x: nat, y: nat, n: nat) returns (k: nat)
    requires x < Pow2(n) && y < Pow2(n) && x != y
    ensures k < n && Bit(x, k) != Bit(y, k)
    decreases n
  {
    if x % 2 != y % 2 {
      k := 0;
    } else {
      var j := DifferingBit(x / 2, y / 2, n - 1);
      k := j + 1;
    }
  }

  lemma {:induction false} BitwiseSmall(g: Gate, x: nat, y: nat, k: nat)
    requires x < Pow2(k) && y < Pow2(k)
    ensures Bitwise(g, x, y) < Pow2(k)
    decreases k
  {
    if k > 0 {
      BitwiseSmall(g, x / 2, y / 2, k - 1);
    }
  }

  /** The gates that the sequences use, one operand all zeros, all ones or the same as the other. */
  lemma {:induction false} Gates(x: nat, k: nat)
    requires x < Pow2(k)
    ensures Bitwise(And, x, Pow2(k) - 1) == x && Bitwise(And, x, 0) == 0
    ensures Bitwise(Or, x, 0) == x && Bitwise(Or, 0, x) == x && Bitwise(Or, x, x) == x
    ensures Bitwise(AndNot, x, 0) == x && Bitwise(AndNot, x, Pow2(k) - 1) == 0
    decreases k
  {
    if k > 0 {
      Gates(x / 2, k - 1);
      var ones := Pow2(k) - 1;
      assert ones / 2 == Pow2(k - 1) - 1 && ones % 2 == 1;
      BitwiseStep(And, x, ones);
      BitwiseStep(And, x, 0);
      BitwiseStep(Or, x, 0);
      BitwiseStep(Or, 0, x);
      BitwiseStep(Or, x, x);
      BitwiseStep(AndNot, x, 0);
      BitwiseStep(AndNot, x, ones);
    }
  }

  /** An operation works on the parts of a number. */
  lemma {:induction false} GateCat(g: Gate, a: nat, c: nat, b: nat, d: nat, k: nat)
    requires c < Pow2(k) && d < Pow2(k)
    ensures Bitwise(g, Cat(a, c, k), Cat(b, d, k)) == Cat(Bitwise(g, a, b), Bitwise(g, c, d), k)
    decreases k
  {
    if k > 0 {
      GateCat(g, a, c / 2, b, d / 2, k - 1);
      BitwiseStep(g, Cat(a, c, k), Cat(b, d, k));
      BitwiseStep(g, c, d);
    } else {
      BitwiseNone(g);
    }
  }

  lemma BitwiseNone(g: Gate)
    ensures Bitwise(g, 0, 0) == 0
  {
  }

  lemma {:induction false} CatSum(hi: nat, lo: nat, k: nat)
    requires lo < Pow2(k)
    ensures Cat(hi, lo, k) == Pow2(k) * hi + lo
    decreases k
  {
    if k > 0 {
      CatSum(hi, lo / 2, k - 1);
      assert Pow2(k) * hi == 2 * (Pow2(k - 1) * hi);
    }
  }

  lemma Powers()
    ensures Pow2(8) == 0x100 && Pow2(32) == 0x1_0000_0000 && Pow2(64) == 0x1_0000_0000_0000_0000
  {
    assert Pow2(8) == 0x100 && Pow2(16) == 0x1_0000 && Pow2(24) == 0x100_0000 && Pow2(32) == 0x1_0000_0000;
    assert Pow2(40) == 0x100_0000_0000 && Pow2(48) == 0x1_0000_0000_0000 && Pow2(56) == 0x100_0000_0000_0000;
  }

  lemma {:induction false} XorSelf(x: nat)
    ensures Bitwise(Xor, x, x) == 0
  {
    if x > 0 { XorSelf(x / 2); }
  }

  lemma {:induction false} XorSymmetric(x: nat, y: nat)
    ensures Bitwise(Xor, x, y) == Bitwise(Xor, y, x)
    decreases x + y
  {
    if x > 0 || y > 0 { XorSymmetric(x / 2, y / 2); }
  }

  lemma {:induction false} XorCancels(x: nat, y: nat)
    ensures Bitwise(Xor, Bitwise(Xor, x, y), y) == x
    decreases x + y
  {
    if x > 0 || y > 0 {
      XorCancels(x / 2, y / 2);
      BitwiseStep(Xor, x, y);
      BitwiseStep(Xor, Bitwise(Xor, x, y), y);
    }
  }

  lemma {:induction false} AndBelowFirst(x: nat, y: nat)
    ensures Bitwise(And, x, y) <= x
    decreases x + y
  {
    if x > 0 || y > 0 { AndBelowFirst(x / 2, y / 2); }
  }

  lemma {:induction false} AndBelow(x: nat, y: nat)
    ensures Bitwise(And, x, y) <= y
    decreases x + y
  {
    if x > 0 || y > 0 { AndBelow(x / 2, y / 2); }
  }
}
