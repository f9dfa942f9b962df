/**
 The Alpha umulh instruction: the high half of an unsigned 64 by 64 bit product, computed with
 64-bit additions and shifts only.
 */
module Umulh {

  const TWO63 := 0x8000_0000_0000_0000
  const TWO64 := 0x1_0000_0000_0000_0000

  type Quad = x: nat | x < TWO64

  /** `(uint64_t) x`. */
  function Wrap(x: nat): Quad { x % TWO64 }

  lemma WrapOnce(x: nat)
    requires x < 2 * TWO64
    ensures Wrap(x) == if x < TWO64 then x else x - TWO64
  {
  }

  /** `a` doubled `k` times. */
  function Doubled(a: nat, k: nat): nat { if k == 0 then a else 2 * Doubled(a, k - 1) }

  lemma {:induction false} DoubledTwice(a: nat, j: nat, k: nat)
    ensures Doubled(Doubled(a, j), k) == Doubled(a, j + k)
  {
    if k > 0 { DoubledTwice(a, j, k - 1); }
  }

  lemma Doubled8(a: nat)
    ensures Doubled(a, 8) == 0x100 * a
  {
    OneMore(a, 0);
    OneMore(a, 1);
    OneMore(a, 2);
    OneMore(a, 3);
    OneMore(a, 4);
    OneMore(a, 5);
    OneMore(a, 6);
    OneMore(a, 7);
  }

  lemma Doubled64(a: nat)
    ensures Doubled(a, 64) == a * TWO64
  {
    Doubled8(a);
    var b := Doubled(a, 8);
    Doubled8(b);
    DoubledTwice(a, 8, 8);
    var c := Doubled(a, 16);
    Doubled8(c);
    DoubledTwice(a, 16, 8);
    var d := Doubled(a, 24);
    Doubled8(d);
    DoubledTwice(a, 24, 8);
    var e := Doubled(a, 32);
    Doubled8(e);
    DoubledTwice(a, 32, 8);
    var f := Doubled(a, 40);
    Doubled8(f);
    DoubledTwice(a, 40, 8);
    var g := Doubled(a, 48);
    Doubled8(g);
    DoubledTwice(a, 48, 8);
    var h := Doubled(a, 56);
    Doubled8(h);
    DoubledTwice(a, 56, 8);
  }

  lemma {:induction false} DoubledGrows(a: nat, j: nat, k: nat)
    requires j <= k
    ensures Doubled(a, j) <= Doubled(a, k)
  {
    if j < k { DoubledGrows(a, j, k - 1); }
  }

  /** The bits of `a` that the first `i` rounds have consumed: at most half of `a` before the last one. */
  lemma Consumed(a: Quad, i: nat, top: nat, rest: Quad)
    requires top * TWO64 + rest == Doubled(a, i)
    ensures i == 64 ==> top == a
    ensures i < 64 ==> 2 * top <= a
  {
    Doubled64(a);
    if i < 64 {
      DoubledGrows(a, i, 63);
      assert Doubled(a, 64) == 2 * Doubled(a, 63);
    }
  }

  function Times(x: nat, y: nat): nat { x * y }

  lemma TimesBound(x: nat, m: nat, y: nat, n: nat)
    requires x <= m && y <= n
    ensures Times(x, y) <= m * n
  {
    assert x * y <= m * y <= m * n;
  }

  lemma TimesRound(was: nat, bit: bool, b: nat)
    ensures Times(2 * was + if bit then 1 else 0, b) == 2 * Times(was, b) + if bit then b else 0
  {
  }

  lemma HighHalf(hi: Quad, lo: Quad, a: nat, b: nat)
    requires hi * TWO64 + lo == Times(a, b)
    ensures hi == a * b / TWO64
  {
  }

  lemma AddCarries(hi: Quad, lo: Quad, b: Quad)
    requires hi * TWO64 + lo + b < TWO64 * TWO64
    ensures
      var sum := Wrap(lo + b);
      (if sum < lo then Wrap(hi + 1) else hi) * TWO64 + sum == hi * TWO64 + lo + b
  {
    WrapOnce(lo + b);
    WrapOnce(hi + 1);
  }

  lemma ShiftCarries(hi: Quad, lo: Quad)
    requires 2 * (hi * TWO64 + lo) < TWO64 * TWO64
    ensures
      Wrap(Wrap(2 * hi) + if lo >= TWO63 then 1 else 0) * TWO64 + Wrap(2 * lo) == 2 * (hi * TWO64 + lo)
  {
    WrapOnce(2 * hi);
    WrapOnce(2 * lo);
    WrapOnce(Wrap(2 * hi) + if lo >= TWO63 then 1 else 0);
  }

  /** The accumulator (`hi`,`lo`) never overflows its 128 bits and every carry is seen. */
  method MultiplyHigh(a: Quad, b: Quad) returns (hi: Quad)
    ensures hi == a * b / TWO64
  {
    hide Times, Doubled, Wrap;
    var lo: Quad := 0;
    hi := 0;
    var s1: Quad := a;
    ghost var top: nat := 0;
    Start(a, b);
    for i := 0 to 64
      invariant top * TWO64 + s1 == Doubled(a, i)
      invariant hi * TWO64 + lo == if i < 64 then 2 * Times(top, b) else Times(top, b)
    {
      var bit := s1 >= TWO63;
      TimesRound(top, bit, b);
      OneMore(a, i);
      top := 2 * top + if bit then 1 else 0;
      WrapOnce(2 * s1);
      s1 := Wrap(2 * s1);
      Consumed(a, i + 1, top, s1);
      TimesBound(top, if i < 63 then TWO63 - 1 else TWO64 - 1, b, TWO64 - 1);
      AddCarries(hi, lo, if bit then b else 0);
      if bit {
        var oldLo := lo;
        lo := Wrap(lo + b);
        if lo < oldLo { hi := Wrap(hi + 1); }
      }
      assert hi * TWO64 + lo == Times(top, b);
      if i != 63 {
        ShiftCarries(hi, lo);
        hi := Wrap(2 * hi);
        hi := Wrap(hi + if lo >= TWO63 then 1 else 0);
        lo := Wrap(2 * lo);
      }
    }
    Consumed(a, 64, top, s1);
    HighHalf(hi, lo, a, b);
  }

  lemma Start(a: Quad, b: Quad)
    ensures Doubled(a, 0) == a && Times(0, b) == 0
  {
  }

  lemma OneMore(a: nat, i: nat)
    ensures Doubled(a, i + 1) == 2 * Doubled(a, i)
  {
  }
}
