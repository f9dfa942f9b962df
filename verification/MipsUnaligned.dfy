/**
 MIPS unaligned loads and stores: lwl, lwr, swl, swr and their 64-bit forms, which each move the part
 of an unaligned word that lies in one aligned word.
 */
module MipsUnaligned {
  import opened Bytes

  const TWO31 := 0x8000_0000

  type Quad = x: nat | x < TWO64

  type Memory = Quad -> nat

  datatype Shape = Shape(big: bool, narrow: bool, wlen: nat)

  /** Byte order of the guest, 32-bit processor, width of the access. The 64-bit forms need a 64-bit processor. */
  predicate Proper(h: Shape) { (h.wlen == 4 || h.wlen == 8) && (h.narrow ==> h.wlen == 4) }

  /** `(int32_t) x`, as 64 bits. */
  function SignExtend(x: nat): Quad {
    var low := x % TWO32;
    if low < TWO31 then low else low + (TWO64 - TWO32)
  }

  /** An address as the processor uses it. */
  function Canon(h: Shape, a: int): Quad {
    if h.narrow then SignExtend(a % TWO32) else a % TWO64
  }

  function Block(a: Quad, wlen: nat): Quad
    requires wlen == 4 || wlen == 8
  {
    a - a % wlen
  }

  /** Byte `j` of an aligned word. */
  function InBlock(a: Quad, wlen: nat, j: nat): Quad
    requires (wlen == 4 || wlen == 8) && j < wlen
  {
    assert a == a / wlen * wlen + a % wlen;
    Block(a, wlen) + j
  }

  /** Addresses go up when the first byte is the lowest one. */
  predicate Up(h: Shape, left: bool) { left == h.big }

  /** How many bytes of the unaligned word one instruction moves, from address `a`. */
  function Count(h: Shape, left: bool, a: Quad): (n: nat)
    requires Proper(h)
    ensures 1 <= n <= h.wlen
  {
    if Up(h, left) then h.wlen - a % h.wlen else a % h.wlen + 1
  }

  /** Where byte `i` of those is, in memory and in the register. */
  function At(h: Shape, left: bool, a: Quad, i: nat): Quad
    requires Proper(h) && i < Count(h, left, a)
  {
    if Up(h, left) then a + i else a - i
  }

  function Lane(h: Shape, left: bool, i: nat): nat
    requires i < h.wlen
  {
    if left then h.wlen - 1 - i else i
  }

  /** The register after the first `n` bytes. */
  function Filled(h: Shape, left: bool, m: Memory, a: Quad, value: nat, n: nat): nat
    requires Proper(h) && n <= Count(h, left, a)
  {
    if n == 0 then value else
      PutByte(Filled(h, left, m, a, value, n - 1), Lane(h, left, n - 1), m(At(h, left, a, n - 1)) % 256)
  }

  /** A whole load instruction. */
  function Loaded(h: Shape, left: bool, m: Memory, a: Quad, value: nat): nat
    requires Proper(h)
  {
    var filled := Filled(h, left, m, a, value, Count(h, left, a));
    if h.wlen == 4 then SignExtend(filled) else filled
  }

  /** Whether a store instruction at `a` writes address `x`, and which byte of the register goes there. */
  predicate Touches(h: Shape, left: bool, a: Quad, x: Quad)
    requires Proper(h)
  {
    Block(x, h.wlen) == Block(a, h.wlen) && if Up(h, left) then a <= x else x <= a
  }

  function Patched(h: Shape, left: bool, a: Quad, value: nat, x: Quad, was: nat): nat
    requires Proper(h)
  {
    if !Touches(h, left, a, x) then was else
      ByteAt(value, Lane(h, left, if Up(h, left) then x - a else a - x))
  }

  /** A whole store instruction, at address `x`. */
  function Stored(h: Shape, left: bool, m: Memory, a: Quad, value: nat, x: Quad): nat
    requires Proper(h)
  {
    Patched(h, left, a, value, x, m(x))
  }

  lemma {:induction false} FilledAt(h: Shape, left: bool, m: Memory, a: Quad, value: nat, n: nat, k: nat)
    requires Proper(h) && n <= Count(h, left, a) && k < h.wlen
    ensures
      var i := if left then h.wlen - 1 - k else k;
      ByteAt(Filled(h, left, m, a, value, n), k) ==
        if i < n then m(At(h, left, a, i)) % 256 else ByteAt(value, k)
  {
    if n > 0 {
      FilledAt(h, left, m, a, value, n - 1, k);
      PutThenGet(Filled(h, left, m, a, value, n - 1), Lane(h, left, n - 1), m(At(h, left, a, n - 1)) % 256, k);
    }
  }

  lemma {:induction false} FilledWidth(h: Shape, left: bool, m: Memory, a: Quad, value: nat, n: nat)
    requires Proper(h) && n <= Count(h, left, a) && LowBytes(value, 8) == value
    ensures LowBytes(Filled(h, left, m, a, value, n), 8) == Filled(h, left, m, a, value, n)
  {
    if n > 0 {
      FilledWidth(h, left, m, a, value, n - 1);
      PutKeepsWidth(Filled(h, left, m, a, value, n - 1), Lane(h, left, n - 1), m(At(h, left, a, n - 1)) % 256, 8);
    }
  }

  lemma Width(x: nat)
    ensures LowBytes(x, 8) == x <==> x < TWO64
  {
    hide LowBytes;
    Width8(x);
    Fits(x);
  }

  lemma Fits(x: nat)
    ensures x % TWO64 < TWO64 && (x < TWO64 ==> x % TWO64 == x)
  {
  }

  /** Sign extension looks at the low four bytes and keeps them. */
  lemma SignExtendBytes(x: nat, y: nat)
    requires forall k :: 0 <= k < 4 ==> ByteAt(x, k) == ByteAt(y, k)
    ensures SignExtend(x) == SignExtend(y)
  {
    SameBytes(x, y, 4);
    Width4(x);
    Width4(y);
  }

  lemma SignExtendLow(x: nat)
    ensures SignExtend(x) % TWO32 == x % TWO32
  {
    var low := x % TWO32;
    assert low + (TWO64 - TWO32) == low + TWO32 * (TWO32 - 1);
    AddMultiple(low, TWO32 - 1);
  }

  lemma AddMultiple(low: nat, q: nat)
    requires low < TWO32
    ensures (low + TWO32 * q) % TWO32 == low
  {
  }

  lemma SignExtendKeeps(x: nat, k: nat)
    requires k < 4
    ensures ByteAt(SignExtend(x), k) == ByteAt(x, k)
  {
    hide SignExtend;
    var y := SignExtend(x);
    Width4(x);
    Width4(y);
    SignExtendLow(x);
    LowBytesAt(x, 4, k);
    LowBytesAt(y, 4, k);
  }

  lemma LoadedAt(h: Shape, left: bool, m: Memory, a: Quad, value: nat, k: nat)
    requires Proper(h) && k < h.wlen
    ensures
      var i := if left then h.wlen - 1 - k else k;
      ByteAt(Loaded(h, left, m, a, value), k) ==
        if i < Count(h, left, a) then m(At(h, left, a, i)) % 256 else ByteAt(value, k)
  {
    FilledAt(h, left, m, a, value, Count(h, left, a), k);
    if h.wlen == 4 { SignExtendKeeps(Filled(h, left, m, a, value, Count(h, left, a)), k); }
  }

  /**
   A single load, in numbers: the bytes from its address to the end of the aligned word, upwards for the
   left half on a big-endian machine and the right half on a little-endian one, downwards otherwise; the
   left half fills the register from the top.
   */
  lemma LoadMeans(h: Shape, left: bool, m: Memory, a: Quad, value: nat, k: nat)
    requires Proper(h) && k < h.wlen
    ensures
      var i := if left then h.wlen - 1 - k else k;
      ByteAt(Loaded(h, left, m, a, value), k) ==
        if left == h.big then (if i < h.wlen - a % h.wlen then m((a + i) % TWO64) % 256 else ByteAt(value, k))
        else if i <= a % h.wlen then m((a + TWO64 - i) % TWO64) % 256 else ByteAt(value, k)
  {
    hide ByteAt, Filled, Loaded;
    LoadedAt(h, left, m, a, value, k);
    var i := if left then h.wlen - 1 - k else k;
    if i < Count(h, left, a) { Within(At(h, left, a, i)); }
  }

  lemma Within(x: Quad)
    ensures x % TWO64 == x && (x + TWO64) % TWO64 == x
  {
  }

  /** A single store: the same bytes of the aligned word change places with those of the register. */
  lemma StoreMeans(h: Shape, left: bool, m: Memory, a: Quad, value: nat, x: Quad)
    requires Proper(h)
    ensures
      var d := if left == h.big then x - a else a - x;
      Stored(h, left, m, a, value, x) ==
        if x / h.wlen == a / h.wlen && d >= 0 && d < h.wlen then ByteAt(value, if left then h.wlen - 1 - d else d) else m(x)
  {
    hide ByteAt;
    SameWord4(h.wlen, a, x);
  }

  lemma SameWord4(wlen: nat, a: Quad, x: Quad)
    requires wlen == 4 || wlen == 8
    ensures Block(x, wlen) == Block(a, wlen) <==> x / wlen == a / wlen
    ensures x / wlen == a / wlen ==> -(wlen as int) < x - a < wlen
  {
    assert Block(x, wlen) == x / wlen * wlen && Block(a, wlen) == a / wlen * wlen;
  }

  // ----- the pair of instructions

  /** The two halves address the ends of the unaligned word at `a`. */
  function End(h: Shape, left: bool, a: Quad): Quad {
    if Up(h, left) then a else Canon(h, a + h.wlen - 1)
  }

  /** The address of the byte of significance `k` of the word at `a`. */
  function Home(h: Shape, a: Quad, k: nat): Quad
    requires k < h.wlen
  {
    Canon(h, a + if h.big then h.wlen - 1 - k else k)
  }

  function UnalignedWord(h: Shape, m: Memory, a: Quad): nat
    requires Proper(h)
  {
    FromBytes(seq(h.wlen, k requires 0 <= k < h.wlen => m(Home(h, a, k)) % 256))
  }

  /** The next few addresses: one step of wrapping at most, and only at a multiple of eight. */
  lemma CanonStep(h: Shape, a: Quad, d: nat)
    requires Canon(h, a) == a && d < 8
    ensures Canon(h, a + d) ==
      if a + d >= TWO64 then a + d - TWO64
      else if h.narrow && a < TWO31 <= a + d then a + d + (TWO64 - TWO32)
      else a + d
  {
    if h.narrow {
      SignExtendLow(a);
      assert a < TWO31 || a >= TWO64 - TWO31;
      if a < TWO31 {
        assert (a + d) % TWO32 == a + d;
      } else {
        var low := a - (TWO64 - TWO32);
        AddMultiple(if low + d < TWO32 then low + d else low + d - TWO32, TWO32 - if low + d < TWO32 then 1 else 0);
      }
    }
  }

  lemma Forwards(h: Shape, a: Quad, i: nat)
    requires Proper(h) && Canon(h, a) == a && i < h.wlen - a % h.wlen
    ensures Canon(h, a + i) == a + i
  {
    CanonStep(h, a, i);
  }

  lemma Backwards(h: Shape, a: Quad, i: nat)
    requires Proper(h) && Canon(h, a) == a && i < h.wlen && i <= Canon(h, a + h.wlen - 1) % h.wlen
    ensures Canon(h, a + (h.wlen - 1 - i)) == Canon(h, a + h.wlen - 1) - i
  {
    CanonStep(h, a, h.wlen - 1);
    CanonStep(h, a, h.wlen - 1 - i);
  }

  lemma Between(h: Shape, a: Quad, i: nat)
    requires Proper(h) && Canon(h, a) == a && i < h.wlen
    ensures i < h.wlen - a % h.wlen || h.wlen - 1 - i <= Canon(h, a + h.wlen - 1) % h.wlen
  {
    hide Canon;
    CanonStep(h, a, h.wlen - 1);
    SameOffset(a + h.wlen - 1, Canon(h, a + h.wlen - 1), h.wlen);
    LastOffset(a, h.wlen);
  }

  /** Wrapping, in either width, moves an address by whole words. */
  lemma SameOffset(x: int, y: int, wlen: nat)
    requires (wlen == 4 || wlen == 8) && (y == x || y == x - TWO64 || y == x + (TWO64 - TWO32))
    ensures x % wlen == y % wlen
  {
    var d := if y == x then 0 else if y < x then -TWO64 else TWO64 - TWO32;
    if wlen == 4 {
      DivMod4(y, x / 4 + d / 4, x % 4);
    } else {
      DivMod8(y, x / 8 + d / 8, x % 8);
    }
  }

  lemma LastOffset(a: nat, wlen: nat)
    requires wlen == 4 || wlen == 8
    ensures (a + wlen - 1) % wlen == if a % wlen == 0 then wlen - 1 else a % wlen - 1
  {
    var r := a % wlen;
    if wlen == 4 {
      DivMod4(a + 3, a / 4 + if r == 0 then 0 else 1, if r == 0 then 3 else r - 1);
    } else {
      DivMod8(a + 7, a / 8 + if r == 0 then 0 else 1, if r == 0 then 7 else r - 1);
    }
  }

  /** Together the two halves reach each byte at its own address, and one of them reaches it. */
  lemma HalvesMeet(h: Shape, a: Quad, k: nat)
    requires Proper(h) && Canon(h, a) == a && k < h.wlen
    ensures
      var l, r := End(h, true, a), End(h, false, a);
      && (h.wlen - 1 - k < Count(h, true, l) ==> At(h, true, l, h.wlen - 1 - k) == Home(h, a, k))
      && (k < Count(h, false, r) ==> At(h, false, r, k) == Home(h, a, k))
      && (h.wlen - 1 - k < Count(h, true, l) || k < Count(h, false, r))
  {
    hide Canon;
    var i := if h.big then h.wlen - 1 - k else k;
    if i < h.wlen - a % h.wlen { Forwards(h, a, i); }
    if h.wlen - 1 - i <= Canon(h, a + h.wlen - 1) % h.wlen { Backwards(h, a, h.wlen - 1 - i); }
    Between(h, a, i);
  }

  /** A left and a right load, in either order, give the unaligned word, whatever the register held. */
  lemma PairLoads(h: Shape, leftFirst: bool, m: Memory, a: Quad, value: Quad)
    requires Proper(h) && Canon(h, a) == a
    ensures
      var first := Loaded(h, leftFirst, m, End(h, leftFirst, a), value);
      var word := UnalignedWord(h, m, a);
      Loaded(h, !leftFirst, m, End(h, !leftFirst, a), first) == if h.wlen == 4 then SignExtend(word) else word
  {
    var first := Loaded(h, leftFirst, m, End(h, leftFirst, a), value);
    var last := Loaded(h, !leftFirst, m, End(h, !leftFirst, a), first);
    var word := UnalignedWord(h, m, a);
    var bytes := seq(h.wlen, k requires 0 <= k < h.wlen => m(Home(h, a, k)) % 256);
    forall k | 0 <= k < h.wlen ensures ByteAt(last, k) == ByteAt(word, k) {
      HalvesMeet(h, a, k);
      LoadedAt(h, leftFirst, m, End(h, leftFirst, a), value, k);
      LoadedAt(h, !leftFirst, m, End(h, !leftFirst, a), first, k);
      FromBytesAt(bytes, k);
    }
    if h.wlen == 4 {
      SignExtendBytes(last, word);
      SignExtendTwice(Filled(h, !leftFirst, m, End(h, !leftFirst, a), first, Count(h, !leftFirst, End(h, !leftFirst, a))));
    } else {
      SameBytes(last, word, 8);
      FromBytesWidth(bytes);
      LoadedWidth(h, leftFirst, m, End(h, leftFirst, a), value);
      LoadedWidth(h, !leftFirst, m, End(h, !leftFirst, a), first);
    }
  }

  lemma SignExtendTwice(x: nat)
    ensures SignExtend(SignExtend(x)) == SignExtend(x)
  {
    SignExtendLow(x);
  }

  lemma LoadedWidth(h: Shape, left: bool, m: Memory, a: Quad, value: Quad)
    requires Proper(h)
    ensures LowBytes(Loaded(h, left, m, a, value), 8) == Loaded(h, left, m, a, value) < TWO64
  {
    Width(value);
    FilledWidth(h, left, m, a, value, Count(h, left, a));
    Width(Loaded(h, left, m, a, value));
    Width(Filled(h, left, m, a, value, Count(h, left, a)));
  }

  // ----- stores

  lemma HomeInjective(h: Shape, a: Quad, j: nat, k: nat)
    requires Proper(h) && Canon(h, a) == a && j < h.wlen && k < h.wlen && Home(h, a, j) == Home(h, a, k)
    ensures j == k
  {
    hide Canon;
    CanonStep(h, a, if h.big then h.wlen - 1 - j else j);
    CanonStep(h, a, if h.big then h.wlen - 1 - k else k);
  }

  /** A byte that one half writes is a byte of the word, and gets the right part of the register. */
  lemma TouchesHome(h: Shape, left: bool, a: Quad, x: Quad, m: Memory, value: nat) returns (k: nat)
    requires Proper(h) && Canon(h, a) == a && Touches(h, left, End(h, left, a), x)
    ensures k < h.wlen && x == Home(h, a, k)
    ensures Stored(h, left, m, End(h, left, a), value, x) == ByteAt(value, k)
  {
    hide Canon, ByteAt;
    var e := End(h, left, a);
    var i := if Up(h, left) then x - e else e - x;
    WithinBlock(e, x, h.wlen);
    k := Lane(h, left, i);
    HalvesMeet(h, a, k);
    assert i < Count(h, left, e) && At(h, left, e, i) == x;
  }

  lemma WithinBlock(e: Quad, x: Quad, wlen: nat)
    requires (wlen == 4 || wlen == 8) && Block(x, wlen) == Block(e, wlen)
    ensures e <= x ==> x - e < wlen - e % wlen
    ensures x <= e ==> e - x <= e % wlen
  {
  }

  lemma HomeTouched(h: Shape, a: Quad, k: nat)
    requires Proper(h) && Canon(h, a) == a && k < h.wlen
    ensures Touches(h, true, End(h, true, a), Home(h, a, k)) || Touches(h, false, End(h, false, a), Home(h, a, k))
  {
    hide Canon;
    HalvesMeet(h, a, k);
    var l, r := End(h, true, a), End(h, false, a);
    if h.wlen - 1 - k < Count(h, true, l) {
      SameBlock(h, true, l, h.wlen - 1 - k);
    } else {
      SameBlock(h, false, r, k);
    }
  }

  lemma SameBlock(h: Shape, left: bool, e: Quad, i: nat)
    requires Proper(h) && i < Count(h, left, e)
    ensures Touches(h, left, e, At(h, left, e, i))
  {
    if Up(h, left) { BlockUp(e, h.wlen, i); } else { BlockDown(e, h.wlen, i); }
  }

  lemma BlockUp(a: Quad, wlen: nat, i: nat)
    requires (wlen == 4 || wlen == 8) && i < wlen - a % wlen
    ensures a + i < TWO64 && Block(a + i, wlen) == Block(a, wlen)
  {
    if wlen == 4 {
      DivMod4(a + i, a / 4, a % 4 + i);
    } else {
      DivMod8(a + i, a / 8, a % 8 + i);
    }
  }

  lemma BlockDown(a: Quad, wlen: nat, i: nat)
    requires (wlen == 4 || wlen == 8) && i <= a % wlen
    ensures a >= i && Block(a - i, wlen) == Block(a, wlen)
  {
    if wlen == 4 {
      DivMod4(a - i, a / 4, a % 4 - i);
    } else {
      DivMod8(a - i, a / 8, a % 8 - i);
    }
  }

  /** `m2` is `m` with the word at `a` replaced by the low bytes of `value`. */
  ghost predicate WordStored(h: Shape, m: Memory, m2: Memory, a: Quad, value: nat)
    requires Proper(h)
  {
    && (forall k :: 0 <= k < h.wlen ==> m2(Home(h, a, k)) == ByteAt(value, k))
    && (forall x: Quad :: (forall k :: 0 <= k < h.wlen ==> x != Home(h, a, k)) ==> m2(x) == m(x))
  }

  ghost predicate HalfStored(h: Shape, left: bool, m: Memory, m1: Memory, a: Quad, value: nat)
    requires Proper(h)
  {
    forall x: Quad :: m1(x) == Stored(h, left, m, End(h, left, a), value, x)
  }

  /** A left and a right store, in either order, write exactly the bytes of the unaligned word. */
  lemma PairStores(h: Shape, leftFirst: bool, m: Memory, m1: Memory, m2: Memory, a: Quad, value: nat)
    requires Proper(h) && Canon(h, a) == a
    requires HalfStored(h, leftFirst, m, m1, a, value) && HalfStored(h, !leftFirst, m1, m2, a, value)
    ensures WordStored(h, m, m2, a, value)
  {
    forall k | 0 <= k < h.wlen ensures m2(Home(h, a, k)) == ByteAt(value, k) {
      HomeStored(h, leftFirst, m, m1, m2, a, value, k);
    }
    forall x: Quad | forall k :: 0 <= k < h.wlen ==> x != Home(h, a, k) ensures m2(x) == m(x) {
      ElsewhereKept(h, leftFirst, m, m1, m2, a, value, x);
    }
  }

  lemma HomeStored(h: Shape, leftFirst: bool, m: Memory, m1: Memory, m2: Memory, a: Quad, value: nat, k: nat)
    requires Proper(h) && Canon(h, a) == a && k < h.wlen
    requires HalfStored(h, leftFirst, m, m1, a, value) && HalfStored(h, !leftFirst, m1, m2, a, value)
    ensures m2(Home(h, a, k)) == ByteAt(value, k)
  {
    hide Canon, ByteAt, Touches, End, Home;
    var x := Home(h, a, k);
    HomeTouched(h, a, k);
    if Touches(h, !leftFirst, End(h, !leftFirst, a), x) {
      var j := TouchesHome(h, !leftFirst, a, x, m1, value);
      HomeInjective(h, a, j, k);
    } else {
      var j := TouchesHome(h, leftFirst, a, x, m, value);
      HomeInjective(h, a, j, k);
    }
  }

  lemma ElsewhereKept(h: Shape, leftFirst: bool, m: Memory, m1: Memory, m2: Memory, a: Quad, value: nat, x: Quad)
    requires Proper(h) && Canon(h, a) == a && forall k :: 0 <= k < h.wlen ==> x != Home(h, a, k)
    requires HalfStored(h, leftFirst, m, m1, a, value) && HalfStored(h, !leftFirst, m1, m2, a, value)
    ensures m2(x) == m(x)
  {
    hide Canon, ByteAt, Touches, End, Home;
    if Touches(h, !leftFirst, End(h, !leftFirst, a), x) {
      var k := TouchesHome(h, !leftFirst, a, x, m1, value);
      assert false;
    } else if Touches(h, leftFirst, End(h, leftFirst, a), x) {
      var k := TouchesHome(h, leftFirst, a, x, m, value);
      assert false;
    }
  }

  /** What a store pair puts there, a load pair brings back. */
  lemma StoreThenLoad(h: Shape, m: Memory, m2: Memory, a: Quad, value: Quad)
    requires Proper(h) && WordStored(h, m, m2, a, value)
    ensures
      var word := UnalignedWord(h, m2, a);
      if h.wlen == 4 then SignExtend(word) == SignExtend(value) else word == value
  {
    hide ByteAt, FromBytes, LowBytes, SignExtend, Canon;
    var word := UnalignedWord(h, m2, a);
    var bytes := seq(h.wlen, k requires 0 <= k < h.wlen => m2(Home(h, a, k)) % 256);
    forall k | 0 <= k < h.wlen ensures ByteAt(word, k) == ByteAt(value, k) {
      assert m2(Home(h, a, k)) == ByteAt(value, k);
      FromBytesAt(bytes, k);
    }
    if h.wlen == 4 {
      SignExtendBytes(word, value);
    } else {
      SameBytes(word, value, 8);
      FromBytesWidth(bytes);
      Width(value);
    }
  }

  // ----- the instructions in place

  /** Which aligned words can be read and written without an exception. */
  datatype Access = Access(readable: Quad -> bool, writable: Quad -> bool)

  ghost predicate BlockWritten(m: Memory, m': Memory, aligned: Quad, bytes: seq<nat>) {
    forall x: Quad :: m'(x) == if aligned <= x < aligned + |bytes| then bytes[x - aligned] else m(x)
  }

  class Cpu {
    const big: bool
    const narrow: bool
    const access: Access
    var gpr: seq<Quad>
    var mem: Memory

    ghost predicate Valid()
      reads this
    {
      |gpr| == 32 && forall x: Quad :: mem(x) < 256
    }

    constructor (big: bool, narrow: bool, access: Access, gpr: seq<Quad>, mem: Memory)
      requires |gpr| == 32 && forall x: Quad :: mem(x) < 256
      ensures Valid() && this.big == big && this.narrow == narrow && this.access == access
      ensures this.gpr == gpr && this.mem == mem
    {
      this.big, this.narrow, this.access, this.gpr, this.mem := big, narrow, access, gpr, mem;
    }

    method ReadBlock(aligned: Quad, wlen: nat) returns (word: array<nat>)
      requires Valid() && (wlen == 4 || wlen == 8) && aligned % wlen == 0
      ensures fresh(word) && word.Length == 8
      ensures forall i :: 0 <= i < 8 ==> word[i] < 256
      ensures forall i :: 0 <= i < wlen ==> word[i] == mem(aligned + i)
    {
      word := new nat[8](i => 0);
      for i := 0 to wlen
        invariant forall j :: 0 <= j < 8 ==> word[j] < 256
        invariant forall j :: 0 <= j < i ==> word[j] == mem(aligned + j)
      {
        word[i] := mem(aligned + i);
      }
    }

    method WriteBlock(aligned: Quad, wlen: nat, word: array<nat>)
      requires Valid() && (wlen == 4 || wlen == 8) && aligned % wlen == 0 && word.Length == 8
      requires forall i :: 0 <= i < wlen ==> word[i] < 256
      modifies `mem
      ensures Valid()
      ensures BlockWritten(old(mem), mem, aligned, word[..wlen])
    {
      var bytes, m := word[..wlen], mem;
      mem := (x: Quad) => if aligned <= x < aligned + |bytes| then bytes[x - aligned] else m(x);
    }

    function Operand(x: Quad): Quad { if narrow then SignExtend(x) else x }

    /** One instruction. `raw` is the base register plus the offset, in 64 bits. */
    method LoadStore(rt: nat, raw: Quad, left: bool, wlen: nat, store: bool) returns (ok: bool)
      requires Valid() && rt < 32 && Proper(Shape(big, narrow, wlen))
      modifies `gpr, `mem
      ensures Valid()
      ensures var a := Operand(raw);
        ok <==> access.readable(Block(a, wlen)) && (store ==> access.writable(Block(a, wlen)))
      ensures store || !ok ==> gpr == old(gpr)
      ensures !store || !ok ==> mem == old(mem)
      ensures ok && !store ==>
        Loaded(Shape(big, narrow, wlen), left, mem, Operand(raw), Operand(old(gpr)[rt])) < TWO64 &&
        gpr == old(gpr)[rt := Loaded(Shape(big, narrow, wlen), left, mem, Operand(raw), Operand(old(gpr)[rt]))]
      ensures ok && store ==>
        forall x: Quad :: mem(x) == Stored(Shape(big, narrow, wlen), left, old(mem), Operand(raw), Operand(old(gpr)[rt]), x)
    {
      hide SignExtend, Filled, Patched, Touches, Loaded, Stored, Block, Count, BlockWritten;
      var addr := raw;
      var up := if left then true else false;
      if !big { up := !up; }
      var value := gpr[rt];
      var aligned := Block(raw, wlen);
      if narrow {
        value := SignExtend(value);
        AlignedCanon(raw, wlen);
        aligned := SignExtend(aligned);
        addr := SignExtend(addr);
      }
      if !access.readable(aligned) { return false; }
      BlockAligned(addr, wlen);
      var word := ReadBlock(aligned, wlen);
      if store {
        ghost var before := mem;
        assert forall j :: 0 <= j < wlen ==> word[j] == before(InBlock(addr, wlen, j));
        StoreLoop(Shape(big, narrow, wlen), left, up, addr, value, word);
        ghost var bytes := word[..wlen];
        assert forall j :: 0 <= j < wlen ==>
          var x := InBlock(addr, wlen, j);
          bytes[j] == Patched(Shape(big, narrow, wlen), left, addr, value, x, before(x));
        if !access.writable(aligned) { return false; }
        WriteBlock(aligned, wlen, word);
        StoreDone(Shape(big, narrow, wlen), left, before, mem, addr, value, bytes);
        return true;
      }
      var result := LoadLoop(Shape(big, narrow, wlen), left, up, addr, value, word, mem);
      LoadedWidth(Shape(big, narrow, wlen), left, mem, addr, value);
      LoadedIs(Shape(big, narrow, wlen), left, mem, addr, value);
      if wlen == 4 { result := SignExtend(result); }
      gpr := gpr[rt := result];
      return true;
    }

    /** A pair of loads, in either order, into a register other than the base. */
    method LoadPair(rt: nat, a: Quad, leftFirst: bool, wlen: nat) returns (ok: bool)
      requires Valid() && rt < 32 && Proper(Shape(big, narrow, wlen)) && Canon(Shape(big, narrow, wlen), a) == a
      modifies `gpr, `mem
      ensures Valid() && mem == old(mem)
      ensures ok <==> forall left :: access.readable(Block(End(Shape(big, narrow, wlen), left, a), wlen))
      ensures ok ==>
        var word := UnalignedWord(Shape(big, narrow, wlen), mem, a);
        word < TWO64 && gpr == old(gpr)[rt := if wlen == 4 then SignExtend(word) else word]
    {
      hide Loaded, UnalignedWord, Stored, End, SignExtend;
      var h := Shape(big, narrow, wlen);
      EndsCanon(h, a);
      UnalignedWidth(h, mem, a);
      ok := LoadStore(rt, End(h, leftFirst, a), leftFirst, wlen, false);
      if ok {
        ghost var value := Operand(old(gpr)[rt]);
        ghost var first := gpr[rt];
        ok := LoadStore(rt, End(h, !leftFirst, a), !leftFirst, wlen, false);
        if ok {
          OperandKept(h, leftFirst, mem, End(h, leftFirst, a), value);
          PairLoads(h, leftFirst, mem, a, value);
        }
      }
    }

    /** A pair of stores, in either order. */
    method StorePair(rt: nat, a: Quad, leftFirst: bool, wlen: nat) returns (ok: bool)
      requires Valid() && rt < 32 && Proper(Shape(big, narrow, wlen)) && Canon(Shape(big, narrow, wlen), a) == a
      modifies `gpr, `mem
      ensures Valid() && gpr == old(gpr)
      ensures ok <==> forall left ::
        var end := Block(End(Shape(big, narrow, wlen), left, a), wlen);
        access.readable(end) && access.writable(end)
      ensures ok ==> WordStored(Shape(big, narrow, wlen), old(mem), mem, a, Operand(gpr[rt]))
    {
      hide Loaded, Stored, End, SignExtend, WordStored;
      var h := Shape(big, narrow, wlen);
      EndsCanon(h, a);
      ghost var m := mem;
      ok := LoadStore(rt, End(h, leftFirst, a), leftFirst, wlen, true);
      if ok {
        ghost var m1 := mem;
        ok := LoadStore(rt, End(h, !leftFirst, a), !leftFirst, wlen, true);
        if ok { PairStores(h, leftFirst, m, m1, mem, a, Operand(gpr[rt])); }
      }
    }
  }

  lemma EndsCanon(h: Shape, a: Quad)
    requires Proper(h) && Canon(h, a) == a
    ensures h.narrow ==> forall left :: SignExtend(End(h, left, a)) == End(h, left, a)
  {
    SignExtendLow(a);
    SignExtendLow((a + h.wlen - 1) % TWO32);
  }

  lemma UnalignedWidth(h: Shape, m: Memory, a: Quad)
    requires Proper(h)
    ensures UnalignedWord(h, m, a) < TWO64
  {
    var bytes := seq(h.wlen, k requires 0 <= k < h.wlen => m(Home(h, a, k)) % 256);
    FromBytesWidth(bytes);
    Width(UnalignedWord(h, m, a));
    Width4(UnalignedWord(h, m, a));
  }

  /** On a 32-bit processor a loaded register needs no further sign extension. */
  lemma OperandKept(h: Shape, left: bool, m: Memory, a: Quad, value: Quad)
    requires Proper(h)
    ensures h.narrow ==> SignExtend(Loaded(h, left, m, a, value)) == Loaded(h, left, m, a, value)
  {
    if h.narrow { SignExtendTwice(Filled(h, left, m, a, value, Count(h, left, a))); }
  }

  lemma BlockAligned(a: Quad, wlen: nat)
    requires wlen == 4 || wlen == 8
    ensures Block(a, wlen) % wlen == 0
  {
  }

  lemma LoadedIs(h: Shape, left: bool, m: Memory, a: Quad, value: Quad)
    requires Proper(h)
    ensures
      var filled := Filled(h, left, m, a, value, Count(h, left, a));
      Loaded(h, left, m, a, value) == if h.wlen == 4 then SignExtend(filled) else filled
  {
  }

  lemma StoreDone(h: Shape, left: bool, m: Memory, m': Memory, a: Quad, value: Quad, word: seq<nat>)
    requires Proper(h) && |word| == h.wlen
    requires forall j :: 0 <= j < h.wlen ==>
      word[j] == Patched(h, left, a, value, InBlock(a, h.wlen, j), m(InBlock(a, h.wlen, j)))
    requires BlockWritten(m, m', Block(a, h.wlen), word)
    ensures forall x: Quad :: m'(x) == Stored(h, left, m, a, value, x)
  {
    forall x: Quad ensures m'(x) == Stored(h, left, m, a, value, x) {
      if Block(a, h.wlen) <= x < Block(a, h.wlen) + h.wlen {
        assert x == InBlock(a, h.wlen, x - Block(a, h.wlen));
      } else {
        StoredOutside(h, left, m, a, value, x);
      }
    }
  }

  lemma AlignedCanon(raw: Quad, wlen: nat)
    requires wlen == 4
    ensures SignExtend(Block(raw, wlen)) == Block(SignExtend(raw), wlen)
  {
    var low, b := raw % TWO32, Block(raw, wlen);
    var r := low % 4;
    DivMod4(raw, raw / TWO32 * (TWO32 / 4) + low / 4, r);
    SameWord(b, raw / TWO32, low - r);
    DivMod4(low + (TWO64 - TWO32), low / 4 + (TWO64 - TWO32) / 4, r);
  }

  lemma SameWord(x: nat, q: nat, low: nat)
    requires x == q * TWO32 + low && low < TWO32
    ensures x % TWO32 == low
  {
  }

  lemma StoredOutside(h: Shape, left: bool, m: Memory, a: Quad, value: Quad, x: Quad)
    requires Proper(h) && !(Block(a, h.wlen) <= x < Block(a, h.wlen) + h.wlen)
    ensures Stored(h, left, m, a, value, x) == m(x)
  {
  }

  /** The address of byte `i`, and whether it is still in the same aligned word. */
  function Next(a: Quad, up: bool, i: nat): Quad {
    (if up then a + i else a + TWO64 - i) % TWO64
  }

  lemma NextUp(a: Quad, wlen: nat, i: nat)
    requires (wlen == 4 || wlen == 8) && i <= wlen - a % wlen
    ensures i < wlen - a % wlen ==> Next(a, true, i) == a + i && Block(a + i, wlen) == Block(a, wlen)
    ensures i == wlen - a % wlen ==> Block(Next(a, true, i), wlen) != Block(a, wlen)
  {
    if i < wlen - a % wlen {
      BlockUp(a, wlen, i);
    } else if a + i < TWO64 {
      assert Next(a, true, i) == a + i;
    }
  }

  lemma NextDown(a: Quad, wlen: nat, i: nat)
    requires (wlen == 4 || wlen == 8) && i <= a % wlen + 1
    ensures i <= a % wlen ==> Next(a, false, i) == a - i && Block(a - i, wlen) == Block(a, wlen)
    ensures i == a % wlen + 1 ==> Block(Next(a, false, i), wlen) != Block(a, wlen)
  {
    if i <= a % wlen {
      BlockDown(a, wlen, i);
    } else if i <= a {
      assert Next(a, false, i) == a - i;
    } else {
      assert Next(a, false, i) == TWO64 - 1;
    }
  }

  lemma NextInBlock(h: Shape, left: bool, a: Quad, i: nat)
    requires Proper(h) && i <= Count(h, left, a)
    ensures i < Count(h, left, a) ==> Next(a, Up(h, left), i) == At(h, left, a, i)
    ensures i < Count(h, left, a) ==> Block(At(h, left, a, i), h.wlen) == Block(a, h.wlen)
    ensures i == Count(h, left, a) ==> Block(Next(a, Up(h, left), i), h.wlen) != Block(a, h.wlen)
  {
    if Up(h, left) { NextUp(a, h.wlen, i); } else { NextDown(a, h.wlen, i); }
  }

  method LoadLoop(h: Shape, left: bool, up: bool, a: Quad, value: Quad, word: array<nat>, ghost m: Memory)
    returns (result: nat)
    requires Proper(h) && up == Up(h, left) && word.Length == 8
    requires forall i :: 0 <= i < h.wlen ==> word[i] == m(Block(a, h.wlen) + i) < 256
    ensures result == Filled(h, left, m, a, value, Count(h, left, a))
  {
    hide Next, Block, At, Filled;
    result := value;
    var ofs := if left then h.wlen - 1 else 0;
    FilledNone(h, left, m, a, value);
    for i := 0 to h.wlen
      invariant i <= Count(h, left, a)
      invariant result == Filled(h, left, m, a, value, i)
      invariant ofs == if left then h.wlen - 1 - i else i
    {
      NextInBlock(h, left, a, i);
      var tmp := Next(a, up, i);
      if Block(tmp, h.wlen) != Block(a, h.wlen) { break; }
      BlockIs(tmp, h.wlen);
      result := PutByte(result, ofs, word[tmp % h.wlen] % 256);
      FilledMore(h, left, m, a, value, i);
      ofs := if left then ofs - 1 else ofs + 1;
    }
  }

  lemma BlockIs(x: Quad, wlen: nat)
    requires wlen == 4 || wlen == 8
    ensures Block(x, wlen) + x % wlen == x
  {
  }

  lemma FilledNone(h: Shape, left: bool, m: Memory, a: Quad, value: nat)
    requires Proper(h)
    ensures Filled(h, left, m, a, value, 0) == value
  {
  }

  lemma FilledMore(h: Shape, left: bool, m: Memory, a: Quad, value: nat, n: nat)
    requires Proper(h) && n < Count(h, left, a)
    ensures Filled(h, left, m, a, value, n + 1) ==
      PutByte(Filled(h, left, m, a, value, n), Lane(h, left, n), m(At(h, left, a, n)) % 256)
  {
  }

  /** Byte `j` of the word after `i` rounds that started at byte `p`. */
  function Reached(h: Shape, left: bool, value: Quad, j: nat, p: nat, i: nat, was: nat): nat
    requires Proper(h) && i <= h.wlen
  {
    var d := if Up(h, left) then j - p else p - j;
    if 0 <= d < i then ByteAt(value, Lane(h, left, d)) else was
  }

  /** The store loop, on the word that was read. */
  method StoreLoop(h: Shape, left: bool, up: bool, a: Quad, value: Quad, word: array<nat>)
    requires Proper(h) && up == Up(h, left) && word.Length == 8
    requires forall j :: 0 <= j < 8 ==> word[j] < 256
    modifies word
    ensures forall j :: 0 <= j < 8 ==> word[j] < 256
    ensures forall j :: 0 <= j < h.wlen ==>
      word[j] == Patched(h, left, a, value, InBlock(a, h.wlen, j), old(word[j]))
  {
    hide Next, ByteAt, At, Block, Patched, InBlock;
    var ofs := if left then h.wlen - 1 else 0;
    var p := a % h.wlen;
    var i := 0;
    while i < h.wlen
      invariant i <= Count(h, left, a)
      invariant ofs == if left then h.wlen - 1 - i else i
      invariant forall j :: 0 <= j < 8 ==> word[j] < 256
      invariant forall j :: 0 <= j < h.wlen ==> word[j] == Reached(h, left, value, j, p, i, old(word[j]))
    {
      NextInBlock(h, left, a, i);
      var tmp := Next(a, up, i);
      if Block(tmp, h.wlen) != Block(a, h.wlen) { break; }
      AtOffset(h, left, a, i);
      word[tmp % h.wlen] := ByteAt(value, ofs);
      ofs := if left then ofs - 1 else ofs + 1;
      i := i + 1;
    }
    forall j | 0 <= j < h.wlen
      ensures word[j] == Patched(h, left, a, value, InBlock(a, h.wlen, j), old(word[j]))
    {
      ReachedIs(h, left, a, value, j, i, old(word[j]));
    }
  }

  lemma AtOffset(h: Shape, left: bool, a: Quad, i: nat)
    requires Proper(h) && i < Count(h, left, a)
    ensures At(h, left, a, i) % h.wlen == if Up(h, left) then a % h.wlen + i else a % h.wlen - i
  {
    var x, q, r := At(h, left, a, i), a / h.wlen, a % h.wlen;
    if h.wlen == 4 {
      DivMod4(x, q, if Up(h, left) then r + i else r - i);
    } else {
      DivMod8(x, q, if Up(h, left) then r + i else r - i);
    }
  }

  /** The rounds of the loop reach the bytes of the word that the store touches. */
  lemma ReachedIs(h: Shape, left: bool, a: Quad, value: Quad, j: nat, i: nat, was: nat)
    requires Proper(h) && j < h.wlen && i == Count(h, left, a)
    ensures Reached(h, left, value, j, a % h.wlen, i, was) == Patched(h, left, a, value, InBlock(a, h.wlen, j), was)
  {
    hide ByteAt;
    PositionOf(a, InBlock(a, h.wlen, j), h.wlen);
  }

  lemma PositionOf(a: Quad, x: Quad, wlen: nat)
    requires (wlen == 4 || wlen == 8) && Block(a, wlen) <= x < Block(a, wlen) + wlen
    ensures x - Block(a, wlen) == x % wlen && Block(x, wlen) == Block(a, wlen)
    ensures x - a == x % wlen - a % wlen
  {
    var q, d := a / wlen, x - Block(a, wlen);
    if wlen == 4 {
      DivMod4(x, q, d);
    } else {
      DivMod8(x, q, d);
    }
  }
}
