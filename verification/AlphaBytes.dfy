/**
 Alpha byte manipulation: the insert, extract and mask instructions, and the sequences built from them
 that load and store unaligned data with aligned quadword accesses only.
 */
module AlphaBytes {
  import opened Bits
  import opened Bytes

  type Quad = x: nat | x < TWO64

  type Octet = b: nat | b < 256

  type Memory = Quad -> Octet

  // ----- 64-bit operations

  /** `x << n`, dropping what leaves the word. */
  function Shl(x: Quad, n: nat): Quad
    decreases n
  {
    if n == 0 then x else Shl(2 * x % TWO64, n - 1)
  }

  lemma EightBits(x: nat)
    ensures Pow2(8) == 256 && Shr(x, 8) == x / 256 && Low(x, 8) == x % 256
  {
    assert x / 2 / 2 / 2 / 2 / 2 / 2 / 2 / 2 == x / 256;
    LowStep(x, 7);
    LowStep(x / 2, 6);
    LowStep(x / 4, 5);
    LowStep(x / 8, 4);
    LowStep(x / 16, 3);
    LowStep(x / 32, 2);
    LowStep(x / 64, 1);
    LowStep(x / 128, 0);
  }

  lemma LowStep(x: nat, k: nat)
    ensures Low(x, k + 1) == 2 * Low(x / 2, k) + x % 2
    ensures Shr(x, k + 1) == Shr(x / 2, k)
  {
  }

  lemma {:induction false} BitwiseByte(g: Gate, x: nat, y: nat, k: nat)
    ensures ByteAt(Bitwise(g, x, y), k) == Bitwise(g, ByteAt(x, k), ByteAt(y, k))
    decreases k
  {
    hide Bitwise, Shr, Low;
    BitwiseSplits(g, x, y, 8);
    EightBits(x);
    EightBits(y);
    EightBits(Bitwise(g, x, y));
    if k > 0 { BitwiseByte(g, x / 256, y / 256, k - 1); }
  }

  lemma {:induction false} ShrByte(x: nat, r: nat, k: nat)
    ensures ByteAt(Shr(x, 8 * r), k) == ByteAt(x, k + r)
    decreases r
  {
    if r == 0 {
      assert Shr(x, 0) == x;
    } else {
      hide Shr;
      ShrShr(x, 8, 8 * (r - 1));
      EightBits(x);
      ShrByte(x / 256, r - 1, k);
    }
  }

  lemma {:induction false} ShlShl(x: Quad, a: nat, b: nat)
    ensures Shl(Shl(x, a), b) == Shl(x, a + b)
    decreases a
  {
    if a > 0 { ShlShl(2 * x % TWO64, a - 1, b); }
  }

  lemma ShlTwo(p: nat, n: nat)
    requires n > 0
    ensures Shl(p % TWO64, n) == Shl(2 * p % TWO64, n - 1)
  {
    var q, r := p / TWO64, p % TWO64;
    if 2 * r < TWO64 {
      DivModWord(2 * p, 2 * q, 2 * r);
    } else {
      DivModWord(2 * p, 2 * q + 1, 2 * r - TWO64);
    }
  }

  lemma DivModWord(x: nat, q: nat, r: nat)
    requires x == TWO64 * q + r && r < TWO64
    ensures x % TWO64 == r
  {
  }

  lemma ShlNone(x: Quad)
    ensures Shl(x, 0) == x
  {
  }

  lemma ShlEight(x: Quad)
    ensures Shl(x, 8) == 256 * x % TWO64
  {
    hide Shl;
    ShlNone(256 * x % TWO64);
    assert x % TWO64 == x;
    ShlTwo(x, 8);
    ShlTwo(2 * x, 7);
    ShlTwo(4 * x, 6);
    ShlTwo(8 * x, 5);
    ShlTwo(16 * x, 4);
    ShlTwo(32 * x, 3);
    ShlTwo(64 * x, 2);
    ShlTwo(128 * x, 1);
  }

  lemma ShlEightByte(x: Quad, k: nat)
    requires k < 8
    ensures ByteAt(Shl(x, 8), k) == if k == 0 then 0 else ByteAt(x, k - 1)
  {
    ShlEight(x);
    Width8(256 * x);
    LowBytesAt(256 * x, 8, k);
    assert 256 * x / 256 == x;
  }

  lemma {:induction false} ShlByte(x: Quad, r: nat, k: nat)
    requires k < 8
    ensures ByteAt(Shl(x, 8 * r), k) == if k < r then 0 else ByteAt(x, k - r)
    decreases r
  {
    if r > 0 {
      ShlShl(x, 8 * (r - 1), 8);
      ShlEightByte(Shl(x, 8 * (r - 1)), k);
      if k > 0 { ShlByte(x, r - 1, k - 1); }
    }
  }

  lemma BitwiseWord(g: Gate, x: Quad, y: Quad)
    ensures Bitwise(g, x, y) < TWO64
  {
    Powers();
    BitwiseSmall(g, x, y, 64);
  }

  lemma {:induction false} ShrSmaller(x: nat, n: nat)
    ensures Shr(x, n) <= x
    decreases n
  {
    if n > 0 { ShrSmaller(x / 2, n - 1); }
  }

  /** `g(x, y)` on words. */
  function Gated(g: Gate, x: Quad, y: Quad): Quad {
    BitwiseWord(g, x, y);
    Bitwise(g, x, y)
  }

  function ShiftRight(x: Quad, n: nat): Quad {
    ShrSmaller(x, n);
    Shr(x, n)
  }

  // ----- the instructions

  datatype Width = B | W | L | Q

  function Size(w: Width): (n: nat)
    ensures 1 <= n <= 8
  {
    match w
    case B => 1
    case W => 2
    case L => 4
    case Q => 8
  }

  function MaskOf(w: Width): Quad {
    match w
    case B => 0xff
    case W => 0xffff
    case L => 0xffff_ffff
    case Q => 0xffff_ffff_ffff_ffff
  }

  function InsLow(w: Width, x: Quad, b: Quad): Quad {
    Shl(Gated(And, x, MaskOf(w)), b % 8 * 8)
  }

  function InsHigh(w: Width, x: Quad, b: Quad): Quad {
    var r := 64 - b % 8 * 8;
    if r == 64 then 0 else ShiftRight(Gated(And, x, MaskOf(w)), r)
  }

  function ExtLow(w: Width, x: Quad, b: Quad): Quad {
    Gated(And, ShiftRight(x, b % 8 * 8), MaskOf(w))
  }

  function ExtHigh(w: Width, x: Quad, b: Quad): Quad {
    var r := 64 - b % 8 * 8;
    Gated(And, if r != 64 then Shl(x, r) else x, MaskOf(w))
  }

  function MskLow(w: Width, x: Quad, b: Quad): Quad {
    Gated(AndNot, x, Shl(MaskOf(w), b % 8 * 8))
  }

  function MskHigh(w: Width, x: Quad, b: Quad): Quad {
    var r := b % 8 * 8;
    Gated(AndNot, x, if r == 0 then 0 else ShiftRight(MaskOf(w), 64 - r))
  }

  // ----- what they do to bytes

  lemma GatedByte(g: Gate, x: Quad, y: Quad, k: nat)
    ensures ByteAt(Gated(g, x, y), k) == Bitwise(g, ByteAt(x, k), ByteAt(y, k))
  {
    BitwiseByte(g, x, y, k);
  }

  lemma ByteGates(b: Octet)
    ensures Bitwise(And, b, 255) == b && Bitwise(And, b, 0) == 0
    ensures Bitwise(Or, b, 0) == b && Bitwise(Or, 0, b) == b && Bitwise(Or, b, b) == b
    ensures Bitwise(AndNot, b, 0) == b && Bitwise(AndNot, b, 255) == 0
  {
    Powers();
    Gates(b, 8);
  }

  function Ones(n: nat): nat { if n == 0 then 0 else 255 + 256 * Ones(n - 1) }

  lemma {:induction false} OnesByte(n: nat, k: nat)
    ensures ByteAt(Ones(n), k) == if k < n then 255 else 0
  {
    if n == 0 {
      ZeroByte(k);
    } else if k > 0 {
      assert Ones(n) / 256 == Ones(n - 1);
      OnesByte(n - 1, k - 1);
    }
  }

  lemma {:induction false} ZeroByte(k: nat)
    ensures ByteAt(0, k) == 0
  {
    if k > 0 { ZeroByte(k - 1); }
  }

  lemma MaskByte(w: Width, k: nat)
    ensures ByteAt(MaskOf(w), k) == if k < Size(w) then 255 else 0
  {
    assert MaskOf(w) == Ones(Size(w)) by {
      assert Ones(2) == 0xffff && Ones(4) == 0xffff_ffff && Ones(8) == 0xffff_ffff_ffff_ffff;
    }
    OnesByte(Size(w), k);
  }

  lemma BeyondWord(x: Quad, k: nat)
    requires k >= 8
    ensures ByteAt(x, k) == 0
  {
    Powers();
    ShrBound(x, 64, 0);
    ShrByte(x, 8, k - 8);
    ZeroByte(k - 8);
  }

  lemma ShiftRightByte(x: Quad, r: nat, k: nat)
    ensures ByteAt(ShiftRight(x, r * 8), k) == if k + r < 8 then ByteAt(x, k + r) else 0
  {
    ShrByte(x, r, k);
    if k + r >= 8 { BeyondWord(x, k + r); }
  }

  lemma ExtLowByte(w: Width, x: Quad, b: Quad, k: nat)
    ensures ByteAt(ExtLow(w, x, b), k) == if k < Size(w) && k + b % 8 < 8 then ByteAt(x, k + b % 8) else 0
  {
    hide Shl, Bitwise, ByteAt, Gated, ShiftRight, MaskOf;
    var r := b % 8;
    var y := ShiftRight(x, r * 8);
    GatedByte(And, y, MaskOf(w), k);
    ShiftRightByte(x, r, k);
    MaskByte(w, k);
    ByteGates(ByteAt(y, k));
  }

  lemma {:induction false} LowBytesAbove(x: nat, n: nat, k: nat)
    requires n <= k
    ensures ByteAt(LowBytes(x, n), k) == 0
  {
    if n == 0 {
      ZeroByte(k);
    } else {
      assert LowBytes(x, n) / 256 == LowBytes(x / 256, n - 1);
      LowBytesAbove(x / 256, n - 1, k - 1);
    }
  }

  /** What the four widths are: extracted at an aligned address, one, two, four or eight bytes. */
  lemma WidthsMean(x: Quad, b: Quad)
    requires b % 8 == 0
    ensures ExtLow(B, x, b) == x % 0x100 && ExtLow(W, x, b) == x % 0x1_0000
    ensures ExtLow(L, x, b) == x % 0x1_0000_0000 && ExtLow(Q, x, b) == x
  {
    hide ExtLow, LowBytes;
    AlignedExtract(B, x, b);
    AlignedExtract(W, x, b);
    AlignedExtract(L, x, b);
    AlignedExtract(Q, x, b);
    LowOne(x, 0);
    LowTwo(x, 0);
    LowNone(x / 0x1_0000);
    LowNone(x / 256);
    Width4(x);
    Width8(x);
  }

  lemma LowNone(x: nat)
    ensures LowBytes(x, 0) == 0
  {
  }

  lemma LowOne(x: nat, k: nat)
    ensures LowBytes(x, k + 1) == x % 256 + 256 * LowBytes(x / 256, k)
  {
  }

  lemma AlignedExtract(w: Width, x: Quad, b: Quad)
    requires b % 8 == 0
    ensures ExtLow(w, x, b) == LowBytes(x, Size(w))
  {
    hide ExtLow, LowBytes, ByteAt;
    var r, low := ExtLow(w, x, b), LowBytes(x, Size(w));
    forall k | 0 <= k < 8 ensures ByteAt(r, k) == ByteAt(low, k) {
      ExtLowByte(w, x, b, k);
      if k < Size(w) { LowBytesAt(x, Size(w), k); } else { LowBytesAbove(x, Size(w), k); }
    }
    SameBytes(r, low, 8);
    Width8(r);
    LowTwice(x, Size(w), 8);
  }

  lemma {:induction false} LowTwice(x: nat, n: nat, k: nat)
    requires n <= k
    ensures LowBytes(LowBytes(x, n), k) == LowBytes(x, n)
  {
    if n == 0 {
      LowZero(k);
    } else {
      assert LowBytes(x, n) / 256 == LowBytes(x / 256, n - 1);
      LowTwice(x / 256, n - 1, k - 1);
    }
  }

  lemma ExtHighByte(w: Width, x: Quad, b: Quad, k: nat)
    requires k < 8
    ensures ByteAt(ExtHigh(w, x, b), k) ==
      if k >= Size(w) then 0
      else if b % 8 == 0 then ByteAt(x, k)
      else if k + b % 8 < 8 then 0 else ByteAt(x, k + b % 8 - 8)
  {
    hide Shl, Bitwise, ByteAt, Gated, ShiftRight, MaskOf;
    var r := b % 8;
    var y := if r != 0 then Shl(x, 8 * (8 - r)) else x;
    GatedByte(And, y, MaskOf(w), k);
    if r != 0 { ShlByte(x, 8 - r, k); }
    MaskByte(w, k);
    ByteGates(ByteAt(y, k));
  }

  lemma InsLowByte(w: Width, x: Quad, b: Quad, k: nat)
    requires k < 8
    ensures ByteAt(InsLow(w, x, b), k) == if b % 8 <= k < b % 8 + Size(w) then ByteAt(x, k - b % 8) else 0
  {
    hide Shl, Bitwise, ByteAt, Gated, ShiftRight, MaskOf;
    var r := b % 8;
    var y := Gated(And, x, MaskOf(w));
    ShlByte(y, r, k);
    if r <= k {
      GatedByte(And, x, MaskOf(w), k - r);
      MaskByte(w, k - r);
      ByteGates(ByteAt(x, k - r));
    }
  }

  lemma InsHighByte(w: Width, x: Quad, b: Quad, k: nat)
    requires k < 8
    ensures ByteAt(InsHigh(w, x, b), k) ==
      if b % 8 != 0 && k + 8 - b % 8 < Size(w) then ByteAt(x, k + 8 - b % 8) else 0
  {
    hide Shl, Bitwise, ByteAt, Gated, ShiftRight, MaskOf;
    var r := b % 8;
    if r == 0 {
      ZeroByte(k);
    } else {
      var y := Gated(And, x, MaskOf(w));
      ShiftRightByte(y, 8 - r, k);
      GatedByte(And, x, MaskOf(w), k + 8 - r);
      MaskByte(w, k + 8 - r);
      ByteGates(ByteAt(x, k + 8 - r));
    }
  }

  lemma MskLowByte(w: Width, x: Quad, b: Quad, k: nat)
    requires k < 8
    ensures ByteAt(MskLow(w, x, b), k) == if b % 8 <= k < b % 8 + Size(w) then 0 else ByteAt(x, k)
  {
    hide Shl, Bitwise, ByteAt, Gated, ShiftRight, MaskOf;
    var r := b % 8;
    GatedByte(AndNot, x, Shl(MaskOf(w), 8 * r), k);
    ShlByte(MaskOf(w), r, k);
    if r <= k { MaskByte(w, k - r); }
    ByteGates(ByteAt(x, k));
  }

  lemma MskHighByte(w: Width, x: Quad, b: Quad, k: nat)
    requires k < 8
    ensures ByteAt(MskHigh(w, x, b), k) ==
      if b % 8 != 0 && k + 8 - b % 8 < Size(w) then 0 else ByteAt(x, k)
  {
    hide Shl, Bitwise, ByteAt, Gated, ShiftRight, MaskOf;
    var r := b % 8;
    if r == 0 {
      GatedByte(AndNot, x, 0, k);
      ZeroByte(k);
    } else {
      GatedByte(AndNot, x, ShiftRight(MaskOf(w), 8 * (8 - r)), k);
      ShiftRightByte(MaskOf(w), 8 - r, k);
      MaskByte(w, k + 8 - r);
    }
    ByteGates(ByteAt(x, k));
  }

  // ----- aligned quadwords in memory

  /** Byte `k` of the quadword around `a`. */
  function Around(a: Quad, k: nat): Quad
    requires k < 8
  {
    a - a % 8 + k
  }

  /** `a + d` in 64 bits. */
  function Step(a: Quad, d: nat): Quad { (a + d) % TWO64 }

  function QuadAt(m: Memory, a: Quad): Quad {
    var bytes := seq<nat>(8, k requires 0 <= k < 8 => m(Around(a, k)));
    FromBytesWidth(bytes);
    Width8(FromBytes(bytes));
    FromBytes(bytes)
  }

  function QuadStored(m: Memory, a: Quad, x: Quad, p: Quad): Octet {
    if p / 8 == a / 8 then ByteAt(x, p % 8) else m(p)
  }

  lemma QuadByte(m: Memory, a: Quad, k: nat)
    requires k < 8
    ensures ByteAt(QuadAt(m, a), k) == m(Around(a, k))
  {
    var bytes := seq<nat>(8, k requires 0 <= k < 8 => m(Around(a, k)));
    var octet: Octet := m(Around(a, k));
    assert bytes[k] == octet;
    FromBytesAt(bytes, k);
  }

  /** Which of the two quadwords a byte of the datum at `a` is in. */
  lemma Neighbour(w: Width, a: Quad, k: nat)
    requires k < Size(w)
    ensures k + a % 8 < 8 ==> Step(a, k) == Around(a, k + a % 8)
    ensures k + a % 8 >= 8 ==> Step(a, k) == Around(Step(a, Size(w) - 1), k + a % 8 - 8)
    ensures Size(w) - 1 + a % 8 < 8 ==> Step(a, Size(w) - 1) / 8 == a / 8
  {
    hide Step;
    var n := Size(w) - 1;
    StepIs(a, k);
    StepIs(a, n);
    var q, r := a / 8, a % 8;
    assert a == 8 * q + r;
    if n + r >= 8 {
      NextQuad(a, n);
    } else {
      assert a + n == 8 * q + (r + n);
    }
  }

  /** The quadword after that of `a`. */
  lemma NextQuad(a: Quad, n: nat)
    requires n < 8 && n + a % 8 >= 8
    ensures Around(Step(a, n), 0) == (a - a % 8 + 8) % TWO64
  {
    hide Step;
    StepIs(a, n);
    var q, r := a / 8, a % 8;
    var last, k := Step(a, n), r + n - 8;
    DivMod8(last, if a + n < TWO64 then q + 1 else q + 1 - TWO64 / 8, k);
    var next := a - r + 8;
    assert last - k == if a + n < TWO64 then next else next - TWO64;
    NextBlock(q + 1, next);
  }

  lemma NextBlock(q: nat, next: nat)
    requires next == 8 * q <= TWO64
    ensures next % TWO64 == if next < TWO64 then next else 0
  {
  }

  // ----- unaligned loads

  /** ldq_u at both ends, EXTxL, EXTxH, bis. */
  function Extracted(w: Width, m: Memory, a: Quad): Quad {
    Gated(Or, ExtLow(w, QuadAt(m, a), a), ExtHigh(w, QuadAt(m, Step(a, Size(w) - 1)), a))
  }

  function Datum(w: Width, m: Memory, a: Quad): nat {
    FromBytes(seq<nat>(Size(w), k requires 0 <= k < Size(w) => m(Step(a, k))))
  }

  lemma ExtractedByte(w: Width, m: Memory, a: Quad, k: nat)
    requires k < 8
    ensures ByteAt(Extracted(w, m, a), k) == if k < Size(w) then m(Step(a, k)) else 0
  {
    hide ByteAt, Bitwise, Gated, ExtLow, ExtHigh, QuadAt, Step, Around;
    var end := Step(a, Size(w) - 1);
    var x, y := QuadAt(m, a), QuadAt(m, end);
    GatedByte(Or, ExtLow(w, x, a), ExtHigh(w, y, a), k);
    ExtLowByte(w, x, a, k);
    ExtHighByte(w, y, a, k);
    ByteGates(0);
    if k < Size(w) {
      Neighbour(w, a, k);
      ByteGates(m(Step(a, k)));
      if k + a % 8 < 8 {
        QuadByte(m, a, k + a % 8);
        if a % 8 == 0 {
          QuadByte(m, end, k);
          SameAround(a, end, k);
        }
      } else {
        QuadByte(m, end, k + a % 8 - 8);
      }
    }
  }

  lemma SameAround(a: Quad, b: Quad, k: nat)
    requires k < 8 && a / 8 == b / 8
    ensures Around(a, k) == Around(b, k)
  {
  }

  lemma DatumByte(w: Width, m: Memory, a: Quad, k: nat)
    requires k < 8
    ensures ByteAt(Datum(w, m, a), k) == if k < Size(w) then m(Step(a, k)) else 0
  {
    var bytes := seq<nat>(Size(w), k requires 0 <= k < Size(w) => m(Step(a, k)));
    if k < Size(w) {
      var octet: Octet := m(Step(a, k));
      assert bytes[k] == octet;
      FromBytesAt(bytes, k);
    } else {
      FromBytesEnd(bytes, k);
    }
  }

  lemma {:induction false} FromBytesEnd(s: seq<nat>, k: nat)
    requires k >= |s|
    ensures ByteAt(FromBytes(s), k) == 0
  {
    if s == [] {
      ZeroByte(k);
    } else {
      assert FromBytes(s) / 256 == FromBytes(s[1..]);
      FromBytesEnd(s[1..], k - 1);
    }
  }

  lemma {:induction false} FromBytesSmall(s: seq<nat>, n: nat)
    requires |s| <= n
    ensures LowBytes(FromBytes(s), n) == FromBytes(s)
  {
    if s == [] {
      LowZero(n);
    } else {
      assert FromBytes(s) / 256 == FromBytes(s[1..]);
      FromBytesSmall(s[1..], n - 1);
    }
  }

  lemma {:induction false} LowZero(n: nat)
    ensures LowBytes(0, n) == 0
  {
    if n > 0 { LowZero(n - 1); }
  }

  lemma SameQuads(x: Quad, y: Quad)
    requires forall k :: 0 <= k < 8 ==> ByteAt(x, k) == ByteAt(y, k)
    ensures x == y
  {
    hide ByteAt, LowBytes;
    SameBytes(x, y, 8);
    Width8(x);
    Width8(y);
  }

  lemma DatumSmall(w: Width, m: Memory, a: Quad)
    ensures Datum(w, m, a) < TWO64
  {
    Width8(Datum(w, m, a));
    FromBytesSmall(seq<nat>(Size(w), k requires 0 <= k < Size(w) => m(Step(a, k))), 8);
  }

  /** The extract sequence reads exactly the datum, for every address and width. */
  lemma ExtractReads(w: Width, m: Memory, a: Quad)
    ensures Extracted(w, m, a) == Datum(w, m, a)
  {
    hide Extracted, ByteAt, Datum;
    var x, y := Extracted(w, m, a), Datum(w, m, a);
    forall k | 0 <= k < 8 ensures ByteAt(x, k) == ByteAt(y, k) {
      ExtractedByte(w, m, a, k);
      DatumByte(w, m, a, k);
    }
    DatumSmall(w, m, a);
    SameQuads(x, y);
  }

  // ----- unaligned stores

  function HighPart(w: Width, m: Memory, a: Quad, v: Quad): Quad {
    Gated(Or, MskHigh(w, QuadAt(m, Step(a, Size(w) - 1)), a), InsHigh(w, v, a))
  }

  function LowPart(w: Width, m: Memory, a: Quad, v: Quad): Quad {
    Gated(Or, MskLow(w, QuadAt(m, a), a), InsLow(w, v, a))
  }

  /** The high quadword goes to memory before the low one. */
  function HighThenLow(w: Width, m: Memory, a: Quad, v: Quad, p: Quad): Octet {
    var m1: Memory := (x: Quad) => QuadStored(m, Step(a, Size(w) - 1), HighPart(w, m, a, v), x);
    QuadStored(m1, a, LowPart(w, m, a, v), p)
  }

  function LowThenHigh(w: Width, m: Memory, a: Quad, v: Quad, p: Quad): Octet {
    var m1: Memory := (x: Quad) => QuadStored(m, a, LowPart(w, m, a, v), x);
    QuadStored(m1, Step(a, Size(w) - 1), HighPart(w, m, a, v), p)
  }

  /** How far address `p` is past `a`. */
  function Past(a: Quad, p: Quad): nat { if p >= a then p - a else p + TWO64 - a }

  /** Memory with just the datum replaced: its byte `p - a`, counted around the address space. */
  function DatumStored(w: Width, m: Memory, a: Quad, v: Quad, p: Quad): Octet {
    if Past(a, p) < Size(w) then ByteAt(v, Past(a, p)) else m(p)
  }

  lemma LowPartByte(w: Width, m: Memory, a: Quad, v: Quad, k: nat)
    requires k < 8
    ensures ByteAt(LowPart(w, m, a, v), k) ==
      if a % 8 <= k < a % 8 + Size(w) then ByteAt(v, k - a % 8) else m(Around(a, k))
  {
    hide ByteAt, Bitwise, Gated, MskLow, InsLow, QuadAt;
    var x := QuadAt(m, a);
    GatedByte(Or, MskLow(w, x, a), InsLow(w, v, a), k);
    MskLowByte(w, x, a, k);
    InsLowByte(w, v, a, k);
    QuadByte(m, a, k);
    ByteGates(m(Around(a, k)));
    if a % 8 <= k { ByteGates(ByteAt(v, k - a % 8)); }
  }

  lemma HighPartByte(w: Width, m: Memory, a: Quad, v: Quad, k: nat)
    requires k < 8
    ensures ByteAt(HighPart(w, m, a, v), k) ==
      if a % 8 != 0 && k + 8 - a % 8 < Size(w) then ByteAt(v, k + 8 - a % 8) else m(Around(Step(a, Size(w) - 1), k))
  {
    hide ByteAt, Bitwise, Gated, MskHigh, InsHigh, QuadAt;
    var end := Step(a, Size(w) - 1);
    var x := QuadAt(m, end);
    GatedByte(Or, MskHigh(w, x, a), InsHigh(w, v, a), k);
    MskHighByte(w, x, a, k);
    InsHighByte(w, v, a, k);
    QuadByte(m, end, k);
    ByteGates(m(Around(end, k)));
    if a % 8 != 0 { ByteGates(ByteAt(v, k + 8 - a % 8)); }
  }

  /** Whether the datum reaches into a second quadword. */
  predicate Crosses(w: Width, a: Quad) { a % 8 + Size(w) > 8 }

  /** How far into the datum an address of one of the two quadwords lies. */
  lemma InFirst(w: Width, a: Quad, p: Quad)
    requires p / 8 == a / 8
    ensures Past(a, p) < Size(w) <==> a % 8 <= p % 8 < a % 8 + Size(w)
    ensures a % 8 <= p % 8 ==> Past(a, p) == p % 8 - a % 8
  {
  }

  lemma InSecond(w: Width, a: Quad, p: Quad)
    requires p / 8 != a / 8 && p / 8 == Step(a, Size(w) - 1) / 8
    ensures a % 8 != 0 && Past(a, p) == p % 8 + 8 - a % 8
  {
    var n := Size(w) - 1;
    StepIs(a, n);
    if a + n >= TWO64 { assert a / 8 == TWO64 / 8 - 1 && p / 8 == 0; }
  }

  lemma InNeither(w: Width, a: Quad, p: Quad)
    requires p / 8 != a / 8 && p / 8 != Step(a, Size(w) - 1) / 8
    ensures Past(a, p) >= Size(w)
  {
    var n := Size(w) - 1;
    StepIs(a, n);
    if a + n >= TWO64 { assert a / 8 == TWO64 / 8 - 1; }
  }

  lemma StepIs(a: Quad, n: nat)
    requires n < 8
    ensures Step(a, n) == if a + n < TWO64 then a + n else a + n - TWO64
  {
  }

  /** High quadword first, the sequence replaces exactly the datum, even when the two quadwords are one. */
  lemma InsertStores(w: Width, m: Memory, a: Quad, v: Quad, p: Quad)
    ensures HighThenLow(w, m, a, v, p) == DatumStored(w, m, a, v, p)
  {
    hide ByteAt, LowPart, HighPart, Past, Step;
    var end := Step(a, Size(w) - 1);
    if p / 8 == a / 8 {
      LowPartByte(w, m, a, v, p % 8);
      InFirst(w, a, p);
      assert Around(a, p % 8) == p;
    } else if p / 8 == end / 8 {
      HighPartByte(w, m, a, v, p % 8);
      InSecond(w, a, p);
      assert Around(end, p % 8) == p;
    } else {
      InNeither(w, a, p);
    }
  }

  /** The other order works only when there are two quadwords: otherwise it undoes the store. */
  lemma LowFirst(w: Width, m: Memory, a: Quad, v: Quad, p: Quad)
    ensures LowThenHigh(w, m, a, v, p) == if Crosses(w, a) then DatumStored(w, m, a, v, p) else m(p)
  {
    hide ByteAt, LowPart, HighPart, Past, Step;
    var end := Step(a, Size(w) - 1);
    Apart(w, a);
    if p / 8 == end / 8 {
      HighPartByte(w, m, a, v, p % 8);
      assert Around(end, p % 8) == p;
      if Crosses(w, a) { InSecond(w, a, p); }
    } else if p / 8 == a / 8 {
      LowPartByte(w, m, a, v, p % 8);
      InFirst(w, a, p);
      assert Around(a, p % 8) == p;
    } else {
      InNeither(w, a, p);
    }
  }

  lemma Apart(w: Width, a: Quad)
    ensures Crosses(w, a) <==> Step(a, Size(w) - 1) / 8 != a / 8
  {
    var n := Size(w) - 1;
    StepIs(a, n);
    if a + n >= TWO64 { assert a / 8 == TWO64 / 8 - 1; }
  }

  /** What the insert sequence stores, the extract sequence brings back. */
  lemma StoreThenLoad(w: Width, m: Memory, m2: Memory, a: Quad, v: Quad)
    requires forall p: Quad :: m2(p) == DatumStored(w, m, a, v, p)
    ensures Extracted(w, m2, a) == Gated(And, v, MaskOf(w))
  {
    hide ByteAt, Extracted, Gated, Bitwise, MaskOf, Step, Past;
    var x, y := Extracted(w, m2, a), Gated(And, v, MaskOf(w));
    forall k | 0 <= k < 8 ensures ByteAt(x, k) == ByteAt(y, k) {
      ExtractedByte(w, m2, a, k);
      GatedByte(And, v, MaskOf(w), k);
      MaskByte(w, k);
      ByteGates(ByteAt(v, k));
      if k < Size(w) { PastStep(a, k); }
    }
    SameQuads(x, y);
  }

  lemma PastStep(a: Quad, k: nat)
    requires k < 8
    ensures Past(a, Step(a, k)) == k
  {
    StepIs(a, k);
  }

  // ----- the sequences in place

  /** `addr & ~7`. */
  lemma AlignDown(a: Quad)
    ensures Gated(AndNot, a, 7) == a - a % 8
  {
    hide Bitwise, Low, Shr;
    var b := Bitwise(AndNot, a, 7);
    BitwiseSplits(AndNot, a, 7, 3);
    ThreeBits(a);
    ThreeBits(7);
    ThreeBits(b);
    Powers();
    assert a / 8 < Pow2(64);
    Gates(a / 8, 64);
    Gates(a % 8, 3);
  }

  lemma ThreeBits(x: nat)
    ensures Pow2(3) == 8 && Shr(x, 3) == x / 8 && Low(x, 3) == x % 8
  {
    LowStep(x, 2);
    LowStep(x / 2, 1);
    LowStep(x / 4, 0);
    assert Low(x / 8, 0) == 0 && Shr(x / 8, 0) == x / 8;
  }

  /** `b << (8 * k)`, where it fits. */
  function ByteUp(b: nat, k: nat): nat { if k == 0 then b else 256 * ByteUp(b, k - 1) }

  lemma {:induction false} ByteUpBound(b: Octet, k: nat)
    requires k < 8
    ensures ByteUp(b, k) <= ByteUp(255, k) && ByteUp(255, k) < TWO64
    decreases k
  {
    if k > 0 { ByteUpBound(b, k - 1); }
    ByteUpTop(k);
  }

  lemma ByteUpTop(k: nat)
    requires k < 8
    ensures ByteUp(255, k) < TWO64
  {
    assert ByteUp(255, 1) == 0xff00 && ByteUp(255, 2) == 0xff_0000 && ByteUp(255, 3) == 0xff00_0000;
    assert ByteUp(255, 4) == 0xff_0000_0000 && ByteUp(255, 5) == 0xff00_0000_0000;
    assert ByteUp(255, 6) == 0xff_0000_0000_0000 && ByteUp(255, 7) == 0xff00_0000_0000_0000;
  }

  lemma {:induction false} ShlIsByteUp(b: Octet, k: nat)
    requires k < 8
    ensures Shl(b, 8 * k) == ByteUp(b, k)
  {
    hide Shl;
    if k == 0 {
      ShlNone(b);
    } else {
      ShlIsByteUp(b, k - 1);
      ShlShl(b, 8 * (k - 1), 8);
      var y := Shl(b, 8 * (k - 1));
      ShlEight(y);
      ByteUpBound(b, k);
      assert ByteUp(b, k) == 256 * y;
      DivModWord(256 * y, 0, 256 * y);
    }
  }

  lemma {:induction false} FromBytesMore(s: seq<nat>, b: Octet)
    ensures FromBytes(s + [b]) == FromBytes(s) + ByteUp(b, |s|)
  {
    if s == [] {
      assert s + [b] == [b];
    } else {
      assert (s + [b])[1..] == s[1..] + [b];
      FromBytesMore(s[1..], b);
    }
  }

  /** One more byte added to the sum of shifted bytes. */
  lemma SumStep(s: seq<nat>, b: Octet)
    requires |s| < 8
    ensures FromBytes(s) + Shl(b, 8 * |s|) == FromBytes(s + [b]) < TWO64
  {
    hide Shl, FromBytes, ByteUp, LowBytes;
    ShlIsByteUp(b, |s|);
    FromBytesMore(s, b);
    FromBytesSmall(s + [b], 8);
    Width8(FromBytes(s + [b]));
  }

  lemma NoBytes()
    ensures FromBytes([]) == 0
  {
  }

  lemma QuadIs(m: Memory, a: Quad, data: seq<Octet>)
    requires |data| == 8 && forall j :: 0 <= j < 8 ==> data[j] == m(Around(a, j))
    ensures QuadAt(m, a) == FromBytes(data)
  {
    var bytes := seq<nat>(8, k requires 0 <= k < 8 => m(Around(a, k)));
    assert bytes == data;
  }

  lemma ByteIsShift(x: Quad, k: nat)
    ensures ShiftRight(x, 8 * k) % 256 == ByteAt(x, k)
  {
    hide Shr;
    ShrByte(x, k, 0);
  }

  lemma ByteOfQuad(a: Quad, k: nat, p: Quad)
    requires k < 8
    ensures p == a - a % 8 + k <==> p / 8 == a / 8 && p % 8 == k
  {
    if p == a - a % 8 + k { DivMod8(p, a / 8, k); }
  }

  class Cpu {
    const direct: Quad -> bool    // pages of 8 KB with a host address
    var mem: Memory

    constructor (direct: Quad -> bool, mem: Memory)
      ensures this.direct == direct && this.mem == mem
    {
      this.direct, this.mem := direct, mem;
    }

    /** The sum of shifted bytes that both paths of a load compute. */
    method SumBytes(data: seq<Octet>) returns (x: Quad)
      requires |data| == 8
      ensures x == FromBytes(data)
    {
      hide Shl, FromBytes;
      x := 0;
      ghost var done: seq<nat> := [];
      assert FromBytes(done) == 0 by { NoBytes(); }
      for k := 0 to 8
        invariant done == data[..k] && x == FromBytes(done)
      {
        SumStep(done, data[k]);
        x := (x + Shl(data[k], 8 * k)) % TWO64;
        done := done + [data[k]];
      }
      assert data[..8] == data;
    }

    /** ldq_u: directly from the host page, or through memory_rw. */
    method LoadQuad(a: Quad) returns (x: Quad)
      ensures x == QuadAt(mem, a)
    {
      hide Bitwise, Gated, QuadAt, Pow2;
      AlignDown(a);
      var addr := Gated(AndNot, a, 7);
      var data: seq<Octet> := [];
      if direct(addr / 8192) {
        var page, c := addr - addr % 8192, addr % 8192;
        for k := 0 to 8
          invariant |data| == k && forall j :: 0 <= j < k ==> data[j] == mem(Around(a, j))
        {
          data := data + [mem(page + c + k)];
        }
      } else {
        for k := 0 to 8
          invariant |data| == k && forall j :: 0 <= j < k ==> data[j] == mem(Around(a, j))
        {
          data := data + [mem(addr + k)];
        }
      }
      x := SumBytes(data);
      QuadIs(mem, a, data);
    }

    /** stq_u, byte by byte. */
    method StoreQuad(a: Quad, x: Quad)
      modifies this
      ensures forall p: Quad :: mem(p) == QuadStored(old(mem), a, x, p)
    {
      hide Shr, ByteAt;
      AlignDown(a);
      var addr := Gated(AndNot, a, 7);
      for k := 0 to 8
        invariant forall p: Quad :: mem(p) == if p / 8 == a / 8 && p % 8 < k then ByteAt(x, p % 8) else old(mem)(p)
      {
        ByteIsShift(x, k);
        ghost var before := mem;
        PutByte(addr + k, ShiftRight(x, 8 * k) % 256);
        forall p: Quad ensures mem(p) == if p / 8 == a / 8 && p % 8 < k + 1 then ByteAt(x, p % 8) else old(mem)(p) {
          ByteOfQuad(a, k, p);
        }
      }
    }

    method PutByte(at: Quad, b: Octet)
      modifies this
      ensures forall p: Quad :: mem(p) == if p == at then b else old(mem)(p)
    {
      var m := mem;
      mem := (p: Quad) => if p == at then b else m(p);
    }

    method LoadUnaligned(w: Width, a: Quad) returns (x: Quad)
      ensures x == Datum(w, mem, a)
    {
      var low := LoadQuad(a);
      var high := LoadQuad(Step(a, Size(w) - 1));
      ExtractReads(w, mem, a);
      x := Gated(Or, ExtLow(w, low, a), ExtHigh(w, high, a));
    }

    method StoreUnaligned(w: Width, a: Quad, v: Quad)
      modifies this
      ensures forall p: Quad :: mem(p) == DatumStored(w, old(mem), a, v, p)
    {
      hide DatumStored, QuadAt, MskHigh, MskLow, InsHigh, InsLow, Gated;
      var end := Step(a, Size(w) - 1);
      var high := LoadQuad(end);
      var low := LoadQuad(a);
      ghost var m := mem;
      StoreQuad(end, Gated(Or, MskHigh(w, high, a), InsHigh(w, v, a)));
      StoreQuad(a, Gated(Or, MskLow(w, low, a), InsLow(w, v, a)));
      forall p: Quad ensures mem(p) == DatumStored(w, m, a, v, p) {
        InsertStores(w, m, a, v, p);
      }
    }
  }
}
