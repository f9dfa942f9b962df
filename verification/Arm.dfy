/**
 ARM words, flags and condition codes, as the dyntrans code represents them.
 */
module Arm {
  import Bits

  const TWO31 := 0x8000_0000
  const TWO32 := 0x1_0000_0000

  type Word = x: nat | x < TWO32

  /** `(uint32_t) x`. */
  function Wrap(x: int): Word { x % TWO32 }

  /** A sum in 32-bit arithmetic. */
  function Plus(a: Word, d: int): Word { Wrap(a as int + d) }

  lemma PlusPlus(a: Word, b: int, c: int)
    ensures Plus(Plus(a, b), c) == Plus(a, b + c)
  {
  }

  /** `(int32_t) w`. */
  function Signed(w: Word): int { if w < TWO31 then w else w - TWO32 }

  /** The four bits of the `flags` field. */
  datatype Flags = Flags(n: bool, z: bool, c: bool, v: bool)

  function Index(f: Flags): (i: nat)
    ensures i < 16
  {
    (if f.n then 8 else 0) + (if f.z then 4 else 0) + (if f.c then 2 else 0) + (if f.v then 1 else 0)
  }

  const CONDITION_HI := [0,0,1,1, 0,0,0,0, 0,0,1,1, 0,0,0,0]
  const CONDITION_GE := [1,0,1,0, 1,0,1,0, 0,1,0,1, 0,1,0,1]
  const CONDITION_GT := [1,0,1,0, 0,0,0,0, 0,1,0,1, 0,0,0,0]

  datatype Cond = EQ | NE | CS | CC | MI | PL | VS | VC | HI | LS | GE | LT | GT | LE | AL

  /** The guard that the Y macro and the conditional branches put before an instruction. */
  predicate Holds(c: Cond, f: Flags) {
    match c
    case EQ => f.z
    case NE => !f.z
    case CS => f.c
    case CC => !f.c
    case MI => f.n
    case PL => !f.n
    case VS => f.v
    case VC => !f.v
    case HI => CONDITION_HI[Index(f)] != 0
    case LS => CONDITION_HI[Index(f)] == 0
    case GE => CONDITION_GE[Index(f)] != 0
    case LT => CONDITION_GE[Index(f)] == 0
    case GT => CONDITION_GT[Index(f)] != 0
    case LE => CONDITION_GT[Index(f)] == 0
    case AL => true
  }

  /** What the tables stand for. */
  lemma TablesMean(f: Flags)
    ensures Holds(HI, f) <==> f.c && !f.z
    ensures Holds(GE, f) <==> f.n == f.v
    ensures Holds(GT, f) <==> !f.z && f.n == f.v
  {
  }

  /** The flags of cmps and subs, as the generic data-processing code computes them. */
  function CompareFlags(a: Word, b: Word): Flags {
    var c := Wrap(a - b);
    Flags(Signed(c) < 0, c == 0, a >= b,
          (Signed(a) >= 0 && Signed(b) < 0 && Signed(c) < 0) || (Signed(a) < 0 && Signed(b) >= 0 && Signed(c) >= 0))
  }

  /** After a comparison, the condition codes order the operands, unsigned and signed. */
  lemma ComparisonMeans(a: Word, b: Word)
    ensures
      var f := CompareFlags(a, b);
      && (Holds(EQ, f) <==> a == b)
      && (Holds(CC, f) <==> a < b)
      && (Holds(HI, f) <==> a > b)
      && (Holds(GE, f) <==> Signed(a) >= Signed(b))
      && (Holds(GT, f) <==> Signed(a) > Signed(b))
  {
    TablesMean(CompareFlags(a, b));
  }

  /** The four flags of a comparison: negative difference, equality, no borrow, signed overflow. */
  lemma FlagsMean(a: Word, b: Word)
    ensures
      var f := CompareFlags(a, b);
      && (f.n <==> (a - b) % 0x1_0000_0000 >= 0x8000_0000) && (f.z <==> a == b) && (f.c <==> a >= b)
      && (f.v <==> !(-0x8000_0000 <= Signed(a) - Signed(b) < 0x8000_0000))
  {
  }

  // ----- bitwise operations

  lemma BitwiseWord(g: Bits.Gate, x: Word, y: Word)
    ensures Bits.Bitwise(g, x, y) < TWO32
  {
    Bits.Powers();
    Bits.BitwiseSmall(g, x, y, 32);
  }

  function And(x: Word, y: Word): (r: Word)
    ensures r <= y
  {
    BitwiseWord(Bits.And, x, y);
    Bits.AndBelow(x, y);
    Bits.Bitwise(Bits.And, x, y)
  }

  function Xor(x: Word, y: Word): Word {
    BitwiseWord(Bits.Xor, x, y);
    Bits.Bitwise(Bits.Xor, x, y)
  }

  /** They work bit by bit. */
  lemma GateBits(x: Word, y: Word, k: nat)
    ensures Bits.Bit(And(x, y), k) <==> Bits.Bit(x, k) && Bits.Bit(y, k)
    ensures Bits.Bit(Xor(x, y), k) <==> Bits.Bit(x, k) != Bits.Bit(y, k)
  {
    hide Bits.Bitwise, Bits.Bit;
    Bits.BitwiseBit(Bits.And, x, y, k);
    Bits.BitwiseBit(Bits.Xor, x, y, k);
  }
}
