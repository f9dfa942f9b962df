/**
 A compare followed by a conditional branch, replaced by one fused instruction.
 */
module CompareBranch {
  import opened Arm
  import opened Wrappers
  import Bytes

  /** Where execution continues: at a record of the current page, or wherever `pc` leads. */
  datatype Next = Record(i: nat) | FollowPc

  datatype State = State(r: seq<Word>, flags: Flags, pc: Word, next: Next, count: nat)

  predicate Proper(s: State) { |s.r| == 16 }

  datatype Instr =
    | Cmps(rn: nat, imm: Word)
    | CmpsReg(rn: nat, rm: nat)
    | Teqs(rn: nat, imm: Word)
    | Tsts(rn: nat, imm: Word)
    | BranchSamePage(cond: Cond, target: nat)
    | BranchFar(cond: Cond, offset: int)
    | Other

  predicate ValidInstr(a: Instr) {
    match a
    case Cmps(rn, _) => rn < 16
    case CmpsReg(rn, rm) => rn < 16 && rm < 16
    case Teqs(rn, _) => rn < 16
    case Tsts(rn, _) => rn < 16
    case _ => true
  }

  // ----- the unfused instructions

  /** The carry that a flag-setting logical instruction leaves, given its immediate operand. */
  function ShifterCarry(imm: Word, c: bool): bool {
    if imm > 255 then imm >= TWO31 else c
  }

  function BranchPc(pc: Word, offset: int): Word {
    Wrap(pc / 0x1000 * 0x1000 + offset)
  }

  /** The effect of record `i`. The main loop has already moved on to `i + 1`. */
  function Execute(a: Instr, i: nat, s: State): State
    requires ValidInstr(a) && Proper(s)
  {
    match a
    case Cmps(rn, imm) => s.(flags := CompareFlags(s.r[rn], imm))
    case CmpsReg(rn, rm) => s.(flags := CompareFlags(s.r[rn], s.r[rm]))
    case Teqs(rn, imm) =>
      var c := Xor(s.r[rn], imm);
      s.(flags := Flags(Signed(c) < 0, c == 0, ShifterCarry(imm, s.flags.c), s.flags.v))
    case Tsts(rn, imm) =>
      var c := And(s.r[rn], imm);
      s.(flags := Flags(Signed(c) < 0, c == 0, ShifterCarry(imm, s.flags.c), s.flags.v))
    case BranchSamePage(cond, target) => s.(next := Record(if Holds(cond, s.flags) then target else i + 1))
    case BranchFar(cond, offset) =>
      if Holds(cond, s.flags) then s.(pc := BranchPc(s.pc, offset), next := FollowPc) else s
    case Other => s
  }

  /** One turn of the main loop at record `i`. */
  function Turn(a: Instr, i: nat, s: State): State
    requires ValidInstr(a) && Proper(s)
  {
    Execute(a, i, s.(next := Record(i + 1), count := s.count + 1))
  }

  // ----- branches as they are translated

  /** The offset of a branch from its own address, from the 24 bits of the instruction. */
  function Displacement(field: nat): int
    requires field < 0x100_0000
  {
    (if field < 0x80_0000 then 4 * field else 4 * field - 0x400_0000) + 8
  }

  lemma DisplacementIs(field: nat)
    requires field < 0x100_0000
    ensures Displacement(field) == 8 + 4 * (if field < 0x80_0000 then field else field - 0x100_0000)
    ensures Displacement(field) % 4 == 0
  {
    Bytes.DivMod4(Displacement(field), if field < 0x80_0000 then field + 2 else field + 2 - 0x100_0000, 0);
  }

  /** The record for a branch at address `a`: by record number in its own page, by offset from the page elsewhere. */
  function TranslateBranch(cond: Cond, a: Word, field: nat): Instr
    requires field < 0x100_0000
  {
    var to := Plus(a, Displacement(field));
    if a / 0x1000 == to / 0x1000 then BranchSamePage(cond, to % 0x1000 / 4)
    else BranchFar(cond, Displacement(field) + a % 0x1000 / 4 * 4)
  }

  /** The address of the next instruction. */
  function Address(s: State): Word {
    match s.next
    case Record(i) => Plus(s.pc, 4 * i - s.pc % 0x1000)
    case FollowPc => s.pc
  }

  /** A branch leads to its own address plus eight plus the offset in it, in whichever page that is. */
  lemma BranchArrives(cond: Cond, a: Word, field: nat, s: State)
    requires field < 0x100_0000 && a % 4 == 0 && s.pc / 0x1000 == a / 0x1000 && Proper(s)
    ensures
      var s' := Turn(TranslateBranch(cond, a, field), a % 0x1000 / 4, s);
      var offset: int := if field < 0x80_0000 then field else field - 0x100_0000;
      Address(s') == if Holds(cond, s.flags) then (a + 8 + 4 * offset) % 0x1_0000_0000 else (a + 4) % 0x1_0000_0000
  {
    hide Holds, BranchPc, Plus, Displacement;
    DisplacementIs(field);
    var d := Displacement(field);
    var to := Plus(a, d);
    RecordAddress(s.pc, a);
    if a / 0x1000 == to / 0x1000 {
      WordAligned(a, d);
      RecordAddress(s.pc, to);
    } else {
      FarAddress(s.pc, a, d);
    }
    PlusIs(a, d);
    PlusIs(a, 4);
  }

  lemma PlusIs(a: Word, d: int)
    ensures Plus(a, d) == (a + d) % 0x1_0000_0000
  {
  }

  /** The record of an address in the page, and the one after it. */
  lemma RecordAddress(pc: Word, x: Word)
    requires x % 4 == 0 && x / 0x1000 == pc / 0x1000
    ensures Plus(pc, 4 * (x % 0x1000 / 4) - pc % 0x1000) == x
    ensures Plus(pc, 4 * (x % 0x1000 / 4 + 1) - pc % 0x1000) == Plus(x, 4)
  {
    var page := x / 0x1000;
    Bytes.DivMod4(x % 0x1000, x / 4 - 0x400 * page, 0);
    var i := x % 0x1000 / 4;
    assert pc + (4 * i - pc % 0x1000) == x;
    assert pc + (4 * (i + 1) - pc % 0x1000) == x + 4;
  }

  lemma FarAddress(pc: Word, a: Word, d: int)
    requires a % 4 == 0 && a / 0x1000 == pc / 0x1000
    ensures BranchPc(pc, d + a % 0x1000 / 4 * 4) == Plus(a, d)
  {
    var page := a / 0x1000;
    Bytes.DivMod4(a % 0x1000, a / 4 - 0x400 * page, 0);
    assert pc / 0x1000 * 0x1000 + (d + a % 0x1000 / 4 * 4) == a + d;
  }

  lemma WordAligned(a: Word, d: int)
    requires a % 4 == 0 && d % 4 == 0
    ensures Plus(a, d) % 4 == 0
  {
    var q := (a + d) / TWO32;
    Bytes.DivMod4(a + d, a / 4 + d / 4, 0);
    Bytes.DivMod4(Plus(a, d), a / 4 + d / 4 - 0x4000_0000 * q, 0);
  }

  /** Both instructions, one after the other. */
  function TwoTurns(a: Instr, b: Instr, i: nat, s: State): State
    requires ValidInstr(a) && ValidInstr(b) && Proper(s)
  {
    Turn(b, i + 1, Turn(a, i, s))
  }

  // ----- the fused instructions

  datatype Fused =
    | Cmps0Beq | CmpsPosBeq | CmpsNegBeq
    | Cmps0BeqSame | CmpsBeqSame | Cmps0BneSame | CmpsBneSame
    | CmpsBccSame | CmpsRegBccSame | CmpsBhiSame | CmpsRegBhiSame | CmpsBgtSame | CmpsBleSame
    | TeqsBeqSame | TeqsBneSame | TstsLoBeqSame | TstsLoBneSame

  /** The matcher: what the first of two adjacent records is turned into. */
  function Combine(a: Instr, b: Instr): Option<Fused> {
    match b
    case BranchFar(EQ, _) =>
      (match a
       case Cmps(_, imm) => Some(if imm == 0 then Cmps0Beq else if imm >= TWO31 then CmpsNegBeq else CmpsPosBeq)
       case _ => None)
    case BranchSamePage(EQ, _) =>
      (match a
       case Cmps(_, imm) => Some(if imm == 0 then Cmps0BeqSame else CmpsBeqSame)
       case Tsts(_, imm) => if imm < TWO31 then Some(TstsLoBeqSame) else None
       case Teqs(_, _) => Some(TeqsBeqSame)
       case _ => None)
    case BranchSamePage(NE, _) =>
      (match a
       case Cmps(_, imm) => Some(if imm == 0 then Cmps0BneSame else CmpsBneSame)
       case Tsts(_, imm) => if imm < TWO31 then Some(TstsLoBneSame) else None
       case Teqs(_, _) => Some(TeqsBneSame)
       case _ => None)
    case BranchSamePage(CC, _) =>
      (match a
       case Cmps(_, _) => Some(CmpsBccSame)
       case CmpsReg(_, _) => Some(CmpsRegBccSame)
       case _ => None)
    case BranchSamePage(HI, _) =>
      (match a
       case Cmps(_, _) => Some(CmpsBhiSame)
       case CmpsReg(_, _) => Some(CmpsRegBhiSame)
       case _ => None)
    case BranchSamePage(GT, _) => if a.Cmps? then Some(CmpsBgtSame) else None
    case BranchSamePage(LE, _) => if a.Cmps? then Some(CmpsBleSame) else None
    case _ => None
  }

  /** Which pairs of records are fused. */
  lemma CombinesIff(a: Instr, b: Instr)
    ensures Combine(a, b).Some? <==>
      (b.BranchFar? && b.cond == EQ && a.Cmps?) ||
      (b.BranchSamePage? && b.cond in {EQ, NE} && (a.Cmps? || a.Teqs? || (a.Tsts? && a.imm < 0x8000_0000))) ||
      (b.BranchSamePage? && b.cond in {CC, HI} && (a.Cmps? || a.CmpsReg?)) ||
      (b.BranchSamePage? && b.cond in {GT, LE} && a.Cmps?)
  {
  }

  function Negative(w: Word): bool { w >= TWO31 }

  /** The overflow test of the fused comparisons with an operand of either sign. */
  function Overflow(a: Word, b: Word, c: Word): bool {
    (!Negative(a) && Negative(b) && Negative(c)) || (Negative(a) && !Negative(b) && !Negative(c))
  }

  /** One turn of the main loop at record `i`, which has been fused; `b` is the record after it. */
  function FusedTurn(f: Fused, a: Instr, b: Instr, i: nat, s: State): State
    requires ValidInstr(a) && Proper(s) && Combine(a, b) == Some(f)
  {
    var s := s.(next := Record(i + 1), count := s.count + 2);
    var x := s.r[a.rn];
    var y := if a.CmpsReg? then s.r[a.rm] else a.imm;
    var c := Wrap(x - y);
    match f
    case Cmps0Beq =>
      if x == 0 then s.(flags := Flags(false, true, true, false), pc := BranchPc(s.pc, b.offset), next := FollowPc)
      else s.(flags := Flags(Negative(x), false, true, false), next := Record(i + 2))
    case CmpsPosBeq =>
      var v := Negative(x) && !Negative(c);
      if c == 0 then s.(flags := Flags(false, true, x >= y, v), pc := BranchPc(s.pc, b.offset), next := FollowPc)
      else s.(flags := Flags(Negative(c), false, x >= y, v), next := Record(i + 2))
    case CmpsNegBeq =>
      var v := !Negative(x) && Negative(c);
      if c == 0 then s.(flags := Flags(false, true, x >= y, v), pc := BranchPc(s.pc, b.offset), next := FollowPc)
      else s.(flags := Flags(Negative(c), false, x >= y, v), next := Record(i + 2))
    case Cmps0BeqSame =>
      s.(flags := if x == 0 then Flags(false, true, true, false) else Flags(Negative(x), false, true, false),
         next := Record(if x == 0 then b.target else i + 2))
    case Cmps0BneSame =>
      s.(flags := if x == 0 then Flags(false, true, true, false) else Flags(Negative(x), false, true, false),
         next := Record(if x == 0 then i + 2 else b.target))
    case CmpsBeqSame =>
      if c == 0 then s.(flags := Flags(false, true, x >= y, Overflow(x, y, c)), next := Record(b.target))
      else s.(flags := Flags(Negative(c), false, x >= y, Overflow(x, y, c)), next := Record(i + 2))
    case CmpsBneSame =>
      if c == 0 then s.(flags := Flags(false, true, x >= y, Overflow(x, y, c)), next := Record(i + 2))
      else s.(flags := Flags(Negative(c), false, x >= y, Overflow(x, y, c)), next := Record(b.target))
    case CmpsBccSame =>
      s.(flags := Flags(Negative(c), c == 0, x >= y, Overflow(x, y, c)), next := Record(if x >= y then i + 2 else b.target))
    case CmpsRegBccSame =>
      s.(flags := Flags(Negative(c), c == 0, x >= y, Overflow(x, y, c)), next := Record(if x >= y then i + 2 else b.target))
    case CmpsBhiSame =>
      s.(flags := Flags(Negative(c), c == 0, x >= y, Overflow(x, y, c)), next := Record(if x > y then b.target else i + 2))
    case CmpsRegBhiSame =>
      s.(flags := Flags(Negative(c), c == 0, x >= y, Overflow(x, y, c)), next := Record(if x > y then b.target else i + 2))
    case CmpsBgtSame =>
      s.(flags := Flags(Negative(c), c == 0, x >= y, Overflow(x, y, c)),
         next := Record(if Signed(x) > Signed(y) then b.target else i + 2))
    case CmpsBleSame =>
      s.(flags := Flags(Negative(c), c == 0, x >= y, Overflow(x, y, c)),
         next := Record(if Signed(x) <= Signed(y) then b.target else i + 2))
    case TeqsBeqSame =>
      var c := Xor(x, y);
      s.(flags := s.flags.(n := Negative(c), z := c == 0), next := Record(if c == 0 then b.target else i + 2))
    case TeqsBneSame =>
      var c := Xor(x, y);
      s.(flags := s.flags.(n := Negative(c), z := c == 0), next := Record(if c == 0 then i + 2 else b.target))
    case TstsLoBeqSame =>
      var c := And(x, y);
      s.(flags := s.flags.(n := false, z := c == 0), next := Record(if c == 0 then b.target else i + 2))
    case TstsLoBneSame =>
      var c := And(x, y);
      s.(flags := s.flags.(n := false, z := c == 0), next := Record(if c == 0 then i + 2 else b.target))
  }

  /** The ways in which the fused comparisons put the flags together are all the same. */
  lemma FusedFlags(x: Word, y: Word)
    ensures
      var c, f := Wrap(x - y), CompareFlags(x, y);
      && f == Flags(Negative(c), c == 0, x >= y, Overflow(x, y, c))
      && (c == 0 <==> x == y)
      && (y == 0 ==> f == if x == 0 then Flags(false, true, true, false) else Flags(Negative(x), false, true, false))
      && (y < TWO31 ==> f.v == (Negative(x) && !Negative(c)))
      && (y >= TWO31 ==> f.v == (!Negative(x) && Negative(c)))
  {
  }

  /**
   Fusing a compare with the branch after it never changes what the two do: same flags, same next
   instruction or program counter, same instruction count.
   */
  lemma FusedCompareBranch(a: Instr, b: Instr, i: nat, s: State)
    requires ValidInstr(a) && ValidInstr(b) && Proper(s) && Combine(a, b).Some? && (a.Cmps? || a.CmpsReg?)
    ensures FusedTurn(Combine(a, b).value, a, b, i, s) == TwoTurns(a, b, i, s)
  {
    match b {
      case BranchFar(_, _) => FusedFar(a, b, i, s);
      case BranchSamePage(EQ, _) => FusedEqual(a, b, i, s);
      case BranchSamePage(NE, _) => FusedEqual(a, b, i, s);
      case BranchSamePage(_, _) => FusedOrder(a, b, i, s);
    }
  }

  lemma FusedFar(a: Instr, b: Instr, i: nat, s: State)
    requires ValidInstr(a) && ValidInstr(b) && Proper(s) && Combine(a, b).Some? && (a.Cmps? || a.CmpsReg?)
    requires b.BranchFar?
    ensures FusedTurn(Combine(a, b).value, a, b, i, s) == TwoTurns(a, b, i, s)
  {
    hide CompareFlags, Overflow, Holds, BranchPc, And, Xor, Wrap;
    var x := s.r[a.rn];
    var y := if a.CmpsReg? then s.r[a.rm] else a.imm;
    ComparisonMeans(x, y);
    FusedFlags(x, y);
    NegatedConditions(CompareFlags(x, y));
  }

  lemma FusedEqual(a: Instr, b: Instr, i: nat, s: State)
    requires ValidInstr(a) && ValidInstr(b) && Proper(s) && Combine(a, b).Some? && (a.Cmps? || a.CmpsReg?)
    requires b.BranchSamePage? && b.cond in {EQ, NE}
    ensures FusedTurn(Combine(a, b).value, a, b, i, s) == TwoTurns(a, b, i, s)
  {
    hide CompareFlags, Overflow, Holds, BranchPc, And, Xor, Wrap;
    var x := s.r[a.rn];
    var y := if a.CmpsReg? then s.r[a.rm] else a.imm;
    ComparisonMeans(x, y);
    FusedFlags(x, y);
    NegatedConditions(CompareFlags(x, y));
  }

  lemma FusedOrder(a: Instr, b: Instr, i: nat, s: State)
    requires ValidInstr(a) && ValidInstr(b) && Proper(s) && Combine(a, b).Some? && (a.Cmps? || a.CmpsReg?)
    requires b.BranchSamePage? && b.cond !in {EQ, NE}
    ensures FusedTurn(Combine(a, b).value, a, b, i, s) == TwoTurns(a, b, i, s)
  {
    hide CompareFlags, Overflow, Holds, BranchPc, And, Xor, Wrap;
    var x := s.r[a.rn];
    var y := if a.CmpsReg? then s.r[a.rm] else a.imm;
    ComparisonMeans(x, y);
    FusedFlags(x, y);
    NegatedConditions(CompareFlags(x, y));
  }

  lemma NegatedConditions(f: Flags)
    ensures Holds(NE, f) <==> !Holds(EQ, f)
    ensures Holds(LE, f) <==> !Holds(GT, f)
    ensures f.z <==> Holds(EQ, f)
  {
  }

  /**
   For teqs and tsts the fused form leaves the carry alone, while the plain instruction sets it to
   the top bit of a rotated immediate: the two agree in exactly these states.
   */
  lemma FusedTestBranch(a: Instr, b: Instr, i: nat, s: State)
    requires ValidInstr(a) && ValidInstr(b) && Proper(s) && Combine(a, b).Some? && (a.Teqs? || a.Tsts?)
    ensures FusedTurn(Combine(a, b).value, a, b, i, s) == TwoTurns(a, b, i, s) <==>
              (a.imm <= 255 || s.flags.c == (a.imm >= TWO31))
  {
  }

  /** In every state, then, only for immediates that need no rotation. */
  lemma FusedTestBranchAlways(a: Instr, b: Instr, i: nat)
    requires ValidInstr(a) && ValidInstr(b) && Combine(a, b).Some? && (a.Teqs? || a.Tsts?)
    ensures (forall s :: Proper(s) ==> FusedTurn(Combine(a, b).value, a, b, i, s) == TwoTurns(a, b, i, s)) <==>
              a.imm <= 255
  {
    forall s | Proper(s)
      ensures FusedTurn(Combine(a, b).value, a, b, i, s) == TwoTurns(a, b, i, s) <==>
                (a.imm <= 255 || s.flags.c == (a.imm >= TWO31))
    {
      FusedTestBranch(a, b, i, s);
    }
    var zeros: seq<Word> := seq(16, _ => 0);
    var odd := State(zeros, Flags(false, false, a.imm < TWO31, false), 0, Record(0), 0);
    assert Proper(odd);
    assert FusedTurn(Combine(a, b).value, a, b, i, odd) == TwoTurns(a, b, i, odd) <==> a.imm <= 255;
  }
}
