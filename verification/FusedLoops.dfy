/**
 Whole guest loops replaced by one host function: the cores of NetBSD's memset and of strlen.  The
 plain instructions are given by an interpreter of translated records; the fused functions run on
 the same state, in place, and end where the interpreter ends.
 */
module FusedLoops {
  import opened Arm
  import Bits
  import Bytes

  type Ptr = nat
  const NULL: Ptr := 0
  const PAGE := 0x1000

  datatype State = State(r: seq<Word>, flags: Flags, next: nat, pages: map<Ptr, seq<nat>>)

  datatype Instr =
    | SubsImm(rd: nat, imm: Word)                        // subs rd,rd,#imm
    | StoreTwo(cond: Cond, rn: nat, ra: nat, rb: nat)    // stm<cond>ia rn!,{ra,rb}
    | LoadByte(rd: nat, rn: nat, imm: Word)              // ldrb rd,[rn,#imm]!
    | CmpsImm(rn: nat, imm: Word)
    | Branch(cond: Cond, target: nat)                    // within the page

  /** The fast-path tables, by page number, and what an access outside the fast path does. */
  datatype Env = Env(load: nat -> Ptr, store: nat -> Ptr, slow: (Instr, State) -> State)

  predicate Regs(a: Instr) {
    match a
    case SubsImm(rd, _) => rd < 15
    case StoreTwo(_, rn, ra, rb) => rn < 15 && ra < rb < 15 && rn != ra && rn != rb
    case LoadByte(rd, rn, _) => rd < 15 && rn < 15
    case CmpsImm(rn, _) => rn < 15
    case Branch(_, _) => true
  }

  /** Every page that a table leads to exists. */
  ghost predicate Mapped(e: Env, pages: map<Ptr, seq<nat>>) {
    && (forall p :: p in pages ==> |pages[p]| == PAGE)
    && (forall n :: e.load(n) != NULL ==> e.load(n) in pages)
    && (forall n :: e.store(n) != NULL ==> e.store(n) in pages)
  }

  ghost predicate Proper(e: Env, s: State) {
    |s.r| == 16 && Mapped(e, s.pages)
  }

  lemma MappedStill(e: Env, pages: map<Ptr, seq<nat>>, n: nat, b: seq<nat>)
    requires Mapped(e, pages) && |b| == PAGE
    ensures e.store(n) != NULL ==>
      e.store(n) in pages && |pages[e.store(n)]| == PAGE && Mapped(e, pages[e.store(n) := b])
  {
  }

  function PutByte(b: seq<nat>, i: nat, x: nat): seq<nat> {
    if i < |b| then b[i := x % 256] else b
  }

  /** A word stored by a little-endian host. */
  function PutWord(b: seq<nat>, i: nat, w: Word): seq<nat> {
    PutByte(PutByte(PutByte(PutByte(b, i, w), i + 1, w / 0x100), i + 2, w / 0x1_0000), i + 3, w / 0x100_0000)
  }

  /** The bytes of a stored word: the lowest first. */
  lemma PutWordBytes(b: seq<nat>, i: nat, w: Word)
    requires i + 4 <= |b|
    ensures
      var b' := PutWord(b, i, w);
      && |b'| == |b| && (forall k :: 0 <= k < |b| && !(i <= k < i + 4) ==> b'[k] == b[k])
      && b'[i] < 256 && b'[i + 1] < 256 && b'[i + 2] < 256 && b'[i + 3] < 256
      && w == b'[i] + 0x100 * b'[i + 1] + 0x1_0000 * b'[i + 2] + 0x100_0000 * b'[i + 3]
  {
    var x := w / 0x100;
    var y := x / 0x100;
    assert y == w / 0x1_0000 && y / 0x100 == w / 0x100_0000;
  }

  /** The effect of a record; the main loop has already moved on to the next one. */
  function Execute(e: Env, a: Instr, s: State): State
    requires Regs(a) && |s.r| == 16
  {
    match a
    case SubsImm(rd, imm) =>
      s.(r := s.r[rd := Plus(s.r[rd], -(imm as int))], flags := CompareFlags(s.r[rd], imm))
    case StoreTwo(cond, rn, ra, rb) =>
      if !Holds(cond, s.flags) then s
      else
        var addr := s.r[rn];
        var page := e.store(addr / PAGE);
        var ofs := addr % PAGE / 4 * 4;
        if ofs <= 0x1000 - 8 && page != NULL && page in s.pages then
          s.(pages := s.pages[page := PutWord(PutWord(s.pages[page], ofs, s.r[ra]), ofs + 4, s.r[rb])],
             r := s.r[rn := Plus(addr, 8)])
        else e.slow(a, s)
    case LoadByte(rd, rn, imm) =>
      var addr := Plus(s.r[rn], imm);
      var page := e.load(addr / PAGE);
      if page != NULL && page in s.pages && addr % PAGE < |s.pages[page]| then
        s.(r := s.r[rd := s.pages[page][addr % PAGE] % 256][rn := addr])
      else e.slow(a, s)
    case CmpsImm(rn, imm) => s.(flags := CompareFlags(s.r[rn], imm))
    case Branch(cond, target) => if Holds(cond, s.flags) then s.(next := target) else s
  }

  /** Two words that would cross the end of a page are not stored through its host address. */
  lemma CrossingIsSlow(e: Env, cond: Cond, rn: nat, ra: nat, rb: nat, s: State)
    requires Regs(StoreTwo(cond, rn, ra, rb)) && |s.r| == 16 && Holds(cond, s.flags) && s.r[rn] % 0x1000 >= 0xffc
    ensures Execute(e, StoreTwo(cond, rn, ra, rb), s) == e.slow(StoreTwo(cond, rn, ra, rb), s)
  {
    hide Holds;
  }

  predicate Program(prog: seq<Instr>) {
    forall i :: 0 <= i < |prog| ==> Regs(prog[i])
  }

  /** One turn of the main loop; nothing happens outside the program. */
  function Step(prog: seq<Instr>, e: Env, s: State): State
    requires Program(prog)
  {
    if s.next < |prog| && |s.r| == 16 then Execute(e, prog[s.next], s.(next := s.next + 1)) else s
  }

  function Steps(prog: seq<Instr>, e: Env, s: State, n: nat): State
    requires Program(prog)
    decreases n
  {
    if n == 0 then s else Steps(prog, e, Step(prog, e, s), n - 1)
  }

  lemma {:induction false} StepsAdd(prog: seq<Instr>, e: Env, s: State, a: nat, b: nat)
    requires Program(prog)
    ensures Steps(prog, e, s, a + b) == Steps(prog, e, Steps(prog, e, s, a), b)
    decreases a
  {
    if a > 0 { StepsAdd(prog, e, Step(prog, e, s), a - 1, b); }
  }

  lemma StepsNone(prog: seq<Instr>, e: Env, s: State)
    requires Program(prog)
    ensures Steps(prog, e, s, 0) == s
  {
  }

  lemma StepsOne(prog: seq<Instr>, e: Env, s: State)
    requires Program(prog)
    ensures Steps(prog, e, s, 1) == Step(prog, e, s)
  {
    assert Steps(prog, e, s, 1) == Steps(prog, e, Step(prog, e, s), 0);
  }

  // ----- memset

  const IP := 12

  function Store16(): seq<Instr> { seq(16, _ => StoreTwo(GE, IP, 2, 3)) }

  /** `subs rX,rX,#0x80`, sixteen times `stmgeia ip!,{r2,r3}`, `bgt` back. */
  function Memset(x: nat): seq<Instr> { [SubsImm(x, 128)] + Store16() + [Branch(GT, 0)] }

  /** The matched store instruction, 0x08ac000c: its base register and its list. */
  lemma MatchedStore(k: nat)
    requires k < 16
    ensures Store16()[k] == StoreTwo(GE, 0x08ac_000c / 0x1_0000 % 16, 2, 3)
    ensures forall i :: 0 <= i < 16 ==> (Bits.Bit(0x08ac_000c % 0x1_0000, i) <==> i == 2 || i == 3)
  {
    hide Bits.Bit;
    forall i | 0 <= i < 16 ensures Bits.Bit(12, i) <==> i == 2 || i == 3 { TwelveBits(i); }
  }

  lemma TwelveBits(i: nat)
    ensures Bits.Bit(12, i) <==> i == 2 || i == 3
  {
    assert Bits.Bit(12, 0) == Bits.Bit(12, 1) == false && Bits.Bit(12, 2) && Bits.Bit(12, 3);
    if i >= 4 {
      Bits.NoBitAbove(12, 4, i);
    }
  }

  lemma MemsetAt(x: nat)
    requires x < 15
    ensures Program(Memset(x)) && |Memset(x)| == 18
    ensures Memset(x)[0] == SubsImm(x, 128) && Memset(x)[17] == Branch(GT, 0)
    ensures forall i :: 1 <= i <= 16 ==> Memset(x)[i] == StoreTwo(GE, IP, 2, 3)
  {
  }

  /** `memset(page + ofs, 0, n)`. */
  function ZeroRange(b: seq<nat>, ofs: nat, n: nat): (b': seq<nat>)
    ensures |b'| == |b|
  {
    seq(|b|, i requires 0 <= i < |b| => if ofs <= i < ofs + n then 0 else b[i])
  }

  lemma {:induction false} SkipStores(x: nat, e: Env, s: State, n: nat)
    requires x < 15 && |s.r| == 16 && s.next + n == 17 && n <= 16 && !Holds(GE, s.flags)
    ensures Program(Memset(x)) && Steps(Memset(x), e, s, n) == s.(next := 17)
    decreases n
  {
    MemsetAt(x);
    if n > 0 { SkipStores(x, e, s.(next := s.next + 1), n - 1); }
  }

  lemma PutZeroWords(b: seq<nat>, base: nat, k: nat)
    requires |b| == PAGE && base + 8 * k + 8 <= PAGE
    ensures PutWord(PutWord(ZeroRange(b, base, 8 * k), base + 8 * k, 0), base + 8 * k + 4, 0) == ZeroRange(b, base, 8 * k + 8)
  {
  }

  /** `addr & 0xffc`: a store drops the lowest address bits, wherever the base register points. */
  function WordOffset(a: Word): nat { a % PAGE / 4 * 4 }

  /** The state after `k` of the sixteen stores. */
  function Stored(s: State, page: Ptr, k: nat): State
    requires |s.r| == 16 && page in s.pages
  {
    s.(next := 1 + k, r := s.r[IP := Plus(s.r[IP], 8 * k)],
       pages := s.pages[page := ZeroRange(s.pages[page], WordOffset(s.r[IP]), 8 * k)])
  }

  ghost predicate CanClear(e: Env, s: State) {
    && Proper(e, s) && Holds(GE, s.flags) && s.r[2] == 0 && s.r[3] == 0
    && s.r[IP] % PAGE + 128 <= PAGE && e.store(s.r[IP] / PAGE) != NULL
  }

  lemma WithinPage(a: Word, k: nat)
    requires a % PAGE + 128 <= PAGE && k < 16
    ensures Plus(a, 8 * k) == a + 8 * k && (a + 8 * k) / PAGE == a / PAGE
    ensures (a + 8 * k) % PAGE / 4 * 4 == WordOffset(a) + 8 * k <= 0x1000 - 8
  {
    var r := a % PAGE;
    DivModPage(a + 8 * k, a / PAGE, r + 8 * k);
    Bytes.DivMod4(r + 8 * k, r / 4 + 2 * k, r % 4);
    NoWrap(a, 8 * k);
  }

  lemma DivModPage(x: nat, q: nat, r: nat)
    requires x == PAGE * q + r && r < PAGE
    ensures x / PAGE == q && x % PAGE == r
  {
  }

  lemma NoWrap(a: Word, d: nat)
    requires a % PAGE + d < PAGE
    ensures Plus(a, d) == a + d
  {
  }

  lemma OneStore(x: nat, e: Env, s: State, k: nat)
    requires x < 15 && CanClear(e, s) && k < 16
    ensures Program(Memset(x))
    ensures var page := e.store(s.r[IP] / PAGE);
            Step(Memset(x), e, Stored(s, page, k)) == Stored(s, page, k + 1)
  {
    hide PutWord, ZeroRange, CompareFlags, Memset, Plus;
    MemsetAt(x);
    var page := e.store(s.r[IP] / PAGE);
    var t, u := Stored(s, page, k), Stored(s, page, k + 1);
    var a := s.r[IP];
    WithinPage(a, k);
    PlusPlus(a, 8 * k, 8);
    PutZeroWords(s.pages[page], WordOffset(a), k);
    var v := Step(Memset(x), e, t);
    assert v.r == u.r;
    assert v.pages == u.pages;
  }

  lemma {:induction false} ClearStores(x: nat, e: Env, s: State, k: nat)
    requires x < 15 && CanClear(e, s) && k <= 16
    ensures Program(Memset(x))
    ensures var page := e.store(s.r[IP] / PAGE);
            Steps(Memset(x), e, Stored(s, page, k), 16 - k) == Stored(s, page, 16)
    decreases 16 - k
  {
    MemsetAt(x);
    if k < 16 {
      OneStore(x, e, s, k);
      ClearStores(x, e, s, k + 1);
    }
  }

  lemma StoredNone(s: State, page: Ptr)
    requires |s.r| == 16 && page in s.pages && s.next == 1
    ensures Stored(s, page, 0) == s
  {
    assert s.r[IP := Plus(s.r[IP], 0)] == s.r;
    assert ZeroRange(s.pages[page], WordOffset(s.r[IP]), 0) == s.pages[page];
    assert s.pages[page := s.pages[page]] == s.pages;
  }

  /** The subtraction that every turn of the loop begins with. */
  function Counted(x: nat, s: State): State
    requires x < 15 && |s.r| == 16
  {
    s.(next := 1, r := s.r[x := Plus(s.r[x], -128)], flags := CompareFlags(s.r[x], 128))
  }

  lemma MemsetStarts(x: nat, e: Env, s: State)
    requires x < 15 && |s.r| == 16 && s.next == 0
    ensures Program(Memset(x)) && Steps(Memset(x), e, s, 1) == Counted(x, s)
  {
    hide CompareFlags, Memset, Plus;
    MemsetAt(x);
    StepsOne(Memset(x), e, s);
  }

  lemma MemsetEnds(x: nat, e: Env, s: State)
    requires x < 15 && |s.r| == 16 && s.next == 17
    ensures Program(Memset(x)) && Steps(Memset(x), e, s, 1) == s.(next := if Holds(GT, s.flags) then 0 else 18)
  {
    hide Memset, Holds;
    MemsetAt(x);
    StepsOne(Memset(x), e, s);
  }

  /** A whole turn of the loop. */
  lemma MemsetTurn(x: nat, e: Env, s: State)
    requires x < 15 && Proper(e, s) && s.next == 0 && CanClear(e, Counted(x, s))
    ensures Program(Memset(x))
    ensures
      var c := Counted(x, s);
      var d := Stored(c, e.store(c.r[IP] / PAGE), 16);
      Steps(Memset(x), e, s, 18) == d.(next := if Holds(GT, c.flags) then 0 else 18)
  {
    hide CompareFlags, Memset, Plus, ZeroRange, Holds, Mapped, Execute, Steps;
    var prog, c := Memset(x), Counted(x, s);
    var page := e.store(c.r[IP] / PAGE);
    MappedStill(e, s.pages, c.r[IP] / PAGE, seq(PAGE, _ => 0));
    MemsetStarts(x, e, s);
    StoredNone(c, page);
    ClearStores(x, e, c, 0);
    StepsAdd(prog, e, s, 1, 16);
    StepsAdd(prog, e, s, 17, 1);
    MemsetEnds(x, e, Stored(c, page, 16));
  }

  /** The state after a whole turn of the loop, as the fused function leaves it. */
  function Cleared(x: nat, s: State, page: Ptr): State
    requires x < 15 && |s.r| == 16 && page in s.pages
  {
    var c := Counted(x, s);
    c.(r := c.r[IP := Plus(s.r[IP], 128)],
       pages := s.pages[page := ZeroRange(s.pages[page], s.r[IP] % PAGE, 128)])
  }

  lemma StillAligned(a: Word)
    requires a % 4 == 0
    ensures Plus(a, 128) % 4 == 0 && WordOffset(a) == a % PAGE
  {
    var q := a / 4;
    Bytes.DivMod4(Plus(a, 128), if a + 128 < TWO32 then q + 32 else q + 32 - TWO32 / 4, 0);
    Bytes.DivMod4(a % PAGE, q - a / PAGE * (PAGE / 4), 0);
  }

  /**
   A loop that counts down the register it stores through: the plain instructions leave it where it was,
   the fused function 128 above.
   */
  lemma MemsetOwnCounter(x: nat, e: Env, s: State)
    requires x == IP && Proper(e, s) && s.next == 0 && CanClear(e, Counted(x, s))
    ensures Program(Memset(x))
    ensures var after := Steps(Memset(x), e, s, 18); |after.r| == 16 && after.r[IP] == s.r[IP] != Plus(s.r[IP], 128)
  {
    hide CompareFlags, Memset, ZeroRange, Holds, Mapped, Steps;
    MemsetTurn(x, e, s);
    PlusPlus(s.r[IP], -128, 128);
  }

  /** The fused function runs a turn of its own. */
  ghost predicate MayClear(x: nat, e: Env, s: State, page: Ptr) {
    && x < 15 && Proper(e, s) && s.next == 0 && Holds(GE, Counted(x, s).flags)
    && s.r[IP] % PAGE + 128 <= PAGE && e.store(s.r[IP] / PAGE) == page != NULL
    && Counted(x, s).r[2] == 0 && Counted(x, s).r[3] == 0
  }

  /** Byte `i` of the page is cleared by one of the two versions and not by the other. */
  predicate OnEdge(a: Word, i: nat) {
    WordOffset(a) <= i < a % PAGE || WordOffset(a) + 128 <= i < a % PAGE + 128
  }

  /** All such bytes are zero already. */
  predicate EdgesClear(b: seq<nat>, a: Word) {
    forall i :: 0 <= i < |b| && OnEdge(a, i) ==> b[i] == 0
  }

  lemma EdgesClearIff(b: seq<nat>, a: Word)
    requires |b| == PAGE && a % PAGE + 128 <= PAGE
    ensures ZeroRange(b, WordOffset(a), 128) == ZeroRange(b, a % PAGE, 128) <==> EdgesClear(b, a)
  {
    var x, y := ZeroRange(b, WordOffset(a), 128), ZeroRange(b, a % PAGE, 128);
    assert WordOffset(a) <= a % PAGE < WordOffset(a) + 128;
    if EdgesClear(b, a) {
      assert x == y;
    } else {
      var i :| 0 <= i < |b| && OnEdge(a, i) && b[i] != 0;
      assert x[i] != y[i];
    }
  }

  /**
   A turn of the fused loop equals the eighteen plain instructions exactly when the few bytes between
   the address and the word it lies in are zero at both ends. A word-aligned address has none.
   */
  lemma MemsetTurnIff(x: nat, e: Env, s: State, page: Ptr)
    requires MayClear(x, e, s, page) && x != IP
    ensures Program(Memset(x)) && page in s.pages && Proper(e, Cleared(x, s, page))
    ensures
      Steps(Memset(x), e, s, 18) == Cleared(x, s, page).(next := if Holds(GT, Counted(x, s).flags) then 0 else 18)
      <==> EdgesClear(s.pages[page], s.r[IP])
    ensures s.r[IP] % 4 == 0 ==> EdgesClear(s.pages[page], s.r[IP])
  {
    hide CompareFlags, Memset, ZeroRange, Holds, Mapped, Plus, Steps, EdgesClear, WordOffset;
    assert Counted(x, s).r[IP] == s.r[IP];
    MappedStill(e, s.pages, s.r[IP] / PAGE, seq(PAGE, _ => 0));
    MappedStill(e, s.pages, s.r[IP] / PAGE, ZeroRange(s.pages[page], s.r[IP] % PAGE, 128));
    MemsetTurn(x, e, s);
    var d := Stored(Counted(x, s), page, 16);
    assert d.pages[page] == ZeroRange(s.pages[page], WordOffset(s.r[IP]), 128);
    assert Cleared(x, s, page).pages[page] == ZeroRange(s.pages[page], s.r[IP] % PAGE, 128);
    EdgesClearIff(s.pages[page], s.r[IP]);
    if s.r[IP] % 4 == 0 { AlignedEdges(s.pages[page], s.r[IP]); }
  }

  lemma AlignedEdges(b: seq<nat>, a: Word)
    requires a % 4 == 0
    ensures EdgesClear(b, a)
  {
    StillAligned(a);
  }

  /** At address 1 of a page that starts with a one, the plain loop clears that byte and the fused one does not. */
  lemma MisalignedMemset()
    ensures
      var b: seq<nat> := seq(PAGE, i => if i == 0 then 1 else 0);
      var e := Env(n => NULL, n => if n == 0 then 1 else NULL, (a: Instr, s: State) => s);
      var r: seq<Word> := seq(16, i => if i == IP then 1 else if i == 0 then 128 else 0);
      var s := State(r, Flags(false, false, false, false), 0, map[1 := b]);
      && MayClear(0, e, s, 1) && Program(Memset(0))
      && Steps(Memset(0), e, s, 18) != Cleared(0, s, 1).(next := if Holds(GT, Counted(0, s).flags) then 0 else 18)
      && Cleared(0, s, 1).pages[1][0] == 1
  {
    var b: seq<nat> := seq(PAGE, i => if i == 0 then 1 else 0);
    var e := Env(n => NULL, n => if n == 0 then 1 else NULL, (a: Instr, s: State) => s);
    var r: seq<Word> := seq(16, i => if i == IP then 1 else if i == 0 then 128 else 0);
    var s := State(r, Flags(false, false, false, false), 0, map[1 := b]);
    assert Mapped(e, s.pages);
    assert CompareFlags(128, 128) == Flags(false, true, true, false);
    TablesMean(Counted(0, s).flags);
    MemsetTurnIff(0, e, s, 1);
    assert b[0] != 0 && OnEdge(1, 0);
  }

  /** The turn of the fused function at `s`, if it runs one, does what the plain instructions do. */
  ghost predicate Agrees(x: nat, e: Env, s: State) {
    |s.r| == 16 && x != IP &&
    (var page := e.store(s.r[IP] / PAGE); page in s.pages ==> EdgesClear(s.pages[page], s.r[IP]))
  }

  lemma MemsetClears(x: nat, e: Env, s: State, page: Ptr)
    requires MayClear(x, e, s, page)
    ensures Program(Memset(x)) && page in s.pages && Proper(e, Cleared(x, s, page))
    ensures Agrees(x, e, s) ==>
      Steps(Memset(x), e, s, 18) == Cleared(x, s, page).(next := if Holds(GT, Counted(x, s).flags) then 0 else 18)
    ensures Holds(GT, Counted(x, s).flags) ==> 0 <= Left(x, Cleared(x, s, page).r[x]) < Left(x, s.r[x])
  {
    hide CompareFlags, Memset, ZeroRange, Holds, Mapped, Plus, Steps, WordOffset, EdgesClear;
    MemsetAt(x);
    MappedStill(e, s.pages, s.r[IP] / PAGE, seq(PAGE, _ => 0));
    MappedStill(e, s.pages, s.r[IP] / PAGE, ZeroRange(s.pages[page], s.r[IP] % PAGE, 128));
    if x != IP { MemsetTurnIff(x, e, s, page); }
    if Holds(GT, Counted(x, s).flags) { CounterFalls(x, s.r[x]); }
  }

  /** What the fused function has left to do when its counter is `a`. */
  function Left(x: nat, a: Word): int {
    if x != IP then Signed(a) else if Signed(a) < 0 then 0 else 0x8000_0000 - Signed(a)
  }

  /** A turn of the fused function that leads to another. */
  ghost predicate FusedTurn(x: nat, e: Env, s: State, s': State) {
    && |s.r| == 16
    && (var page := e.store(s.r[IP] / PAGE);
        && MayClear(x, e, s, page) && page in s.pages && Holds(GT, Counted(x, s).flags)
        && s' == Cleared(x, s, page).(next := 0))
  }

  ghost predicate FusedRun(x: nat, e: Env, starts: seq<State>) {
    forall k :: 0 <= k < |starts| - 1 ==> FusedTurn(x, e, starts[k], starts[k + 1])
  }

  /** How it is left: after the loop, at the first store, or at the branch. */
  ghost predicate LeavesAs(x: nat, e: Env, s: State, after: State)
    requires x < 15 && |s.r| == 16
  {
    var c, page := Counted(x, s), e.store(s.r[IP] / PAGE);
    if !Holds(GE, c.flags) then after == c.(next := 17)
    else if MayClear(x, e, s, page) && page in s.pages then
      !Holds(GT, c.flags) && after == Cleared(x, s, page).(next := 18)
    else after == c
  }

  /** The plain instructions that a turn stands for when the fused function is left. */
  ghost function LastSteps(x: nat, e: Env, s: State): nat
    requires x < 15 && |s.r| == 16
  {
    if !Holds(GE, Counted(x, s).flags) then 17 else if MayClear(x, e, s, e.store(s.r[IP] / PAGE)) then 18 else 1
  }

  lemma LeavesSteps(x: nat, e: Env, s: State, after: State)
    requires x < 15 && Proper(e, s) && s.next == 0 && LeavesAs(x, e, s, after)
    ensures Program(Memset(x)) && (Agrees(x, e, s) ==> after == Steps(Memset(x), e, s, LastSteps(x, e, s)))
  {
    hide CompareFlags, Memset, Plus, ZeroRange, Holds, Steps, Program, Agrees, Left;
    var page := e.store(s.r[IP] / PAGE);
    if !Holds(GE, Counted(x, s).flags) {
      MemsetSkips(x, e, s);
    } else if MayClear(x, e, s, page) {
      MemsetClears(x, e, s, page);
    } else {
      MemsetStarts(x, e, s);
    }
  }

  lemma TurnSteps(x: nat, e: Env, s: State, s': State)
    requires FusedTurn(x, e, s, s')
    ensures |s'.r| == 16 && Proper(e, s') && s'.next == 0 && Program(Memset(x))
    ensures x < 15 && 0 <= Left(x, s'.r[x]) < Left(x, s.r[x])
    ensures Agrees(x, e, s) ==> s' == Steps(Memset(x), e, s, 18)
  {
    hide CompareFlags, Memset, Plus, ZeroRange, Holds, Steps, Program, Agrees, Left;
    MemsetClears(x, e, s, e.store(s.r[IP] / PAGE));
  }

  lemma FusedNone(x: nat, e: Env, s: State)
    ensures FusedRun(x, e, [s])
  {
  }

  lemma FusedMore(x: nat, e: Env, starts: seq<State>, after: State)
    requires FusedRun(x, e, starts) && starts != [] && FusedTurn(x, e, starts[|starts| - 1], after)
    ensures FusedRun(x, e, starts + [after])
  {
    hide FusedTurn;
    var more := starts + [after];
    forall k | 0 <= k < |starts| ensures FusedTurn(x, e, more[k], more[k + 1]) {
      if k < |starts| - 1 { assert FusedTurn(x, e, starts[k], starts[k + 1]); }
    }
  }

  /** From an aligned address every turn agrees. */
  lemma {:induction false} AlignedRun(x: nat, e: Env, starts: seq<State>, k: nat)
    requires FusedRun(x, e, starts) && k < |starts| && x != IP && forall j :: 0 <= j < |starts| ==> |starts[j].r| == 16
    requires starts[0].r[IP] % 4 == 0
    ensures starts[k].r[IP] % 4 == 0 && Agrees(x, e, starts[k])
  {
    hide CompareFlags, ZeroRange, Holds, Plus, WordOffset, EdgesClear;
    if k > 0 {
      var j := k - 1;
      AlignedRun(x, e, starts, j);
      assert FusedTurn(x, e, starts[j], starts[j + 1]);
      StillAligned(starts[j].r[IP]);
    }
    var page := e.store(starts[k].r[IP] / PAGE);
    if page in starts[k].pages { AlignedEdges(starts[k].pages[page], starts[k].r[IP]); }
  }

  /** The stores are skipped, and the loop ends at the branch. */
  lemma MemsetSkips(x: nat, e: Env, s: State)
    requires x < 15 && |s.r| == 16 && s.next == 0 && !Holds(GE, Counted(x, s).flags)
    ensures Program(Memset(x)) && Steps(Memset(x), e, s, 17) == Counted(x, s).(next := 17)
  {
    hide CompareFlags, Memset, Plus, Holds;
    MemsetAt(x);
    SkipStores(x, e, Counted(x, s), 16);
    StepsAdd(Memset(x), e, s, 1, 16);
    MemsetStarts(x, e, s);
  }

  /** The counter falls as long as the loop goes on; if it is the address, that rises until its sign turns. */
  lemma CounterFalls(x: nat, a: Word)
    requires Holds(GT, CompareFlags(a, 128))
    ensures 0 <= Left(x, Plus(a, if x == IP then 128 else -128)) < Left(x, a)
  {
    ComparisonMeans(a, 128);
  }

  // ----- strlen

  /** `ldrb r3,[rX,#1]!`, `cmps r3,#0`, `bne` back. */
  function Strlen(x: nat): seq<Instr> { [LoadByte(3, x, 1), CmpsImm(3, 0), Branch(NE, 0)] }

  /** The byte that one turn of the loop reads, if its page is in the fast-path table. */
  ghost predicate Readable(e: Env, s: State, x: nat)
    requires |s.r| == 16 && x < 15
  {
    e.load(Plus(s.r[x], 1) / PAGE) != NULL
  }

  function ByteAt(e: Env, pages: map<Ptr, seq<nat>>, a: Word): (b: nat)
    ensures b < 256
  {
    var page := e.load(a / PAGE);
    if page in pages && a % PAGE < |pages[page]| then pages[page][a % PAGE] % 256 else 0
  }

  /** The state after one turn of the loop. */
  function StrlenTurn(e: Env, s: State, x: nat): State
    requires |s.r| == 16 && x < 15
  {
    var a := Plus(s.r[x], 1);
    var byte := ByteAt(e, s.pages, a);
    s.(r := s.r[3 := byte][x := a], flags := Flags(false, byte == 0, true, false), next := if byte == 0 then 3 else 0)
  }

  /** The address that a turn loads from compares with zero as the byte there does. */
  predicate LooksAlike(e: Env, s: State, x: nat)
    requires |s.r| == 16 && x < 15
  {
    var a := Plus(s.r[x], 1);
    a < 0x8000_0000 && (a == 0 <==> ByteAt(e, s.pages, a) == 0)
  }

  /**
   A turn of the fused loop equals the three plain instructions exactly when its base is not r3, where the
   byte goes, or comparing the base with zero comes to the same.
   */
  lemma StrlenOneTurn(x: nat, e: Env, s: State)
    requires x < 15 && Proper(e, s) && s.next == 0 && Readable(e, s, x)
    ensures Program(Strlen(x))
    ensures Steps(Strlen(x), e, s, 3) == StrlenTurn(e, s, x) <==> x != 3 || LooksAlike(e, s, x)
  {
    hide CompareFlags, Holds;
    var prog := Strlen(x);
    assert Program(prog);
    var s1 := Step(prog, e, s);
    var s2 := Step(prog, e, s1);
    var s3 := Step(prog, e, s2);
    var a := Plus(s.r[x], 1);
    var byte := ByteAt(e, s.pages, a);
    assert s1 == s.(next := 1, r := s.r[3 := byte][x := a]);
    assert s2 == s1.(next := 2, flags := CompareFlags(s1.r[3], 0));
    ZeroFlags(s1.r[3]);
    assert s3.r == s1.r && s3.flags == s2.flags;
    assert Steps(prog, e, s, 3) == Steps(prog, e, s1, 2) == Steps(prog, e, s2, 1) == Steps(prog, e, s3, 0);
  }

  lemma ZeroFlags(a: Word)
    ensures CompareFlags(a, 0) == Flags(a >= 0x8000_0000, a == 0, true, false)
    ensures Holds(NE, CompareFlags(a, 0)) <==> a != 0
  {
  }

  /** A string that starts with its end, one above address 0 in r3: the plain loop goes on. */
  lemma StrlenOwnBase()
    ensures
      var b: seq<nat> := seq(PAGE, _ => 0);
      var e := Env(n => if n == 0 then 1 else NULL, n => NULL, (a: Instr, s: State) => s);
      var s := State(seq(16, _ => 0), Flags(false, false, false, false), 0, map[1 := b]);
      && Proper(e, s) && Readable(e, s, 3) && Program(Strlen(3))
      && StrlenTurn(e, s, 3).next == 3 && Steps(Strlen(3), e, s, 3) != StrlenTurn(e, s, 3)
  {
    var b: seq<nat> := seq(PAGE, _ => 0);
    var e := Env(n => if n == 0 then 1 else NULL, n => NULL, (a: Instr, s: State) => s);
    var s := State(seq(16, _ => 0), Flags(false, false, false, false), 0, map[1 := b]);
    StrlenOneTurn(3, e, s);
  }

  lemma StrlenProgram(x: nat)
    requires x < 15
    ensures Program(Strlen(x))
  {
  }

  lemma StrlenStart(x: nat, e: Env, s: State)
    requires x < 15 && |s.r| == 16
    ensures StrlenTurns(e, s, x, 0) == s && (x != 3 ==> forall n :: StrlenAgrees(e, s, x, n))
  {
  }

  lemma StrlenMore(x: nat, e: Env, s: State, n: nat)
    requires x < 15 && |s.r| == 16 && Program(Strlen(x))
    requires
      var t := StrlenTurns(e, s, x, n);
      Proper(e, t) && t.next == 0 && Readable(e, t, x) && (StrlenAgrees(e, s, x, n) ==> t == Steps(Strlen(x), e, s, n * 3))
    ensures StrlenTurns(e, s, x, n + 1) == StrlenTurn(e, StrlenTurns(e, s, x, n), x)
    ensures StrlenAgrees(e, s, x, n + 1) ==> StrlenTurns(e, s, x, n + 1) == Steps(Strlen(x), e, s, (n + 1) * 3)
  {
    hide Strlen, Steps, LooksAlike, Mapped, StrlenTurn, Program;
    var t := StrlenTurns(e, s, x, n);
    StrlenOneTurn(x, e, t);
    StepsAdd(Strlen(x), e, s, n * 3, 3);
    assert StrlenAgrees(e, s, x, n + 1) ==> StrlenAgrees(e, s, x, n) && (x != 3 || LooksAlike(e, t, x));
  }

  lemma StrlenLeaves(x: nat, e: Env, s: State)
    requires x < 15 && |s.r| == 16 && s.next == 0
    ensures Program(Strlen(x)) && Steps(Strlen(x), e, s, 1) == Execute(e, LoadByte(3, x, 1), s.(next := 1))
  {
    hide Execute;
    StrlenProgram(x);
    StepsOne(Strlen(x), e, s);
  }

  /** The state after `n` turns of the fused loop. */
  function StrlenTurns(e: Env, s: State, x: nat, n: nat): (t: State)
    requires |s.r| == 16 && x < 15
    ensures |t.r| == 16 && t.pages == s.pages
  {
    if n == 0 then s else StrlenTurn(e, StrlenTurns(e, s, x, n - 1), x)
  }

  /** The first `n` turns do what the plain instructions do. */
  ghost predicate StrlenAgrees(e: Env, s: State, x: nat, n: nat)
    requires |s.r| == 16 && x < 15
  {
    x != 3 || forall k :: 0 <= k < n ==> LooksAlike(e, StrlenTurns(e, s, x, k), x)
  }

  /** Within `n` turns the loop meets the end of the string or a page outside the fast path. */
  ghost predicate Ends(e: Env, s: State, x: nat, n: nat)
    requires |s.r| == 16 && x < 15
    decreases n
  {
    n > 0 &&
    (!Readable(e, s, x) || ByteAt(e, s.pages, Plus(s.r[x], 1)) == 0 || Ends(e, StrlenTurn(e, s, x), x, n - 1))
  }

  // ----- the fused functions

  class Cpu {
    var r: seq<Word>
    var flags: Flags
    var next: nat
    var pages: map<Ptr, seq<nat>>
    var count: nat

    function Now(): State
      reads this
    {
      State(r, flags, next, pages)
    }

    /** subs, called directly. */
    method Subs(x: nat)
      requires x < 15 && |r| == 16
      modifies `r, `flags
      ensures r == old(r)[x := Plus(old(r)[x], -128)] && flags == CompareFlags(old(r)[x], 128)
    {
      var a := r[x];
      r := r[x := Plus(a, -128)];
      flags := CompareFlags(a, 128);
    }

    /** One turn of the loop in the fused memset. */
    method ClearTurn(x: nat, e: Env) returns (again: bool)
      requires x < 15 && Proper(e, Now()) && next == 1
      modifies this
      ensures again ==> FusedTurn(x, e, old(Now()).(next := 0), Now().(next := 0)) && next == 1
      ensures !again ==> LeavesAs(x, e, old(Now()).(next := 0), Now())
      ensures count == old(count) + if again then 17 else LastSteps(x, e, old(Now()).(next := 0)) - 1
    {
      hide CompareFlags, Plus, ZeroRange, Holds, Mapped;
      ghost var t := Now().(next := 0);
      var addr := r[IP];
      Subs(x);
      TablesMean(flags);
      if flags.n != flags.v {
        count := count + 16;
        next := 17;
        return false;
      }
      var page := e.store(addr / PAGE);
      if addr % PAGE + 128 > 0x1000 || r[2] != 0 || r[3] != 0 || page == NULL { return false; }
      MappedStill(e, pages, addr / PAGE, seq(PAGE, _ => 0));
      pages := pages[page := ZeroRange(pages[page], addr % PAGE, 128)];
      r := r[IP := Plus(addr, 128)];
      count := count + 16;
      count := count + 1;
      if flags.n == flags.v && !flags.z { return true; }
      next := 18;
      return false;
    }

    /**
     One turn of the main loop at a fused memset. `starts` are the states at the start of its turns: the
     result is what they lead to. If each turn agrees with the plain instructions, the result is that of
     `steps` turns at those; the instruction count falls short by one for every turn of the loop but the
     first.
     */
    method NetbsdMemset(x: nat, e: Env) returns (ghost steps: nat, ghost starts: seq<State>)
      requires x < 15 && Proper(e, Now()) && next == 0
      modifies this
      ensures starts != [] && starts[0] == old(Now()) && FusedRun(x, e, starts)
      ensures (forall k :: 0 <= k < |starts| ==> |starts[k].r| == 16) && LeavesAs(x, e, starts[|starts| - 1], Now())
      ensures Program(Memset(x)) && steps > 0 && count + |starts| == old(count) + steps + 1
      ensures (forall k :: 0 <= k < |starts| ==> Agrees(x, e, starts[k])) ==>
        Now() == Steps(Memset(x), e, old(Now()), steps)
      ensures x != IP && old(r)[IP] % 4 == 0 ==> Now() == Steps(Memset(x), e, old(Now()), steps)
    {
      hide CompareFlags, Memset, Plus, ZeroRange, Holds, Steps, Program, Mapped, Agrees, FusedRun, FusedTurn, Left,
        LeavesAs, MayClear, Counted;
      MemsetAt(x);
      next := 1;
      count := count + 1;
      ghost var s := old(Now());
      ghost var done: nat := 0;
      starts := [s];
      FusedNone(x, e, s);
      StepsNone(Memset(x), e, s);
      var again := true;
      while again
        invariant starts != [] && starts[0] == s && FusedRun(x, e, starts)
        invariant forall k :: 0 <= k < |starts| ==> |starts[k].r| == 16
        invariant again ==> next == 1 && Proper(e, Now()) && starts[|starts| - 1] == Now().(next := 0)
        invariant again ==> (forall k :: 0 <= k < |starts| - 1 ==> Agrees(x, e, starts[k])) ==>
          Now().(next := 0) == Steps(Memset(x), e, s, done)
        invariant again ==> count + |starts| == old(count) + done + 2
        invariant !again ==> LeavesAs(x, e, starts[|starts| - 1], Now()) && done > 0
        invariant !again ==> (forall k :: 0 <= k < |starts| ==> Agrees(x, e, starts[k])) ==>
          Now() == Steps(Memset(x), e, s, done)
        invariant !again ==> count + |starts| == old(count) + done + 1
        decreases again, if again then Left(x, r[x]) else 0
      {
        ghost var t := Now().(next := 0);
        again := ClearTurn(x, e);
        if again {
          TurnSteps(x, e, t, Now().(next := 0));
          StepsAdd(Memset(x), e, s, done, 18);
          done := done + 18;
          FusedMore(x, e, starts, Now().(next := 0));
          ghost var before := starts;
          starts := starts + [Now().(next := 0)];
          assert forall k :: 0 <= k < |before| ==> starts[k] == before[k];
        } else {
          LeavesSteps(x, e, t, Now());
          StepsAdd(Memset(x), e, s, done, LastSteps(x, e, t));
          done := done + LastSteps(x, e, t);
        }
      }
      steps := done;
      if x != IP && old(r)[IP] % 4 == 0 {
        forall k | 0 <= k < |starts| ensures Agrees(x, e, starts[k]) { AlignedRun(x, e, starts, k); }
      }
    }

    /**
     One turn of the main loop at a fused strlen, for a string that ends, or leaves the fast path,
     within `bound` turns. The result is that of `turns` turns, and of the first plain instruction after
     them if the string left the fast path; result and instruction count are those of the plain
     instructions if each turn agrees with them, as it does for any base but r3.
     */
    method StrlenFused(x: nat, e: Env, ghost bound: nat) returns (ghost turns: nat, slow: bool)
      requires x < 15 && Proper(e, Now()) && next == 0 && Ends(e, Now(), x, bound)
      modifies this
      ensures
        var end := StrlenTurns(e, old(Now()), x, turns);
        if slow then !Readable(e, end, x) && Now() == Execute(e, LoadByte(3, x, 1), end.(next := 1))
        else end.next == 3 && Now() == end
      ensures forall k :: 0 <= k < turns ==> StrlenTurns(e, old(Now()), x, k).next == 0
      ensures count == old(count) + 3 * turns + if slow then 1 else 0
      ensures Program(Strlen(x))
      ensures StrlenAgrees(e, old(Now()), x, turns) ==>
        Now() == Steps(Strlen(x), e, old(Now()), 3 * turns + if slow then 1 else 0)
      ensures x != 3 ==> StrlenAgrees(e, old(Now()), x, turns)
    {
      hide CompareFlags, Plus, Steps, ByteAt, LooksAlike, Execute, Strlen, Program, Step, StrlenTurns, StrlenAgrees,
        Mapped;
      ghost var s := old(Now());
      ghost var left := bound;
      StrlenProgram(x);
      next := 1;
      count := count + 1;
      var loops := 0;
      var rx := r[x];
      StepsNone(Strlen(x), e, s);
      StrlenStart(x, e, s);
      while true
        invariant next == 1 && Proper(e, Now()) && rx == r[x] && count == old(count) + 1 && loops >= 0
        invariant Now().(next := 0) == StrlenTurns(e, s, x, loops)
        invariant forall k :: 0 <= k < loops ==> StrlenTurns(e, s, x, k).next == 0
        invariant StrlenAgrees(e, s, x, loops) ==> Now().(next := 0) == Steps(Strlen(x), e, s, loops * 3)
        invariant Ends(e, Now().(next := 0), x, left)
        decreases left
      {
        ghost var t := Now().(next := 0);
        rx := Plus(rx, 1);
        var page := e.load(rx / PAGE);
        if page == NULL {
          StepsAdd(Strlen(x), e, s, loops * 3, 1);
          StrlenLeaves(x, e, t);
          count := count + loops * 3;
          var after := Execute(e, LoadByte(3, x, 1), State(r, flags, next, pages));
          r, flags, next, pages := after.r, after.flags, after.next, after.pages;
          return loops, true;
        }
        StrlenMore(x, e, s, loops);
        var byte := ByteAt(e, pages, rx);
        r := r[3 := byte];
        r := r[x := rx];
        loops := loops + 1;
        flags := Flags(false, byte == 0, true, false);
        if byte == 0 {
          break;
        }
        left := left - 1;
      }
      count := count + (loops * 3 - 1);
      next := 3;
      return loops, false;
    }
  }
}
