/**
 ARM block data transfer: stm and ldm in all four addressing modes, with or without write-back and with
 the S bit, which selects the user mode registers.
 */
module BlockTransfer {
  import opened Arm
  import opened RegisterBanks
  import Bits
  import Bytes

  // ----- words in memory

  /** The four bytes at an aligned address. */
  datatype Octets = Octets(b0: nat, b1: nat, b2: nat, b3: nat)

  const WORDS := 0x4000_0000

  function Little(w: Word): Octets {
    Octets(w % 0x100, w / 0x100 % 0x100, w / 0x1_0000 % 0x100, w / 0x100_0000)
  }

  function Swap(w: Word): Word {
    Sum(w / 0x100_0000, w / 0x1_0000 % 0x100, w / 0x100 % 0x100, w % 0x100)
  }

  /** The bytes that the slow path hands to memory. */
  function Encode(big: bool, w: Word): Octets {
    var o := Little(w);
    if big then Octets(o.b3, o.b2, o.b1, o.b0) else o
  }

  /** What a little-endian host stores directly in the page. */
  function HostEncode(big: bool, w: Word): Octets { Little(if big then Swap(w) else w) }

  function FromLittle(o: Octets): Word { Sum(o.b0, o.b1, o.b2, o.b3) % TWO32 }

  function Decode(big: bool, o: Octets): Word {
    FromLittle(if big then Octets(o.b3, o.b2, o.b1, o.b0) else o)
  }

  function HostDecode(big: bool, o: Octets): Word {
    var w := FromLittle(o);
    if big then Swap(w) else w
  }

  /** A word from its bytes. */
  function Sum(b0: nat, b1: nat, b2: nat, b3: nat): nat { b0 + 0x100 * b1 + 0x1_0000 * b2 + 0x100_0000 * b3 }

  lemma Expand(w: Word)
    ensures w == Sum(w % 0x100, w / 0x100 % 0x100, w / 0x1_0000 % 0x100, w / 0x100_0000)
    ensures w / 0x100_0000 < 0x100
  {
    var a := w / 0x100;
    var b := a / 0x100;
    assert b == w / 0x1_0000;
    assert b / 0x100 == w / 0x100_0000;
  }

  /** Which byte goes where, in either byte order. */
  lemma EncodeMeans(w: Word)
    ensures
      var o := Encode(false, w);
      && o.b0 < 256 && o.b1 < 256 && o.b2 < 256 && o.b3 < 256
      && w == o.b0 + 0x100 * o.b1 + 0x1_0000 * o.b2 + 0x100_0000 * o.b3
      && Encode(true, w) == Octets(o.b3, o.b2, o.b1, o.b0)
  {
    Expand(w);
  }

  lemma LittleRoundTrip(w: Word)
    ensures FromLittle(Little(w)) == w
  {
    hide Sum;
    Expand(w);
  }

  /** The direct path and the slow path agree, and what is stored is what is loaded. */
  lemma PathsAgree(big: bool, w: Word)
    ensures HostEncode(big, w) == Encode(big, w)
    ensures Decode(big, Encode(big, w)) == w
    ensures HostDecode(big, Encode(big, w)) == w
  {
    LittleRoundTrip(w);
    if big {
      LittleRoundTrip(Swap(w));
      SwapLittle(w);
      SwapTwice(w);
    }
  }

  lemma Digits(b0: nat, b1: nat, b2: nat, b3: nat)
    requires b0 < 256 && b1 < 256 && b2 < 256 && b3 < 256
    ensures
      var w := Sum(b0, b1, b2, b3);
      w < TWO32 && w % 0x100 == b0 && w / 0x100 % 0x100 == b1 && w / 0x1_0000 % 0x100 == b2 && w / 0x100_0000 == b3
  {
    var w := Sum(b0, b1, b2, b3);
    var w1, w2 := b1 + 0x100 * b2 + 0x1_0000 * b3, b2 + 0x100 * b3;
    SplitOff(w, w1, b0);
    SplitOff(w1, w2, b1);
    SplitOff(w2, b3, b2);
    assert w == 0x1_0000 * w2 + (b0 + 0x100 * b1) && w == 0x100_0000 * b3 + (b0 + 0x100 * b1 + 0x1_0000 * b2);
  }

  lemma SplitOff(x: nat, q: nat, r: nat)
    requires x == 0x100 * q + r && r < 0x100
    ensures x / 0x100 == q && x % 0x100 == r
  {
  }

  lemma SwapLittle(w: Word)
    ensures Little(Swap(w)) == Encode(true, w)
  {
    hide Sum;
    Expand(w);
    Digits(w / 0x100_0000, w / 0x1_0000 % 0x100, w / 0x100 % 0x100, w % 0x100);
  }

  lemma SwapTwice(w: Word)
    ensures Swap(Swap(w)) == w
  {
    hide Sum;
    Expand(w);
    Digits(w / 0x100_0000, w / 0x1_0000 % 0x100, w / 0x100 % 0x100, w % 0x100);
  }

  /** Any loaded bytes, by either path. */
  lemma LoadsAgree(big: bool, o: Octets)
    requires o.b0 < 256 && o.b1 < 256 && o.b2 < 256 && o.b3 < 256
    ensures HostDecode(big, o) == Decode(big, o)
  {
    hide Sum, Swap;
    SwapSum(o.b0, o.b1, o.b2, o.b3);
    Fits32(Sum(o.b0, o.b1, o.b2, o.b3));
    Fits32(Sum(o.b3, o.b2, o.b1, o.b0));
  }

  lemma Fits32(x: nat)
    requires x < TWO32
    ensures x % TWO32 == x
  {
  }

  lemma SwapSum(b0: nat, b1: nat, b2: nat, b3: nat)
    requires b0 < 256 && b1 < 256 && b2 < 256 && b3 < 256
    ensures Sum(b0, b1, b2, b3) < TWO32 && Sum(b3, b2, b1, b0) < TWO32
    ensures Swap(Sum(b0, b1, b2, b3)) == Sum(b3, b2, b1, b0)
  {
    hide Sum;
    Digits(b0, b1, b2, b3);
    Digits(b3, b2, b1, b0);
  }

  // ----- where registers go

  /** How many registers of the list there are from `lo` up to `hi`. */
  function Count(list: nat, lo: int, hi: int): (n: nat)
    ensures n <= if lo <= hi then hi - lo else 0
    decreases hi - lo
  {
    if lo >= hi || hi <= 0 then 0 else Count(list, lo, hi - 1) + if Bits.Bit(list, hi - 1) then 1 else 0
  }

  /** How many registers are transferred before register `i`. */
  function Rank(list: nat, up: bool, i: int): (k: nat)
    requires -1 <= i <= 16
    ensures k <= 16
  {
    if up then Count(list, 0, i) else Count(list, i + 1, 16)
  }

  function Total(list: nat): nat { Count(list, 0, 16) }

  /** `addr` after `k` registers. */
  function Moved(base: Word, up: bool, k: nat): Word { Plus(base, if up then 4 * k else -4 * k) }

  /** The address of the register with `k` before it. */
  function Slot(base: Word, pre: bool, up: bool, k: nat): Word { Moved(base, up, if pre then k + 1 else k) }

  lemma {:induction false} CountSplits(list: nat, lo: int, mid: int, hi: int)
    requires 0 <= lo <= mid <= hi
    ensures Count(list, lo, hi) == Count(list, lo, mid) + Count(list, mid, hi)
    decreases hi - mid
  {
    if mid < hi { CountSplits(list, lo, mid, hi - 1); }
  }

  lemma RankNext(list: nat, up: bool, i: nat)
    requires i < 16
    ensures Rank(list, up, if up then i + 1 else i - 1) == Rank(list, up, i) + if Bits.Bit(list, i) then 1 else 0
    ensures Bits.Bit(list, i) ==> Rank(list, up, i) < Total(list)
  {
    CountSplits(list, 0, i, 16);
    CountSplits(list, i, i + 1, 16);
    assert Count(list, i, i) == 0;
    assert Count(list, i, i + 1) == if Bits.Bit(list, i) then 1 else 0;
  }

  /** The registers of the list below `hi`. */
  function Listed(list: nat, hi: nat): set<nat> { set k: nat | k < hi && Bits.Bit(list, k) }

  lemma {:induction false} CountIs(list: nat, hi: nat)
    ensures Count(list, 0, hi) == |Listed(list, hi)|
  {
    hide Bits.Bit;
    if hi > 0 {
      var top: nat := hi - 1;
      CountIs(list, top);
      if Bits.Bit(list, top) {
        assert Listed(list, hi) == Listed(list, top) + {top};
      } else {
        assert Listed(list, hi) == Listed(list, top);
      }
    }
  }

  /** Registers of the list have different ranks, in the order they are transferred. */
  lemma RankOrders(list: nat, up: bool, i: nat, j: nat)
    requires i < j < 16 && Bits.Bit(list, i) && Bits.Bit(list, j)
    ensures if up then Rank(list, up, i) < Rank(list, up, j) else Rank(list, up, j) < Rank(list, up, i)
  {
    RankNext(list, up, i);
    RankNext(list, up, j);
    CountSplits(list, 0, i + 1, j);
    CountSplits(list, i + 1, j + 1, 16);
    CountSplits(list, i + 1, j, j + 1);
    assert Count(list, j, j) == 0;
    assert Count(list, j, j + 1) == 1;
  }

  /** The mirrored transfer meets the registers in the opposite order. */
  lemma RanksMirror(list: nat, up: bool, i: nat)
    requires i < 16 && Bits.Bit(list, i)
    ensures Rank(list, up, i) + Rank(list, !up, i) + 1 == Total(list)
  {
    CountSplits(list, 0, i, 16);
    CountSplits(list, i, i + 1, 16);
    assert Count(list, i, i) == 0;
    assert Count(list, i, i + 1) == 1;
  }

  /** From where the first transfer ended, the mirrored one visits the same addresses backwards. */
  lemma SlotsMirror(base: Word, pre: bool, up: bool, n: nat, k: nat)
    requires k < n
    ensures Slot(Moved(base, up, n), !pre, !up, n - 1 - k) == Slot(base, pre, up, k)
    ensures Moved(Moved(base, up, n), !up, n) == base
  {
    var j := if !pre then n - 1 - k + 1 else n - 1 - k;
    PlusPlus(base, if up then 4 * n else -4 * n, if up then -4 * j else 4 * j);
    PlusPlus(base, if up then 4 * n else -4 * n, if up then -4 * n else 4 * n);
  }

  /** Different slots are different words, whatever the base. */
  lemma SlotsApart(base: Word, pre: bool, up: bool, j: nat, k: nat)
    requires j < k <= 16
    ensures Slot(base, pre, up, j) / 4 != Slot(base, pre, up, k) / 4
  {
    hide Moved;
    var d := if pre then 1 else 0;
    Wraps(base, up, j + d);
    Wraps(base, up, k + d);
  }

  /** A transfer moves by whole words, around the ends of the address space. */
  lemma Wraps(base: Word, up: bool, k: nat)
    requires k <= 17
    ensures Moved(base, up, k) / 4 ==
      if up then (if base / 4 + k < WORDS then base / 4 + k else base / 4 + k - WORDS)
      else if base / 4 >= k then base / 4 - k else base / 4 - k + WORDS
    ensures Moved(base, up, k) % 4 == base % 4
  {
    var q, r := base / 4, base % 4;
    var word := if up then (if q + k < WORDS then q + k else q + k - WORDS) else if q >= k then q - k else q - k + WORDS;
    Bytes.DivMod4(Moved(base, up, k), word, r);
  }

  // ----- memory after a store multiple

  predicate Bytewise(mem: seq<Octets>) {
    forall b :: 0 <= b < |mem| ==> mem[b].b0 < 256 && mem[b].b1 < 256 && mem[b].b2 < 256 && mem[b].b3 < 256
  }

  datatype Transfer = Transfer(big: bool, base: Word, pre: bool, up: bool, list: nat)

  /** The slot of register `i`. */
  function Home(t: Transfer, i: nat): Word
    requires i < 16
  {
    Slot(t.base, t.pre, t.up, Rank(t.list, t.up, i))
  }

  /** `m'` is `m` with the first `k` registers of the transfer stored, and nothing else changed. */
  ghost predicate StoredUpTo(t: Transfer, m: seq<Octets>, m': seq<Octets>, values: seq<Word>, k: nat)
    requires |m| == |m'| == WORDS && |values| == 16
  {
    && (forall i :: 0 <= i < 16 && Bits.Bit(t.list, i) && Rank(t.list, t.up, i) < k ==>
          m'[Home(t, i) / 4] == Encode(t.big, values[i]))
    && (forall b :: 0 <= b < WORDS && (forall j :: 0 <= j < k ==> b != Slot(t.base, t.pre, t.up, j) / 4) ==>
          m'[b] == m[b])
  }

  /**
   The address of each register: the lowest one at the lowest address, which is the base or the word after
   it going up, and the base less the size of the transfer, or the word after that, going down.
   */
  lemma HomeIs(t: Transfer, i: nat)
    requires i < 16 && Bits.Bit(t.list, i)
    ensures
      var n, below := |Listed(t.list, 16)|, |Listed(t.list, i)|;
      var start := if t.up then (if t.pre then 4 else 0) else (if t.pre then -4 * n else 4 - 4 * n);
      && Home(t, i) == (t.base + start + 4 * below) % 0x1_0000_0000
      && Moved(t.base, t.up, Total(t.list)) == (t.base + if t.up then 4 * n else -4 * n) % 0x1_0000_0000
  {
    hide Bits.Bit, Count;
    CountIs(t.list, 16);
    CountIs(t.list, i);
    RanksMirror(t.list, t.up, i);
  }

  lemma StoredNone(t: Transfer, m: seq<Octets>, values: seq<Word>)
    requires |m| == WORDS && |values| == 16
    ensures StoredUpTo(t, m, m, values, 0)
  {
  }

  lemma StoredMore(t: Transfer, m: seq<Octets>, m': seq<Octets>, values: seq<Word>, i: nat)
    requires |m| == |m'| == WORDS && |values| == 16 && i < 16 && Bits.Bit(t.list, i)
    requires StoredUpTo(t, m, m', values, Rank(t.list, t.up, i))
    ensures StoredUpTo(t, m, m'[Home(t, i) / 4 := Encode(t.big, values[i])], values, Rank(t.list, t.up, i) + 1)
  {
    hide Rank, Slot, Encode;
    var k := Rank(t.list, t.up, i);
    var m2 := m'[Home(t, i) / 4 := Encode(t.big, values[i])];
    forall j | 0 <= j < 16 && Bits.Bit(t.list, j) && Rank(t.list, t.up, j) < k + 1
      ensures m2[Home(t, j) / 4] == Encode(t.big, values[j])
    {
      if j < i { RankOrders(t.list, t.up, j, i); }
      if i < j { RankOrders(t.list, t.up, i, j); }
      if i != j { SlotsApart(t.base, t.pre, t.up, Rank(t.list, t.up, j), k); }
    }
    forall b | 0 <= b < WORDS && forall j :: 0 <= j < k + 1 ==> b != Slot(t.base, t.pre, t.up, j) / 4
      ensures m2[b] == m[b]
    {
      assert b != Slot(t.base, t.pre, t.up, k) / 4;
    }
  }

  // ----- registers

  /** Registers that the S bit takes from the user bank. */
  predicate Shadowed(m: Mode, i: nat) {
    match m
    case Fiq => 8 <= i <= 14
    case Usr => false
    case Sys => false
    case _ => 13 <= i <= 14
  }

  datatype Registers = Registers(r: seq<Word>, user: seq<Word>)

  predicate Sized(f: Registers) { |f.r| == 16 && |f.user| == 7 }

  /** The register that a transfer reads and writes. */
  function Get(f: Registers, m: Mode, s: bool, i: nat): Word
    requires Sized(f) && i < 16
  {
    if s && Shadowed(m, i) then f.user[i - 8] else f.r[i]
  }

  function Set(f: Registers, m: Mode, s: bool, i: nat, v: Word): Registers
    requires Sized(f) && i < 16
  {
    if s && Shadowed(m, i) then f.(user := f.user[i - 8 := v]) else f.(r := f.r[i := v])
  }

  /** What a store multiple stores. */
  function Values(f: Registers, m: Mode, s: bool, pc: Word): (v: seq<Word>)
    requires Sized(f)
    ensures |v| == 16
  {
    seq(16, i requires 0 <= i < 16 => if i == 15 then Plus(pc, 12) else Get(f, m, s, i))
  }

  /** Whether a loop over the registers has passed register `j` when it is at `i`. */
  predicate Passed(up: bool, i: int, j: int) { if up then j < i else j > i }

  /** Registers of the list that the second loop of a load multiple has passed get their values. */
  function LoadedUpTo(f: Registers, m: Mode, s: bool, list: nat, values: seq<Word>, up: bool, i: int): (g: Registers)
    requires Sized(f) && |values| == 16
    ensures Sized(g)
  {
    Registers(
      seq(16, j requires 0 <= j < 16 =>
        if Bits.Bit(list, j) && Passed(up, i, j) && !(s && Shadowed(m, j)) then values[j] else f.r[j]),
      seq(7, j requires 0 <= j < 7 =>
        if Bits.Bit(list, j + 8) && Passed(up, i, j + 8) && s && Shadowed(m, j + 8) then values[j + 8] else f.user[j]))
  }

  lemma WholeWord(a: Word)
    ensures a - a % 4 == a / 4 * 4
  {
  }

  /** Exactly the registers of the list replaced. */
  function LoadedAll(f: Registers, m: Mode, s: bool, list: nat, values: seq<Word>): Registers
    requires Sized(f) && |values| == 16
  {
    LoadedUpTo(f, m, s, list, values, true, 16)
  }

  lemma LoadedStep(f: Registers, m: Mode, s: bool, list: nat, values: seq<Word>, up: bool, i: int)
    requires Sized(f) && |values| == 16 && 0 <= i < 16
    ensures
      var g := LoadedUpTo(f, m, s, list, values, up, i);
      LoadedUpTo(f, m, s, list, values, up, if up then i + 1 else i - 1) ==
        if Bits.Bit(list, i) then Set(g, m, s, i, values[i]) else g
  {
    hide LoadedUpTo, Bits.Bit, Shadowed;
    ShadowedRange(m, i);
    var g := LoadedUpTo(f, m, s, list, values, up, i);
    var h := LoadedUpTo(f, m, s, list, values, up, if up then i + 1 else i - 1);
    var e := if Bits.Bit(list, i) then Set(g, m, s, i, values[i]) else g;
    forall j | 0 <= j < 16 ensures h.r[j] == e.r[j] {
      LoadedStepR(f, m, s, list, values, up, i, j);
    }
    assert h.r == e.r;
    forall j | 0 <= j < 7 ensures h.user[j] == e.user[j] {
      LoadedStepUser(f, m, s, list, values, up, i, j);
    }
    assert h.user == e.user;
  }

  lemma LoadedStepR(f: Registers, m: Mode, s: bool, list: nat, values: seq<Word>, up: bool, i: int, j: nat)
    requires Sized(f) && |values| == 16 && 0 <= i < 16 && j < 16
    ensures
      var g, h := LoadedUpTo(f, m, s, list, values, up, i), LoadedUpTo(f, m, s, list, values, up, if up then i + 1 else i - 1);
      h.r[j] == if j == i && Bits.Bit(list, i) && !(s && Shadowed(m, i)) then values[i] else g.r[j]
  {
    hide Bits.Bit, Shadowed;
    assert Passed(up, if up then i + 1 else i - 1, j) <==> Passed(up, i, j) || j == i;
  }

  lemma LoadedStepUser(f: Registers, m: Mode, s: bool, list: nat, values: seq<Word>, up: bool, i: int, j: nat)
    requires Sized(f) && |values| == 16 && 0 <= i < 16 && j < 7
    ensures
      var g, h := LoadedUpTo(f, m, s, list, values, up, i), LoadedUpTo(f, m, s, list, values, up, if up then i + 1 else i - 1);
      h.user[j] == if j + 8 == i && Bits.Bit(list, i) && s && Shadowed(m, i) then values[i] else g.user[j]
  {
    hide Bits.Bit, Shadowed;
    assert Passed(up, if up then i + 1 else i - 1, j + 8) <==> Passed(up, i, j + 8) || j + 8 == i;
  }

  lemma ShadowedRange(m: Mode, i: int)
    requires 0 <= i
    ensures Shadowed(m, i) ==> 8 <= i <= 14
  {
  }

  lemma LoadedEnds(f: Registers, m: Mode, s: bool, list: nat, values: seq<Word>, up: bool)
    requires Sized(f) && |values| == 16
    ensures LoadedUpTo(f, m, s, list, values, up, if up then 0 else 15) == f
    ensures LoadedUpTo(f, m, s, list, values, up, if up then 16 else -1) == LoadedAll(f, m, s, list, values)
  {
    var g := LoadedUpTo(f, m, s, list, values, up, if up then 0 else 15);
    assert g.r == f.r && g.user == f.user;
    var h, e := LoadedUpTo(f, m, s, list, values, up, if up then 16 else -1), LoadedAll(f, m, s, list, values);
    assert h.r == e.r && h.user == e.user;
  }

  /** The words that a load multiple finds, by register. */
  function Found(t: Transfer, mem: seq<Octets>): (v: seq<Word>)
    requires |mem| == WORDS
    ensures |v| == 16
  {
    seq(16, i requires 0 <= i < 16 => Decode(t.big, mem[Home(t, i) / 4]))
  }

  /** The load multiple in the mirrored mode finds what the store multiple stored. */
  lemma FindsStored(t: Transfer, m: seq<Octets>, m': seq<Octets>, values: seq<Word>, i: nat)
    requires |m| == |m'| == WORDS && |values| == 16 && i < 16 && Bits.Bit(t.list, i)
    requires StoredUpTo(t, m, m', values, Total(t.list))
    ensures Found(Mirror(t), m')[i] == values[i]
  {
    hide Rank, Slot, Encode, Decode, Moved;
    RanksMirror(t.list, t.up, i);
    SlotsMirror(t.base, t.pre, t.up, Total(t.list), Rank(t.list, t.up, i));
    assert Home(Mirror(t), i) == Home(t, i);
    PathsAgree(t.big, values[i]);
  }

  /** The inverse of a transfer with write-back: the other direction, the other order of moving. */
  function Mirror(t: Transfer): Transfer {
    Transfer(t.big, Moved(t.base, t.up, Total(t.list)), !t.pre, !t.up, t.list)
  }

  // ----- the instructions in place

  /** Pages with a direct host address, and which other accesses raise no exception. */
  datatype Env = Env(hostLoad: nat -> bool, hostStore: nat -> bool, readable: Word -> bool, writable: Word -> bool)

  predicate CanStore(e: Env, a: Word) { e.hostStore(a / 0x1000) || e.writable(a) }

  predicate CanLoad(e: Env, a: Word) { e.hostLoad(a / 0x1000) || e.readable(a) }

  /**
   Every word of a transfer is aligned, or on a page with a direct host address, where the low bits of its
   address are dropped.
   */
  predicate Direct(host: nat -> bool, t: Transfer) {
    t.base % 4 == 0 || forall i :: 0 <= i < 16 && Bits.Bit(t.list, i) ==> host(Home(t, i) / 0x1000)
  }

  lemma DirectWord(host: nat -> bool, t: Transfer, i: nat)
    requires Direct(host, t) && i < 16 && Bits.Bit(t.list, i)
    ensures Home(t, i) % 4 == 0 || host(Home(t, i) / 0x1000)
  {
    hide Bits.Bit, Moved, Rank;
    Wraps(t.base, t.up, Rank(t.list, t.up, i) + if t.pre then 1 else 0);
  }

  /** Every word of a transfer can be stored, or loaded. */
  predicate Storable(e: Env, t: Transfer) {
    forall i :: 0 <= i < 16 && Bits.Bit(t.list, i) ==> CanStore(e, Home(t, i))
  }

  predicate Loadable(e: Env, t: Transfer) {
    forall i :: 0 <= i < 16 && Bits.Bit(t.list, i) ==> CanLoad(e, Home(t, i))
  }

  /** How a load multiple ends. The last two are the exception return that cannot be done. */
  datatype Outcome = Loaded | Faulted | Stopped | NoSuchMode

  /** A load multiple with write-back to register `n`. */
  function WrittenBack(g: Registers, n: nat, w: bool, addr: Word): Registers
    requires Sized(g) && n < 16
  {
    if w then g.(r := g.r[n := addr]) else g
  }

  /** The register file with the visible registers and the user bank replaced. */
  function WithRegisters(file: File, g: Registers): File { file.(r := g.r, defaultR8R14 := g.user) }

  /** The user bank, as a transfer with the S bit reads it, is what user mode sees. */
  lemma UserBank(f: File, m: Mode, i: nat)
    requires FileOk(f) && i < 15
    ensures Sized(Registers(f.r, f.defaultR8R14))
    ensures Get(Registers(f.r, f.defaultR8R14), m, true, i) == See(f, m, Usr, i)
    ensures Get(Registers(f.r, f.defaultR8R14), m, false, i) == See(f, m, m, i)
  {
  }

  /** Loading writes the listed registers of the current mode, or of user mode, as every mode sees them. */
  lemma LoadedSeen(f: File, c: Mode, s: bool, list: nat, values: seq<Word>, m: Mode, i: nat)
    requires FileOk(f) && |values| == 16 && i < 15
    ensures Sized(Registers(f.r, f.defaultR8R14))
    ensures
      var f' := WithRegisters(f, LoadedAll(Registers(f.r, f.defaultR8R14), c, s, list, values));
      var to := if s then Usr else c;
      var seen := i < 8 || m == to || (i < 13 && m != Fiq && to != Fiq) || (m in {Usr, Sys} && to in {Usr, Sys});
      FileOk(f') && See(f', c, m, i) == if Bits.Bit(list, i) && seen then values[i] else See(f, c, m, i)
  {
    hide Bits.Bit;
  }

  /** Also after the write-back, but for the base. */
  lemma PoppedSeen(f: File, c: Mode, s: bool, list: nat, values: seq<Word>, n: nat, w: bool, addr: Word, i: nat)
    requires FileOk(f) && |values| == 16 && n < 15 && i < 15 && Bits.Bit(list, i) && !(w && i == n)
    ensures Sized(Registers(f.r, f.defaultR8R14))
    ensures
      var g := WrittenBack(LoadedAll(Registers(f.r, f.defaultR8R14), c, s, list, values), n, w, addr);
      FileOk(WithRegisters(f, g)) && See(WithRegisters(f, g), c, if s then Usr else c, i) == values[i]
  {
    hide Bits.Bit, LoadedAll;
    LoadedSeen(f, c, s, list, values, if s then Usr else c, i);
    var g := LoadedAll(Registers(f.r, f.defaultR8R14), c, s, list, values);
    WriteSeen(WithRegisters(f, g), c, n, addr, if s then Usr else c, i);
  }

  /** The words of a finished transfer. */
  lemma AllStored(t: Transfer, m: seq<Octets>, m': seq<Octets>, values: seq<Word>)
    requires |m| == |m'| == WORDS && |values| == 16 && StoredUpTo(t, m, m', values, Total(t.list))
    ensures forall i :: 0 <= i < 16 && Bits.Bit(t.list, i) ==> m'[Home(t, i) / 4] == Encode(t.big, values[i])
  {
    hide Encode, Slot, Rank, Bits.Bit;
    forall i | 0 <= i < 16 && Bits.Bit(t.list, i) ensures Rank(t.list, t.up, i) < Total(t.list) {
      RankNext(t.list, t.up, i);
    }
  }

  lemma WithRegistersOk(file: File, g: Registers)
    requires FileOk(file) && Sized(g)
    ensures FileOk(WithRegisters(file, g))
  {
  }

  class Cpu {
    const big: bool
    const env: Env
    const core: RegisterBanks.Cpu
    var mem: seq<Octets>

    ghost predicate Valid()
      reads this, core
    {
      core.Valid() && |mem| == WORDS && Bytewise(mem)
    }

    constructor (big: bool, env: Env, core: RegisterBanks.Cpu, mem: seq<Octets>)
      requires core.Valid() && |mem| == WORDS && Bytewise(mem)
      ensures Valid() && this.big == big && this.env == env && this.core == core && this.mem == mem
    {
      this.big, this.env, this.core, this.mem := big, env, core, mem;
    }

    /** The registers that transfers concern. */
    function Regs(): (f: Registers)
      reads core
    {
      Registers(core.file.r, core.file.defaultR8R14)
    }

    lemma RegsSized()
      requires core.Valid()
      ensures Sized(Regs())
    {
    }

    function Shape(n: nat, pre: bool, up: bool, list: nat): Transfer
      requires |core.file.r| == 16 && n < 16
      reads this, core
    {
      Transfer(big, core.file.r[n], pre, up, list)
    }

    /** What a store multiple would store now. */
    function Stores(s: bool): (v: seq<Word>)
      requires core.Valid()
      reads core
      ensures |v| == 16
    {
      Values(Regs(), core.Current(), s, core.pc)
    }

    /** The registers of the current mode, or of user mode, and the program counter three words on. */
    lemma StoresMean(s: bool)
      requires core.Valid()
      ensures forall i :: 0 <= i < 16 ==>
        Stores(s)[i] == if i == 15 then (core.pc + 12) % 0x1_0000_0000 else core.Reg(if s then Usr else core.Current(), i)
    {
      hide See, Get, ModeOf, InRange;
      RegsSized();
      forall i | 0 <= i < 16
        ensures Stores(s)[i] == if i == 15 then (core.pc + 12) % 0x1_0000_0000 else core.Reg(if s then Usr else core.Current(), i)
      {
        if i < 15 {
          UserBank(core.file, core.Current(), i);
          assert Stores(s)[i] == Get(Regs(), core.Current(), s, i);
          assert s ==> Stores(s)[i] == core.Reg(Usr, i);
          assert !s ==> Stores(s)[i] == core.Reg(core.Current(), i);
        } else {
          assert Stores(s)[15] == Plus(core.pc, 12);
        }
      }
    }

    /** An address that is not aligned is rounded down on the direct path. */
    method StoreWord(a: Word, value: Word) returns (ok: bool)
      requires Valid() && (a % 4 == 0 || env.hostStore(a / 0x1000))
      modifies `mem
      ensures Valid() && ok == CanStore(env, a) && (ok <==> env.hostStore(a / 0x1000) || env.writable(a))
      ensures mem == if ok then old(mem)[a / 4 := Encode(big, value)] else old(mem)
    {
      PathsAgree(big, value);
      Expand(value);
      if env.hostStore(a / 0x1000) {
        mem := mem[a / 4 := HostEncode(big, value)];
        return true;
      }
      if !env.writable(a) { return false; }
      mem := mem[a / 4 := Encode(big, value)];
      return true;
    }

    method LoadWord(a: Word) returns (ok: bool, value: Word)
      requires Valid() && (a % 4 == 0 || env.hostLoad(a / 0x1000))
      ensures ok == CanLoad(env, a) && (ok <==> env.hostLoad(a / 0x1000) || env.readable(a))
      ensures ok ==> value == Decode(big, mem[a / 4])
    {
      LoadsAgree(big, mem[a / 4]);
      if env.hostLoad(a / 0x1000) { return true, HostDecode(big, mem[a / 4]); }
      if !env.readable(a) { return false, 0; }
      return true, Decode(big, mem[a / 4]);
    }

    /** The word to store for register `i`. */
    method ValueOf(s: bool, i: nat) returns (value: Word)
      requires core.Valid() && i < 16
      ensures value == Stores(s)[i]
    {
      RegsSized();
      value := core.file.r[i];
      if s && Shadowed(core.Current(), i) { value := core.file.defaultR8R14[i - 8]; }
      if i == 15 { value := Plus(core.pc, 12); }
    }

    /**
     arm_push. `stored` is how many registers reached memory; after a failing store the base is as it
     was, and the words before it stay written.
     */
    method Push(n: nat, pre: bool, up: bool, s: bool, w: bool, list: nat) returns (ok: bool, ghost stored: nat)
      requires Valid() && n < 15 && Direct(env.hostStore, Shape(n, pre, up, list))
      modifies `mem, core`file
      ensures Valid()
      ensures StoredUpTo(old(Shape(n, pre, up, list)), old(mem), mem, old(Stores(s)), stored)
      ensures ok <==> Storable(env, old(Shape(n, pre, up, list)))
      ensures ok ==> forall i :: 0 <= i < 16 && Bits.Bit(list, i) ==>
        mem[Home(Transfer(big, old(core.file.r[n]), pre, up, list), i) / 4] ==
          Encode(big, if i == 15 then (core.pc + 12) % 0x1_0000_0000 else old(core.Reg(if s then Usr else core.Current(), i)))
      ensures ok ==> stored == Total(list)
      ensures !ok ==> stored < Total(list) && !CanStore(env, Slot(old(core.file.r[n]), pre, up, stored))
      ensures core.file == old(core.file).(r :=
        if ok && w then old(core.file.r)[n := Moved(old(core.file.r[n]), up, Total(list))] else old(core.file.r))
    {
      hide StoredUpTo, Encode, Rank, Slot, Moved, Bytewise, Bits.Bit, CanStore, Plus, FileOk, InRange, ModeOf, Values,
        Count, Direct;
      RegsSized();
      ghost var t, before := Shape(n, pre, up, list), mem;
      ghost var values := Stores(s);
      StoresMean(s);
      var addr := core.file.r[n];
      var i := if up then 0 else 15;
      Ends(list, up, addr);
      StoredNone(t, mem, values);
      while 0 <= i <= 15
        invariant -1 <= i <= 16 && (if up then i >= 0 else i <= 15)
        invariant Valid() && core.file == old(core.file)
        invariant addr == Moved(t.base, up, Rank(list, up, i))
        invariant StoredUpTo(t, before, mem, values, Rank(list, up, i))
        invariant forall j :: 0 <= j < 16 && Passed(up, i, j) && Bits.Bit(list, j) ==> CanStore(env, Home(t, j))
        decreases if up then 16 - i else i + 1
      {
        ghost var k := Rank(list, up, i);
        RankNext(list, up, i);
        if Bits.Bit(list, i) {
          Advance(t.base, pre, up, k);
          DirectWord(env.hostStore, t, i);
          var value := ValueOf(s, i);
          if pre { addr := Plus(addr, if up then 4 else -4); }
          ghost var m := mem;
          ok := StoreWord(addr, value);
          if !ok { return false, k; }
          StoredMore(t, before, m, values, i);
          if !pre { addr := Plus(addr, if up then 4 else -4); }
        }
        i := if up then i + 1 else i - 1;
      }
      AllStored(t, before, mem, values);
      if w {
        WithRegistersOk(core.file, Registers(core.file.r[n := addr], core.file.defaultR8R14));
        core.file := core.file.(r := core.file.r[n := addr]);
      }
      return true, Total(list);
    }

    /** The first loop of arm_pop. */
    method LoadWords(n: nat, pre: bool, up: bool, list: nat) returns (ok: bool, news: array<Word>, addr: Word)
      requires Valid() && n < 15 && Direct(env.hostLoad, Shape(n, pre, up, list))
      ensures fresh(news) && news.Length == 16
      ensures
        var t := Shape(n, pre, up, list);
        && (ok <==> Loadable(env, t))
        && (ok ==> addr == Moved(t.base, up, Total(list)))
        && (ok ==> forall i :: 0 <= i < 16 && Bits.Bit(list, i) ==> news[i] == Found(t, mem)[i])
    {
      hide Rank, Slot, Moved, Bytewise, Bits.Bit, Decode, CanLoad, Plus, FileOk, InRange, ModeOf, Count, Direct;
      RegsSized();
      ghost var t := Shape(n, pre, up, list);
      ghost var values := Found(t, mem);
      addr := core.file.r[n];
      news := new Word[16](i => 0);
      var i := if up then 0 else 15;
      Ends(list, up, addr);
      while 0 <= i <= 15
        invariant -1 <= i <= 16 && (if up then i >= 0 else i <= 15)
        invariant addr == Moved(t.base, up, Rank(list, up, i))
        invariant forall j :: 0 <= j < 16 && Passed(up, i, j) && Bits.Bit(list, j) ==>
          news[j] == values[j] && CanLoad(env, Home(t, j))
        decreases if up then 16 - i else i + 1
      {
        ghost var k := Rank(list, up, i);
        RankNext(list, up, i);
        if Bits.Bit(list, i) {
          Advance(t.base, pre, up, k);
          DirectWord(env.hostLoad, t, i);
          if pre { addr := Plus(addr, if up then 4 else -4); }
          var loaded, value := LoadWord(addr);
          if !loaded { return false, news, addr; }
          news[i] := value;
          if !pre { addr := Plus(addr, if up then 4 else -4); }
        }
        i := if up then i + 1 else i - 1;
      }
      return true, news, addr;
    }

    /** The registers once a load multiple has written them, before any return. */
    ghost function Popped(n: nat, pre: bool, up: bool, s: bool, w: bool, list: nat): (g: Registers)
      requires Valid() && n < 15
      reads this, core
      ensures Sized(g)
    {
      RegsSized();
      var t := Shape(n, pre, up, list);
      var user := s && !Bits.Bit(list, 15);
      WrittenBack(LoadedAll(Regs(), core.Current(), user, list, Found(t, mem)), n, w, Moved(t.base, up, Total(list)))
    }

    /** The current mode, or user mode, sees the words that were loaded. */
    lemma PoppedReads(n: nat, pre: bool, up: bool, s: bool, w: bool, list: nat)
      requires Valid() && n < 15 && !(s && Bits.Bit(list, 15))
      ensures FileOk(WithRegisters(core.file, Popped(n, pre, up, s, w, list)))
      ensures forall i :: 0 <= i < 15 && Bits.Bit(list, i) && !(w && i == n) ==>
        See(WithRegisters(core.file, Popped(n, pre, up, s, w, list)), core.Current(), if s then Usr else core.Current(), i) ==
          Decode(big, mem[Home(Shape(n, pre, up, list), i) / 4])
    {
      hide Bits.Bit, See, LoadedAll, ModeOf, InRange, Home, Decode, FileOk;
      RegsSized();
      var t := Shape(n, pre, up, list);
      WithRegistersOk(core.file, Popped(n, pre, up, s, w, list));
      forall i | 0 <= i < 15 && Bits.Bit(list, i) && !(w && i == n)
        ensures See(WithRegisters(core.file, Popped(n, pre, up, s, w, list)), core.Current(),
                    if s then Usr else core.Current(), i) == Found(t, mem)[i]
      {
        PoppedSeen(core.file, core.Current(), s, list, Found(t, mem), n, w, Moved(t.base, t.up, Total(list)), i);
      }
    }

    lemma PoppedPc(n: nat, pre: bool, up: bool, s: bool, w: bool, list: nat)
      requires Valid() && n < 15 && Bits.Bit(list, 15)
      ensures Sized(Popped(n, pre, up, s, w, list))
      ensures Popped(n, pre, up, s, w, list).r[15] == Found(Shape(n, pre, up, list), mem)[15]
    {
      hide Bits.Bit, ModeOf, InRange, Home, Decode, FileOk;
      RegsSized();
    }

    /** Registers and program counter as a load multiple leaves them, whose loads gave `g`. */
    ghost predicate Ended(out: Outcome, s: bool, list: nat, file: File, mode: Mode, pc: Word, g: Registers)
      requires Sized(g)
      reads core
    {
      var back := s && Bits.Bit(list, 15);
      && ((out.Loaded? && !back) || out.Stopped? ==> core.file == WithRegisters(file, g))
      && (out.Loaded? && back ==> Sees(WithRegisters(file, g), mode))
      && (out.Loaded? && Bits.Bit(list, 15) ==> core.pc == g.r[15] - g.r[15] % 4)
      && ((out.Loaded? && !Bits.Bit(list, 15)) || out.Stopped? ==> core.pc == pc)
    }

    /** Every mode sees the registers that it would see in `file` from `mode`. */
    ghost predicate Sees(file: File, mode: Mode)
      reads core
    {
      core.Valid() && FileOk(file) && forall m, k :: 0 <= k < 15 ==> core.Reg(m, k) == See(file, mode, m, k)
    }

    /**
     arm_pop.  All words are loaded before any register changes, so a failing load leaves everything
     as it was.  With the S bit and the program counter in the list it is an exception return: the
     saved status register of the mode comes back, and each mode keeps the registers it sees.
     */
    method Pop(n: nat, pre: bool, up: bool, s: bool, w: bool, list: nat) returns (out: Outcome)
      requires Valid() && n < 15 && Direct(env.hostLoad, Shape(n, pre, up, list))
      modifies core
      ensures
        var m := old(core.Current());
        var back := s && Bits.Bit(list, 15);
        && (out.Faulted? <==> !Loadable(env, old(Shape(n, pre, up, list))))
        && (out.Stopped? <==> !out.Faulted? && back && !HasSpsr(m))
        && (out.NoSuchMode? <==> !out.Faulted? && back && HasSpsr(m) && ModeOf(old(core.spsr)[m].mode).None?)
      ensures out.Faulted? ==> unchanged(core)
      ensures !out.NoSuchMode? ==> Valid() && core.spsr == old(core.spsr) && core.highVectors == old(core.highVectors)
      ensures (out.Loaded? && !(s && Bits.Bit(list, 15))) || out.Stopped? ==> core.Cpsr() == old(core.Cpsr())
      ensures out.Loaded? && s && Bits.Bit(list, 15) ==> core.Cpsr() == old(core.spsr)[old(core.Current())]
      ensures Ended(out, s, list, old(core.file), old(core.Current()), old(core.pc), old(Popped(n, pre, up, s, w, list)))
      ensures out.Loaded? && !(s && Bits.Bit(list, 15)) ==> forall i :: 0 <= i < 15 && Bits.Bit(list, i) && !(w && i == n) ==>
        core.Reg(if s then Usr else core.Current(), i) ==
          Decode(big, mem[Home(Transfer(big, old(core.file.r[n]), pre, up, list), i) / 4])
      ensures out.Loaded? && !Bits.Bit(list, 15) ==> core.pc == old(core.pc)
      ensures out.Loaded? && Bits.Bit(list, 15) ==>
        core.pc == Decode(big, mem[Home(Transfer(big, old(core.file.r[n]), pre, up, list), 15) / 4]) / 4 * 4
    {
      hide Bytewise, Bits.Bit, See, ModeOf, Loadable, FileOk, Popped, InRange, Direct;
      var mode := core.Current();
      ghost var g := Popped(n, pre, up, s, w, list);
      if !(s && Bits.Bit(list, 15)) { PoppedReads(n, pre, up, s, w, list); }
      if Bits.Bit(list, 15) {
        PoppedPc(n, pre, up, s, w, list);
        WholeWord(g.r[15]);
      }
      var loaded := PopRegisters(n, pre, up, s, w, list);
      if !loaded { return Faulted; }
      if s && Bits.Bit(list, 15) {
        var ok := core.ReturnByBlock();
        return if ok then Loaded else if HasSpsr(mode) then NoSuchMode else Stopped;
      }
      SixteenRegisters(core.file);
      if Bits.Bit(list, 15) { core.pc := core.file.r[15] - core.file.r[15] % 4; }
      return Loaded;
    }

    /** Both loops and the write-back. */
    method PopRegisters(n: nat, pre: bool, up: bool, s: bool, w: bool, list: nat) returns (ok: bool)
      requires Valid() && n < 15 && Direct(env.hostLoad, Shape(n, pre, up, list))
      modifies core`file
      ensures Valid() && (ok <==> Loadable(env, old(Shape(n, pre, up, list))))
      ensures core.file == if ok then WithRegisters(old(core.file), old(Popped(n, pre, up, s, w, list))) else old(core.file)
    {
      hide Rank, Slot, Moved, Bytewise, Bits.Bit, LoadedUpTo, LoadedAll, Found, Loadable, ModeOf, InRange, FileOk, Direct;
      RegsSized();
      ghost var values := Found(Shape(n, pre, up, list), mem);
      ghost var was, regs := core.file, Regs();
      var user := s;
      if s {
        if core.Current() == Usr { user := false; }
        if Bits.Bit(list, 15) { user := false; }
      }
      UserInUserMode(Regs(), core.Current(), s && !Bits.Bit(list, 15), user, list, values);
      var loaded, news, addr := LoadWords(n, pre, up, list);
      if !loaded { return false; }
      SetRegisters(user, up, list, news, values);
      RegsSized();
      if w {
        WithRegistersOk(core.file, Registers(core.file.r[n := addr], core.file.defaultR8R14));
        core.file := core.file.(r := core.file.r[n := addr]);
      }
      return true;
    }

    /** The second loop of arm_pop. */
    method SetRegisters(s: bool, up: bool, list: nat, news: array<Word>, ghost values: seq<Word>)
      requires core.Valid() && news.Length == 16 && |values| == 16
      requires forall j :: 0 <= j < 16 && Bits.Bit(list, j) ==> news[j] == values[j]
      modifies core`file
      ensures core.Valid()
      ensures core.file == WithRegisters(old(core.file), LoadedAll(old(Regs()), core.Current(), s, list, values))
    {
      hide Bits.Bit, LoadedUpTo, Shadowed, ModeOf, InRange, FileOk;
      RegsSized();
      var mode := core.Current();
      var f := Regs();
      ghost var was := f;
      var i := if up then 0 else 15;
      LoadedEnds(f, mode, s, list, values, up);
      while 0 <= i <= 15
        invariant -1 <= i <= 16 && (if up then i >= 0 else i <= 15)
        invariant core.file == old(core.file) && f == LoadedUpTo(was, mode, s, list, values, up, i)
        decreases if up then 16 - i else i + 1
      {
        LoadedStep(was, mode, s, list, values, up, i);
        if Bits.Bit(list, i) { f := Set(f, mode, s, i, news[i]); }
        i := if up then i + 1 else i - 1;
      }
      WithRegistersOk(core.file, f);
      core.file := WithRegisters(core.file, f);
    }

    /**
     A store multiple and the load multiple in the mirrored mode: every register is back, the base
     too, and memory has changed in the stored words only.
     */
    method PushThenPop(n: nat, pre: bool, up: bool, s: bool, list: nat) returns (ok: bool)
      requires Valid() && n < 15 && !Bits.Bit(list, 15)
      requires Direct(env.hostStore, Shape(n, pre, up, list)) && Direct(env.hostLoad, Shape(n, pre, up, list))
      modifies core, `mem
      ensures Valid()
      ensures ok <==> Storable(env, old(Shape(n, pre, up, list))) && Loadable(env, old(Shape(n, pre, up, list)))
      ensures ok ==>
        && core.file == old(core.file) && core.Cpsr() == old(core.Cpsr()) && core.spsr == old(core.spsr)
        && core.pc == old(core.pc)
        && StoredUpTo(old(Shape(n, pre, up, list)), old(mem), mem, old(Stores(s)), Total(list))
    {
      hide Rank, Slot, Moved, Bytewise, Bits.Bit, LoadedAll, Found, StoredUpTo, Values, CanStore, CanLoad, FileOk;
      RegsSized();
      ghost var t, before, was := Shape(n, pre, up, list), mem, Regs();
      ghost var stored;
      ok, stored := Push(n, pre, up, s, true, list);
      MirrorHomes(t);
      if !ok { return; }
      MovedAligned(t.base, up, list);
      assert Shape(n, !pre, !up, list) == Mirror(t);
      assert Direct(env.hostLoad, Mirror(t));
      var out := Pop(n, !pre, !up, s, true, list);
      ok := out.Loaded?;
      if !ok { return; }
      PopRestores(t, before, mem, was, core.Current(), s, old(core.pc), n);
      assert WithRegisters(old(core.file), was) == old(core.file);
    }

    /** The body of a handler: whatever it does to the registers that it has saved. */
    method Clobber(list: nat, junk: seq<Word>)
      requires Valid() && |junk| == 16 && !Bits.Bit(list, 13)
      modifies core`file
      ensures Valid()
      ensures core.file == old(core.file).(r := Clobbered(old(core.file.r), list, junk))
    {
      hide Bits.Bit, Bytewise, ModeOf, InRange;
      core.file := core.file.(r := Clobbered(core.file.r, list, junk));
    }

    /**
     A whole exception handler: entry, `stm sp!` of a list with lr, any use of the saved registers,
     and `ldm sp!` with pc in place of lr and the S bit. The interrupted program continues at the
     address in lr with its status register, flags included, and every mode has all its registers,
     but for the link register of the handler's mode.
     */
    method Handle(nr: nat, pre: bool, up: bool, list: nat, back: nat, junk: seq<Word>) returns (ok: bool)
      requires Valid() && nr < 8 && ExceptionMode(nr).Some? && ExceptionMode(nr).value != core.Current()
      requires
        var t := Transfer(big, core.Reg(ExceptionMode(nr).value, 13), pre, up, list);
        Direct(env.hostStore, t) && Direct(env.hostLoad, t) && |junk| == 16
      requires Bits.Bit(list, 14) && !Bits.Bit(list, 13) && !Bits.Bit(list, 15) && PcForLr(list, back)
      modifies core, `mem
      ensures
        var t := Transfer(big, old(core.Reg(ExceptionMode(nr).value, 13)), pre, up, list);
        ok <==> Storable(env, t) && Loadable(env, t)
      ensures ok ==> Valid() && core.Cpsr() == old(core.Cpsr())
      ensures ok ==>
        var lr := Plus(Plus(old(core.pc), if nr == DATA_ABT then 4 else 0), if old(core.cpsr.t) then 2 else 4);
        core.pc == lr - lr % 4
      ensures ok ==> forall m, k :: 0 <= k < 15 && !(k == 14 && BankOf(m, 14) == BankOf(ExceptionMode(nr).value, 14)) ==>
        core.Reg(m, k) == old(core.Reg(m, k))
    {
      hide Rank, Slot, Moved, Bytewise, Bits.Bit, LoadedAll, Found, StoredUpTo, Values, See, FileOk, Storable, Loadable,
        InRange, BankOf, Plus, Clobbered;
      var mode := ExceptionMode(nr).value;
      ok := core.Exception(nr);
      RegsSized();
      SeeOwn(core.file, mode, 13);
      SeeOwn(core.file, mode, 14);
      assert core.file.r[14] == core.Reg(mode, 14);
      ghost var t, before, entered := Shape(13, pre, up, list), mem, core.file;
      ghost var values := Stores(false);
      ghost var stored;
      ok, stored := Push(13, pre, up, false, true, list);
      if !ok { return; }
      MovedAligned(t.base, up, list);
      ClobberedAt(core.file.r, list, junk);
      Clobber(list, junk);
      BackHomes(t, back, env);
      RegsSized();
      ghost var used, file := Regs(), core.file;
      assert Shape(13, !pre, !up, back) == Mirror(t).(list := back);
      ValuesAre(Registers(entered.r, entered.defaultR8R14), mode, core.pc);
      HandlerLoads(t, back, before, mem, entered, used, mode, values);
      ghost var g := Popped(13, !pre, !up, true, true, back);
      HandlerSees(entered, g, mode);
      assert WithRegisters(file, g) == WithRegisters(entered, g);
      var out := Pop(13, !pre, !up, true, true, back);
      ok := out.Loaded?;
    }
  }

  /** `back` is `list` with the program counter in place of the link register. */
  predicate PcForLr(list: nat, back: nat) {
    && Bits.Bit(list, 14) && !Bits.Bit(list, 15) && !Bits.Bit(back, 14) && Bits.Bit(back, 15)
    && forall i :: 0 <= i < 14 ==> Bits.Bit(list, i) == Bits.Bit(back, i)
  }

  function Clobbered(r: seq<Word>, list: nat, junk: seq<Word>): (r': seq<Word>)
    requires |r| == |junk| == 16
    ensures |r'| == 16
  {
    seq(16, i requires 0 <= i < 16 => if Bits.Bit(list, i) then junk[i] else r[i])
  }

  lemma ClobberedAt(r: seq<Word>, list: nat, junk: seq<Word>)
    requires |r| == |junk| == 16
    ensures forall i :: 0 <= i < 16 && !Bits.Bit(list, i) ==> Clobbered(r, list, junk)[i] == r[i]
  {
  }

  /** A mode sees its own registers. */
  lemma SeeOwn(f: File, m: Mode, n: nat)
    requires FileOk(f) && n < 15
    ensures |f.r| == 16 && See(f, m, m, n) == f.r[n]
  {
  }

  lemma {:induction false} SameCount(list: nat, back: nat, lo: int, hi: int)
    requires PcForLr(list, back) && 0 <= lo && hi <= 14
    ensures Count(list, lo, hi) == Count(back, lo, hi)
    decreases hi - lo
  {
    if lo < hi { SameCount(list, back, lo, hi - 1); }
  }

  lemma TopCounts(list: nat, lo: nat)
    requires lo <= 14 && (Bits.Bit(list, 14) <==> !Bits.Bit(list, 15))
    ensures Count(list, lo, 16) == Count(list, lo, 14) + 1 && Count(list, 16, 16) == 0
    ensures Bits.Bit(list, 15) ==> Count(list, lo, 15) == Count(list, lo, 14)
    ensures !Bits.Bit(list, 15) ==> Count(list, 15, 16) == 0
  {
    hide Bits.Bit;
    CountSplits(list, lo, 14, 15);
    CountSplits(list, lo, 15, 16);
    assert Count(list, 14, 14) == 0 && Count(list, 15, 15) == 0;
    assert Count(list, 14, 15) == if Bits.Bit(list, 14) then 1 else 0;
    assert Count(list, 15, 16) == if Bits.Bit(list, 15) then 1 else 0;
  }

  /** pc takes the place of lr in the order of transfer. */
  lemma BackRanks(list: nat, back: nat, up: bool, i: nat)
    requires PcForLr(list, back) && i < 14
    ensures Rank(back, up, i) == Rank(list, up, i) && Rank(back, up, 15) == Rank(list, up, 14)
    ensures Total(back) == Total(list)
  {
    hide Bits.Bit, Count;
    SameCount(list, back, 0, 14);
    SameCount(list, back, 0, i);
    SameCount(list, back, i + 1, 14);
    TopCounts(list, 0);
    TopCounts(back, 0);
    TopCounts(list, i + 1);
    TopCounts(back, i + 1);
  }

  lemma BackHome(t: Transfer, back: nat, i: nat)
    requires PcForLr(t.list, back) && i < 14
    ensures
      var u := Mirror(t).(list := back);
      && (Bits.Bit(back, i) ==> Home(u, i) == Home(t, i)) && Home(u, 15) == Home(t, 14)
      && Total(back) == Total(t.list)
  {
    hide Rank, Slot, Moved, Bits.Bit, Count;
    BackRanks(t.list, back, !t.up, i);
    MirrorHomes(t);
    assert Home(Mirror(t), 14) == Home(t, 14);
    if Bits.Bit(back, i) { assert Home(Mirror(t), i) == Home(t, i); }
  }

  lemma BackHomes(t: Transfer, back: nat, e: Env)
    requires PcForLr(t.list, back)
    ensures Loadable(e, Mirror(t).(list := back)) <==> Loadable(e, t)
    ensures Direct(e.hostLoad, t) ==> Direct(e.hostLoad, Mirror(t).(list := back))
    ensures Total(back) == Total(t.list)
  {
    hide Rank, Slot, Moved, Bits.Bit, CanLoad, Total;
    var u := Mirror(t).(list := back);
    BackHome(t, back, 0);
    forall i | 0 <= i < 14 && Bits.Bit(back, i) ensures Home(u, i) == Home(t, i) {
      BackHome(t, back, i);
    }
    assert Home(u, 15) == Home(t, 14);
    MovedAligned(t.base, t.up, t.list);
    if Loadable(e, u) {
      forall i | 0 <= i < 16 && Bits.Bit(t.list, i) ensures CanLoad(e, Home(t, i)) {
        if i == 14 { assert CanLoad(e, Home(u, 15)); } else { assert CanLoad(e, Home(u, i)); }
      }
    }
    if Loadable(e, t) {
      forall i | 0 <= i < 16 && Bits.Bit(back, i) ensures CanLoad(e, Home(u, i)) {
        if i == 15 { assert CanLoad(e, Home(t, 14)); } else { assert CanLoad(e, Home(t, i)); }
      }
    }
  }

  lemma ValuesAre(f: Registers, m: Mode, pc: Word)
    requires Sized(f)
    ensures forall i :: 0 <= i < 15 ==> Values(f, m, false, pc)[i] == f.r[i]
  {
  }

  /** What the final load multiple of a handler brings back. */
  lemma HandlerLoads(t: Transfer, back: nat, m: seq<Octets>, m': seq<Octets>, entered: File, used: Registers,
                     mode: Mode, values: seq<Word>)
    requires |m| == |m'| == WORDS && FileOk(entered) && Sized(used) && |values| == 16
    requires PcForLr(t.list, back) && !Bits.Bit(t.list, 13) && t.base == entered.r[13]
    requires forall i :: 0 <= i < 15 ==> values[i] == entered.r[i]
    requires forall i :: 0 <= i < 13 && !Bits.Bit(t.list, i) ==> used.r[i] == entered.r[i]
    requires used.user == entered.defaultR8R14 && StoredUpTo(t, m, m', values, Total(t.list))
    ensures
      var u := Mirror(t).(list := back);
      var g := WrittenBack(LoadedAll(used, mode, false, back, Found(u, m')), 13, true, Moved(u.base, u.up, Total(back)));
      && g.r[15] == entered.r[14] && g.user == entered.defaultR8R14
      && forall k :: 0 <= k < 14 ==> g.r[k] == entered.r[k]
  {
    hide Rank, Slot, Moved, StoredUpTo, Bits.Bit, Found, FileOk;
    SixteenRegisters(entered);
    var u := Mirror(t).(list := back);
    FoundBack(t, back, m, m', values, 0);
    MovedAligned(t.base, t.up, t.list);
    var g := WrittenBack(LoadedAll(used, mode, false, back, Found(u, m')), 13, true, Moved(u.base, u.up, Total(back)));
    forall k | 0 <= k < 14 ensures g.r[k] == entered.r[k] {
      FoundBack(t, back, m, m', values, k);
    }
    assert g.user == used.user;
  }

  lemma FoundBack(t: Transfer, back: nat, m: seq<Octets>, m': seq<Octets>, values: seq<Word>, i: nat)
    requires |m| == |m'| == WORDS && |values| == 16 && PcForLr(t.list, back) && i < 14
    requires StoredUpTo(t, m, m', values, Total(t.list))
    ensures
      var u := Mirror(t).(list := back);
      && Found(u, m')[15] == values[14] && Total(back) == Total(t.list)
      && (Bits.Bit(back, i) ==> Found(u, m')[i] == values[i])
  {
    hide Rank, Slot, Moved, Encode, Decode, Bits.Bit, StoredUpTo, Total;
    BackHome(t, back, i);
    FindsStored(t, m, m', values, 14);
    MirrorHomes(t);
    if Bits.Bit(back, i) { FindsStored(t, m, m', values, i); }
  }

  /** Every mode sees what it saw, but for the link register of the handler's mode. */
  lemma HandlerSees(entered: File, g: Registers, mode: Mode)
    requires FileOk(entered) && Sized(g) && g.user == entered.defaultR8R14
    requires forall k :: 0 <= k < 14 ==> g.r[k] == entered.r[k]
    ensures FileOk(WithRegisters(entered, g))
    ensures forall m, k :: 0 <= k < 15 && !(k == 14 && BankOf(m, 14) == BankOf(mode, 14)) ==>
      See(WithRegisters(entered, g), mode, m, k) == See(entered, mode, m, k)
  {
  }

  /** The mirrored transfer has the same homes. */
  lemma MirrorHomes(t: Transfer)
    ensures forall i :: 0 <= i < 16 && Bits.Bit(t.list, i) ==> Home(Mirror(t), i) == Home(t, i)
  {
    hide Rank, Slot, Moved;
    forall i | 0 <= i < 16 && Bits.Bit(t.list, i) ensures Home(Mirror(t), i) == Home(t, i) {
      RankNext(t.list, t.up, i);
      RanksMirror(t.list, t.up, i);
      SlotsMirror(t.base, t.pre, t.up, Total(t.list), Rank(t.list, t.up, i));
    }
  }

  lemma MovedAligned(base: Word, up: bool, list: nat)
    ensures Moved(base, up, Total(list)) % 4 == base % 4
    ensures Moved(Moved(base, up, Total(list)), !up, Total(list)) == base
  {
    hide Plus, Count;
    var n := Total(list);
    Wraps(base, up, n);
    ThereAndBack(base, up, n);
  }

  lemma ThereAndBack(base: Word, up: bool, n: nat)
    ensures Moved(Moved(base, up, n), !up, n) == base
  {
    hide Plus;
    var d := 4 * n;
    PlusPlus(base, if up then d else -d, if up then -d else d);
    assert Plus(base, 0) == base by { PlusZero(base); }
  }

  /** In user mode there is no other bank. */
  lemma UserInUserMode(f: Registers, m: Mode, s: bool, s': bool, list: nat, values: seq<Word>)
    requires Sized(f) && |values| == 16 && (s' == s || (m == Usr && !s'))
    ensures LoadedAll(f, m, s', list, values) == LoadedAll(f, m, s, list, values)
  {
    var g, h := LoadedAll(f, m, s', list, values), LoadedAll(f, m, s, list, values);
    assert g.r == h.r && g.user == h.user;
  }

  lemma PopRestores(t: Transfer, m: seq<Octets>, m': seq<Octets>, f: Registers, mode: Mode, s: bool, pc: Word, n: nat)
    requires |m| == |m'| == WORDS && Sized(f) && n < 15 && f.r[n] == t.base && !Bits.Bit(t.list, 15)
    requires StoredUpTo(t, m, m', Values(f, mode, s, pc), Total(t.list))
    ensures
      var f1 := f.(r := f.r[n := Moved(t.base, t.up, Total(t.list))]);
      var g := LoadedAll(f1, mode, s, t.list, Found(Mirror(t), m'));
      g.(r := g.r[n := Moved(Mirror(t).base, !t.up, Total(t.list))]) == f
  {
    hide Rank, Slot, Moved, Found, StoredUpTo, Bits.Bit;
    var values := Values(f, mode, s, pc);
    var f1 := f.(r := f.r[n := Moved(t.base, t.up, Total(t.list))]);
    forall i | 0 <= i < 16 && Bits.Bit(t.list, i) ensures Found(Mirror(t), m')[i] == Get(f, mode, s, i) {
      FindsStored(t, m, m', values, i);
    }
    MovedAligned(t.base, t.up, t.list);
    var g := LoadedAll(f1, mode, s, t.list, Found(Mirror(t), m'));
    var h := g.(r := g.r[n := t.base]);
    assert h.r == f.r;
    assert h.user == f.user;
  }

  lemma Ends(list: nat, up: bool, base: Word)
    ensures Rank(list, up, if up then 0 else 15) == 0 && Moved(base, up, 0) == base
    ensures Rank(list, up, if up then 16 else -1) == Total(list)
  {
  }

  lemma Advance(base: Word, pre: bool, up: bool, k: nat)
    ensures Plus(Moved(base, up, k), if up then 4 else -4) == Moved(base, up, k + 1)
    ensures Slot(base, pre, up, k) == if pre then Moved(base, up, k + 1) else Moved(base, up, k)
  {
    PlusPlus(base, if up then 4 * k else -4 * k, if up then 4 else -4);
  }
}
