/**
 Straight-line sequences replaced by one host function: the exchange of two registers by three eors,
 and the six-word bodies of NetBSD's copyin and copyout.
 */
module FusedSequences {
  import opened Arm
  import Bits
  import opened FusedLoops

  // ----- exchange

  function Eor(r: seq<Word>, rd: nat, rn: nat, rm: nat): seq<Word>
    requires |r| == 16 && rd < 16 && rn < 16 && rm < 16
  {
    r[rd := Xor(r[rn], r[rm])]
  }

  /** `eor b,a,b`, `eor a,b,a`, `eor b,a,b`. */
  function ThreeEors(r: seq<Word>, a: nat, b: nat): seq<Word>
    requires |r| == 16 && a < 16 && b < 16
  {
    Eor(Eor(Eor(r, b, a, b), a, b, a), b, a, b)
  }

  function Exchanged(r: seq<Word>, a: nat, b: nat): seq<Word>
    requires |r| == 16 && a < 16 && b < 16
  {
    r[a := r[b]][b := r[a]]
  }

  /** The three instructions swap, but clear the register when both are the same. */
  lemma ExchangeIff(r: seq<Word>, a: nat, b: nat)
    requires |r| == 16 && a < 16 && b < 16
    ensures ThreeEors(r, a, b) == Exchanged(r, a, b) <==> a != b || r[a] == 0
  {
    hide Bits.Bitwise;
    var x, y := r[a], r[b];
    if a == b {
      Bits.XorSelf(x);
      Bits.XorSelf(0);
      var r1 := Eor(r, b, a, b);
      assert r1[a] == 0;
      var r2 := Eor(r1, a, b, a);
      assert r2[a] == 0;
      assert ThreeEors(r, a, b)[a] == 0;
      assert Exchanged(r, a, b) == r;
      assert x == 0 ==> ThreeEors(r, a, b) == r;
    } else {
      var z := Xor(x, y);
      Bits.XorSymmetric(x, y);
      Bits.XorSymmetric(z, x);
      Bits.XorCancels(y, x);
      Bits.XorSymmetric(y, z);
      Bits.XorCancels(x, y);
      var r1 := Eor(r, b, a, b);
      assert r1[b] == z && r1[a] == x;
      var r2 := Eor(r1, a, b, a);
      assert r2[a] == y && r2[b] == z;
      assert ThreeEors(r, a, b)[b] == Xor(y, z) == x;
      assert ThreeEors(r, a, b) == Exchanged(r, a, b);
    }
  }

  // ----- six words from or to user memory

  function GetByte(b: seq<nat>, i: nat): (x: nat)
    ensures x < 256
  {
    if i < |b| then b[i] % 256 else 0
  }

  function GetWord(b: seq<nat>, i: nat): Word {
    GetByte(b, i) + 0x100 * GetByte(b, i + 1) + 0x1_0000 * GetByte(b, i + 2) + 0x100_0000 * GetByte(b, i + 3)
  }

  /** A load brings back the word that a store put there. */
  lemma PutThenGet(b: seq<nat>, i: nat, w: Word)
    requires i + 4 <= |b|
    ensures GetWord(PutWord(b, i, w), i) == w
  {
    hide PutWord;
    PutWordBytes(b, i, w);
  }

  /** Which pages user mode may access. */
  type UserPages = nat -> bool

  /** A load or store with translation, one word, post-increment: the base loses its low bits. */
  datatype Move = Load(rd: nat) | Store(rd: nat)

  function Page(e: Env, load: bool, a: Word): Ptr {
    if load then e.load(a / PAGE) else e.store(a / PAGE)
  }

  predicate Direct(e: Env, user: UserPages, load: bool, a: Word, s: State) {
    user(a / PAGE) && Page(e, load, a) != NULL && Page(e, load, a) in s.pages
  }

  function Moved(e: Env, user: UserPages, general: (Move, State) -> State, v: Move, rn: nat, s: State): State
    requires |s.r| == 16 && rn < 15 && v.rd < 15
  {
    var a := s.r[rn];
    if !Direct(e, user, v.Load?, a, s) then general(v, s.(next := s.next + 1)) else
      var page, ofs := Page(e, v.Load?, a), WordOffset(a);
      var next := Plus(a, 4 - a % 4);
      match v
      case Load(rd) => s.(next := s.next + 1, r := s.r[rd := GetWord(s.pages[page], ofs)][rn := next])
      case Store(rd) => s.(next := s.next + 1, r := s.r[rn := next],
                           pages := s.pages[page := PutWord(s.pages[page], ofs, s.r[rd])])
  }

  function Moves(e: Env, user: UserPages, general: (Move, State) -> State, vs: seq<Move>, rn: nat, s: State): State
    requires rn < 15 && forall i :: 0 <= i < |vs| ==> vs[i].rd < 15
  {
    if vs == [] || |s.r| != 16 then s else
      Moves(e, user, general, vs[1..], rn, Moved(e, user, general, vs[0], rn, s))
  }

  const COPYIN := [Load(10), Load(11), Load(6), Load(7), Load(8), Load(9)]
  const COPYOUT := [Store(8), Store(9), Store(10), Store(11), Store(6), Store(7)]

  /** The fast path of the fused functions: six words in one accessible page. */
  predicate Fast(e: Env, user: UserPages, load: bool, a: Word, s: State) {
    WordOffset(a) <= 0x1000 - 6 * 4 && Direct(e, user, load, a, s)
  }

  /** netbsd_copyin on its fast path. */
  function CopiedIn(b: seq<nat>, s: State): State
    requires |s.r| == 16
  {
    var a := s.r[0];
    var ofs := WordOffset(a);
    s.(next := s.next + 6,
       r := s.r[6 := GetWord(b, ofs + 8)][7 := GetWord(b, ofs + 12)][8 := GetWord(b, ofs + 16)]
               [9 := GetWord(b, ofs + 20)][10 := GetWord(b, ofs)][11 := GetWord(b, ofs + 4)][0 := Plus(a, 24)])
  }

  /** netbsd_copyout on its fast path. */
  function CopiedOut(page: Ptr, s: State): State
    requires |s.r| == 16 && page in s.pages
  {
    var a, r := s.r[1], s.r;
    var o := WordOffset(a);
    var b := PutWord(PutWord(PutWord(s.pages[page], o, r[8]), o + 4, r[9]), o + 8, r[10]);
    s.(next := s.next + 6, r := r[1 := Plus(a, 24)],
       pages := s.pages[page := PutWord(PutWord(PutWord(b, o + 12, r[11]), o + 16, r[6]), o + 20, r[7])])
  }

  /** The parts of an address: page, word and byte. */
  lemma InPage(x: nat, q: nat, w: nat, m: nat)
    requires x == 4 * (1024 * q + w) + m && w < 1024 && m < 4
    ensures x % 4 == m && x / PAGE == q && x % PAGE == 4 * w + m
  {
    assert x == PAGE * q + (4 * w + m);
  }

  /** The address of word `k` of the six, in the same page. */
  lemma WordAddress(a: Word, k: nat)
    requires WordOffset(a) <= 0x1000 - 6 * 4 && k < 6
    ensures
      var b := a - a % 4 + 4 * k;
      && b < TWO32 && b / PAGE == a / PAGE && WordOffset(b) == WordOffset(a) + 4 * k
      && Plus(b, 4 - b % 4) == (b + 4) % TWO32
  {
    var q, p := a / PAGE, a % PAGE;
    var w, m := p / 4, p % 4;
    assert a == PAGE * q + p && p == 4 * w + m && q < 0x10_0000;
    InPage(a, q, w, m);
    var b := a - a % 4 + 4 * k;
    assert b == 4 * (1024 * q + (w + k));
    InPage(b, q, w + k, 0);
  }

  /** The base register is at word `k` of the six that start at `a`. */
  predicate Ready(e: Env, user: UserPages, load: bool, rn: nat, a: Word, k: nat, s: State)
    requires rn < 6
  {
    |s.r| == 16 && s.r[rn] == (if k == 0 then a else a - a % 4 + 4 * k) && Fast(e, user, load, a, s)
  }

  lemma MoveAt(e: Env, user: UserPages, general: (Move, State) -> State, v: Move, rn: nat, s: State, a: Word, k: nat)
    requires rn < 6 && 6 <= v.rd < 15 && k < 6 && Ready(e, user, v.Load?, rn, a, k, s)
    ensures
      var t := Moved(e, user, general, v, rn, s);
      var page, ofs := Page(e, v.Load?, a), WordOffset(a) + 4 * k;
      && t.next == s.next + 1 && t.flags == s.flags
      && t.pages == (if v.Load? then s.pages else s.pages[page := PutWord(s.pages[page], ofs, s.r[v.rd])])
      && t.r == (if v.Load? then s.r[v.rd := GetWord(s.pages[page], ofs)] else s.r)
                [rn := (a - a % 4 + 4 * k + 4) % TWO32]
      && (k < 5 ==> Ready(e, user, v.Load?, rn, a, k + 1, t))
  {
    hide GetWord, PutWord, Plus;
    WordAddress(a, k);
    WordAddress(a, 0);
    SameStart(a);
    if k < 5 { NotYetWrapped(a, k + 1); }
  }

  lemma SameStart(a: Word)
    requires WordOffset(a) <= 0x1000 - 6 * 4
    ensures Plus(a, 4 - a % 4) == (a - a % 4 + 4) % TWO32
  {
  }

  lemma NotYetWrapped(a: Word, k: nat)
    requires WordOffset(a) <= 0x1000 - 6 * 4 && k < 6
    ensures (a - a % 4 + 4 * k) % TWO32 == a - a % 4 + 4 * k
  {
    WordAddress(a, k);
  }

  lemma Finish(a: Word)
    ensures Plus(a, 24) == (a - a % 4 + 24) % TWO32 <==> a % 4 == 0
  {
  }

  /** The state after the first `k` moves. */
  function After(e: Env, user: UserPages, general: (Move, State) -> State, vs: seq<Move>, rn: nat, s: State, k: nat): State
    requires rn < 15 && k <= |vs| && forall i :: 0 <= i < |vs| ==> vs[i].rd < 15
  {
    if k == 0 then s else
      var t := After(e, user, general, vs, rn, s, k - 1);
      if |t.r| != 16 then t else Moved(e, user, general, vs[k - 1], rn, t)
  }

  lemma {:induction false} MovesAreAfter(e: Env, user: UserPages, general: (Move, State) -> State, vs: seq<Move>,
                                         rn: nat, s: State, k: nat)
    requires rn < 15 && k <= |vs| && forall i :: 0 <= i < |vs| ==> vs[i].rd < 15
    ensures Moves(e, user, general, vs, rn, s) == Moves(e, user, general, vs[k..], rn, After(e, user, general, vs, rn, s, k))
    decreases k
  {
    if k == 0 {
      assert vs[0..] == vs;
    } else {
      MovesAreAfter(e, user, general, vs, rn, s, k - 1);
      assert vs[k - 1..][1..] == vs[k..];
    }
  }

  lemma AfterNone(e: Env, user: UserPages, general: (Move, State) -> State, vs: seq<Move>, rn: nat, s: State)
    requires rn < 15 && forall i :: 0 <= i < |vs| ==> vs[i].rd < 15
    ensures After(e, user, general, vs, rn, s, 0) == s
  {
  }

  lemma AfterStep(e: Env, user: UserPages, general: (Move, State) -> State, vs: seq<Move>, rn: nat, s: State, k: nat)
    requires rn < 15 && k < |vs| && forall i :: 0 <= i < |vs| ==> vs[i].rd < 15
    ensures
      var t := After(e, user, general, vs, rn, s, k);
      |t.r| == 16 ==> After(e, user, general, vs, rn, s, k + 1) == Moved(e, user, general, vs[k], rn, t)
  {
  }

  lemma CopyinAt(e: Env, user: UserPages, general: (Move, State) -> State, s: State, k: nat)
    requires |s.r| == 16 && Fast(e, user, true, s.r[0], s) && k <= 6
    ensures
      var t := After(e, user, general, COPYIN, 0, s, k);
      var a, b := s.r[0], s.pages[Page(e, true, s.r[0])];
      var o := WordOffset(a);
      && (k < 6 ==> Ready(e, user, true, 0, a, k, t))
      && t.next == s.next + k && t.flags == s.flags && t.pages == s.pages && |t.r| == 16
      && t.r[0] == (if k == 0 then a else (a - a % 4 + 4 * k) % TWO32)
      && forall i :: 1 <= i < 16 ==>
        t.r[i] == (if i == 10 && k > 0 then GetWord(b, o)
                   else if i == 11 && k > 1 then GetWord(b, o + 4)
                   else if 6 <= i < 10 && k > i - 4 then GetWord(b, o + 4 * (i - 4))
                   else s.r[i])
  {
    hide Moved, GetWord, WordOffset;
    if k > 0 {
      CopyinAt(e, user, general, s, k - 1);
      var t := After(e, user, general, COPYIN, 0, s, k - 1);
      AfterStep(e, user, general, COPYIN, 0, s, k - 1);
      MoveAt(e, user, general, COPYIN[k - 1], 0, t, s.r[0], k - 1);
    }
  }

  /** On its fast path netbsd_copyin is the six loads exactly when the base is aligned. */
  lemma CopyinIff(e: Env, user: UserPages, general: (Move, State) -> State, s: State)
    requires |s.r| == 16 && Fast(e, user, true, s.r[0], s)
    ensures Moves(e, user, general, COPYIN, 0, s) == CopiedIn(s.pages[Page(e, true, s.r[0])], s) <==> s.r[0] % 4 == 0
  {
    hide Moved, GetWord, WordOffset, After;
    MovesAreAfter(e, user, general, COPYIN, 0, s, 6);
    CopyinAt(e, user, general, s, 6);
    Finish(s.r[0]);
    var t, u := After(e, user, general, COPYIN, 0, s, 6), CopiedIn(s.pages[Page(e, true, s.r[0])], s);
    assert COPYIN[6..] == [];
    assert t.r[0 := u.r[0]] == u.r;
  }

  /** The first `k` of the six registers that copyout stores, in the page. */
  function PutFirst(b: seq<nat>, ofs: nat, r: seq<Word>, k: nat): seq<nat>
    requires |r| == 16 && k <= 6
  {
    if k == 0 then b else PutWord(PutFirst(b, ofs, r, k - 1), ofs + 4 * (k - 1), r[COPYOUT[k - 1].rd])
  }

  lemma PutNext(b: seq<nat>, ofs: nat, r: seq<Word>, k: nat)
    requires |r| == 16 && k <= 6
    ensures PutFirst(b, ofs, r, 0) == b
    ensures k > 0 ==>
      PutFirst(b, ofs, r, k) == PutWord(PutFirst(b, ofs, r, k - 1), ofs + 4 * (k - 1), r[COPYOUT[k - 1].rd])
  {
  }

  lemma CopyoutAt(e: Env, user: UserPages, general: (Move, State) -> State, s: State, k: nat)
    requires |s.r| == 16 && Fast(e, user, false, s.r[1], s) && k <= 6
    ensures
      var t := After(e, user, general, COPYOUT, 1, s, k);
      var a, page := s.r[1], Page(e, false, s.r[1]);
      && (k < 6 ==> Ready(e, user, false, 1, a, k, t))
      && t.next == s.next + k && t.flags == s.flags
      && t.r == s.r[1 := if k == 0 then a else (a - a % 4 + 4 * k) % TWO32]
      && t.pages == s.pages[page := PutFirst(s.pages[page], WordOffset(a), s.r, k)]
  {
    hide Moved, PutWord, WordOffset, PutFirst, After;
    AfterNone(e, user, general, COPYOUT, 1, s);
    PutNext(s.pages[Page(e, false, s.r[1])], WordOffset(s.r[1]), s.r, k);
    if k > 0 {
      CopyoutAt(e, user, general, s, k - 1);
      var t := After(e, user, general, COPYOUT, 1, s, k - 1);
      AfterStep(e, user, general, COPYOUT, 1, s, k - 1);
      MoveAt(e, user, general, COPYOUT[k - 1], 1, t, s.r[1], k - 1);
    }
  }

  /** Likewise netbsd_copyout and the six stores. */
  lemma CopyoutIff(e: Env, user: UserPages, general: (Move, State) -> State, s: State)
    requires |s.r| == 16 && Fast(e, user, false, s.r[1], s)
    ensures Moves(e, user, general, COPYOUT, 1, s) == CopiedOut(Page(e, false, s.r[1]), s) <==> s.r[1] % 4 == 0
  {
    hide Moved, PutWord, WordOffset, After;
    MovesAreAfter(e, user, general, COPYOUT, 1, s, 6);
    CopyoutAt(e, user, general, s, 6);
    Finish(s.r[1]);
    PutSix(s.pages[Page(e, false, s.r[1])], WordOffset(s.r[1]), s.r);
    var t, u := After(e, user, general, COPYOUT, 1, s, 6), CopiedOut(Page(e, false, s.r[1]), s);
    assert COPYOUT[6..] == [];
    assert t.r[1] == u.r[1] ==> t.r == u.r;
  }

  lemma PutSix(b: seq<nat>, o: nat, r: seq<Word>)
    requires |r| == 16
    ensures PutFirst(b, o, r, 6) ==
      PutWord(PutWord(PutWord(PutWord(PutWord(PutWord(b, o, r[8]), o + 4, r[9]), o + 8, r[10]), o + 12, r[11]),
        o + 16, r[6]), o + 20, r[7])
  {
    hide PutWord, PutFirst;
    PutNext(b, o, r, 1);
    PutNext(b, o, r, 2);
    PutNext(b, o, r, 3);
    PutNext(b, o, r, 4);
    PutNext(b, o, r, 5);
    PutNext(b, o, r, 6);
  }
}
