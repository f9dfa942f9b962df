/**
 ARM processor modes: banked registers, the split status register, exception entry and return.

 `r` always holds the registers of the current mode, the banks those of the others.  The condition
 flags live in `flags`; the top bits of `cpsr` lag behind until the register is read as a whole.
 */
module RegisterBanks {
  import opened Arm
  import opened Wrappers
  import Bits

  datatype Mode = Usr | Fiq | Irq | Svc | Abt | Und | Sys

  /** A status register, by its fields. `nzcv` and `q` are the two halves of the flags byte. */
  datatype Psr = Psr(nzcv: nat, q: nat, status: nat, extension: nat, i: bool, f: bool, t: bool, mode: nat)

  predicate InRange(p: Psr) {
    p.nzcv < 16 && p.q < 16 && p.status < 256 && p.extension < 256 && p.mode < 32
  }

  function ModeOf(bits: nat): Option<Mode> {
    match bits
    case 0x10 => Some(Usr)
    case 0x11 => Some(Fiq)
    case 0x12 => Some(Irq)
    case 0x13 => Some(Svc)
    case 0x17 => Some(Abt)
    case 0x1b => Some(Und)
    case 0x1f => Some(Sys)
    case _ => None
  }

  function BitsOf(m: Mode): (bits: nat)
    ensures ModeOf(bits) == Some(m) && bits < 32
  {
    match m
    case Usr => 0x10
    case Fiq => 0x11
    case Irq => 0x12
    case Svc => 0x13
    case Abt => 0x17
    case Und => 0x1b
    case Sys => 0x1f
  }

  // ----- where registers are kept

  datatype Bank = Shared | FiqBank | Own(mode: Mode)

  /** Modes with their own r13 and r14 only. */
  predicate Paired(m: Mode) { m.Irq? || m.Svc? || m.Abt? || m.Und? }

  /** Modes with a saved status register. */
  predicate HasSpsr(m: Mode) { Paired(m) || m.Fiq? }

  /** The bank of register `n`, from r8 to r14, in a mode. */
  function BankOf(m: Mode, n: nat): Bank {
    if m == Fiq then FiqBank else if n >= 13 && Paired(m) then Own(m) else Shared
  }

  const RESET := 0
  const DATA_ABT := 4
  const FIQ := 7

  /** The mode that an exception is taken in; the program gives up on the other two numbers. */
  function ExceptionMode(nr: nat): (m: Option<Mode>)
    ensures m.Some? ==> HasSpsr(m.value) && nr != RESET && nr < 8
  {
    match nr
    case 1 => Some(Und)
    case 2 => Some(Svc)
    case 3 => Some(Abt)
    case 4 => Some(Abt)
    case 6 => Some(Irq)
    case 7 => Some(Fiq)
    case _ => None
  }

  lemma Vectors(nr: nat)
    ensures ExceptionMode(nr).None? <==> nr == 0 || nr == 5 || nr > 7
    ensures nr == 1 ==> ExceptionMode(nr) == Some(Und) && BitsOf(Und) == 0x1b
    ensures nr == 2 ==> ExceptionMode(nr) == Some(Svc) && BitsOf(Svc) == 0x13
    ensures nr == 3 || nr == 4 ==> ExceptionMode(nr) == Some(Abt) && BitsOf(Abt) == 0x17
    ensures nr == 6 ==> ExceptionMode(nr) == Some(Irq) && BitsOf(Irq) == 0x12
    ensures nr == 7 ==> ExceptionMode(nr) == Some(Fiq) && BitsOf(Fiq) == 0x11
  {
  }

  /** The modes that exceptions are taken in have link registers of their own. */
  lemma OwnLink(m: Mode)
    requires HasSpsr(m)
    ensures forall m' :: BankOf(m', 14) == BankOf(m, 14) <==> m' == m
  {
  }

  /** User and system mode are those without a saved status register. */
  lemma Unprivileged(bits: nat)
    requires ModeOf(bits).Some?
    ensures !HasSpsr(ModeOf(bits).value) <==> bits == 0x10 || bits == 0x1f
    ensures ModeOf(bits).value == Usr <==> bits == 0x10
  {
  }

  /** Which bytes of a status register an msr writes. */
  datatype Mask = Mask(flags: bool, status: bool, extension: bool, control: bool)

  function Merge(p: Psr, v: Psr, m: Mask): Psr {
    Psr(if m.flags then v.nzcv else p.nzcv, if m.flags then v.q else p.q,
        if m.status then v.status else p.status, if m.extension then v.extension else p.extension,
        if m.control then v.i else p.i, if m.control then v.f else p.f, if m.control then v.t else p.t,
        if m.control then v.mode else p.mode)
  }

  datatype Op =
    | Msr(value: Psr, mask: Mask)
    | Enter(nr: nat)
    | Return(to: Word)
    | BlockReturn(to: Word)

  /** Whether an operation of the run writes the link register that mode `m` sees. */
  predicate WritesLr(ops: seq<Op>, m: Mode) {
    exists i :: 0 <= i < |ops| && ops[i].Enter? && ExceptionMode(ops[i].nr) == Some(m)
  }

  // ----- the register file

  /** The registers of the current mode, and the banks of all of them. */
  datatype File = File(r: seq<Word>, defaultR8R14: seq<Word>, fiqR8R14: seq<Word>, r13r14: map<Mode, seq<Word>>)

  predicate FileOk(f: File) {
    && |f.r| == 16 && |f.defaultR8R14| == 7 && |f.fiqR8R14| == 7
    && (forall m :: Paired(m) ==> m in f.r13r14 && |f.r13r14[m]| == 2)
  }

  function Stored(f: File, b: Bank, n: nat): Word
    requires FileOk(f) && 8 <= n < 15 && (b.Own? ==> n >= 13 && Paired(b.mode))
  {
    match b
    case Shared => f.defaultR8R14[n - 8]
    case FiqBank => f.fiqR8R14[n - 8]
    case Own(m) => f.r13r14[m][n - 13]
  }

  /** Register `n`, as mode `m` sees it, while the processor is in mode `current`. */
  function See(f: File, current: Mode, m: Mode, n: nat): Word
    requires FileOk(f) && n < 15
  {
    if n < 8 || BankOf(m, n) == BankOf(current, n) then f.r[n] else Stored(f, BankOf(m, n), n)
  }

  /** Two files give every mode the same registers. */
  ghost predicate SameView(f: File, current: Mode, f': File, current': Mode)
    requires FileOk(f) && FileOk(f')
  {
    forall m, n :: 0 <= n < 15 ==> See(f', current', m, n) == See(f, current, m, n)
  }

  /** arm_save_register_bank. */
  function Save(f: File, current: Mode): File
    requires FileOk(f)
  {
    match current
    case Usr => f.(defaultR8R14 := f.r[8..15])
    case Sys => f.(defaultR8R14 := f.r[8..15])
    case Fiq => f.(fiqR8R14 := f.r[8..15])
    case _ =>
      f.(defaultR8R14 := f.r[8..13] + f.defaultR8R14[5..], r13r14 := f.r13r14[current := [f.r[13], f.r[14]]])
  }

  /** arm_load_register_bank. */
  function Load(f: File, current: Mode): File
    requires FileOk(f)
  {
    f.(r := f.r[..8] +
      (match current
       case Usr => f.defaultR8R14
       case Sys => f.defaultR8R14
       case Fiq => f.fiqR8R14
       case _ => f.defaultR8R14[..5] + f.r13r14[current]) + f.r[15..])
  }

  /** The banks agree with the registers of the current mode. */
  predicate Saved(f: File, current: Mode)
    requires FileOk(f)
  {
    forall n :: 8 <= n < 15 ==> Stored(f, BankOf(current, n), n) == f.r[n]
  }

  lemma StoredInSaved(f: File, current: Mode, b: Bank, n: nat)
    requires FileOk(f) && 8 <= n < 15 && (b.Own? ==> n >= 13 && Paired(b.mode))
    ensures FileOk(Save(f, current)) && Save(f, current).r == f.r
    ensures Stored(Save(f, current), b, n) == if b == BankOf(current, n) then f.r[n] else Stored(f, b, n)
  {
  }

  lemma SaveKeeps(f: File, current: Mode)
    requires FileOk(f)
    ensures FileOk(Save(f, current)) && Saved(Save(f, current), current)
    ensures SameView(f, current, Save(f, current), current)
  {
    StoredInSaved(f, current, Shared, 8);
    forall m, n | 0 <= n < 15
      ensures See(Save(f, current), current, m, n) == See(f, current, m, n)
      ensures n >= 8 ==> Stored(Save(f, current), BankOf(current, n), n) == f.r[n]
    {
      if n >= 8 {
        StoredInSaved(f, current, BankOf(m, n), n);
        StoredInSaved(f, current, BankOf(current, n), n);
      }
    }
  }

  lemma LoadKeeps(f: File, current: Mode, next: Mode)
    requires FileOk(f) && Saved(f, current)
    ensures FileOk(Load(f, next)) && Saved(Load(f, next), next)
    ensures SameView(f, current, Load(f, next), next)
    ensures Load(f, next).r[15] == f.r[15]
  {
    var g := Load(f, next);
    forall n | 8 <= n < 15 ensures g.r[n] == Stored(f, BankOf(next, n), n) {
    }
  }

  /** A mode switch, between which the mode bits change. */
  function Switch(f: File, current: Mode, next: Mode): File
    requires FileOk(f)
  {
    SaveKeeps(f, current);
    Load(Save(f, current), next)
  }

  lemma SwitchIsFile(f: File, current: Mode, next: Mode)
    requires FileOk(f)
    ensures FileOk(Save(f, current)) && FileOk(Switch(f, current, next))
  {
    SaveKeeps(f, current);
    LoadKeeps(Save(f, current), current, next);
  }

  lemma SwitchKeeps(f: File, current: Mode, next: Mode)
    requires FileOk(f)
    ensures FileOk(Switch(f, current, next)) && SameView(f, current, Switch(f, current, next), next)
    ensures Switch(f, current, next).r[15] == f.r[15]
  {
    SaveKeeps(f, current);
    LoadKeeps(Save(f, current), current, next);
  }

  /**
   Who sees a register written: every mode the low eight; all modes but fast interrupt share r8 to r12,
   user and system mode r13 and r14 as well; otherwise the mode that wrote it only.
   */
  lemma WriteSeen(f: File, c: Mode, n: nat, v: Word, m: Mode, k: nat)
    requires FileOk(f) && n < 15 && k < 15
    ensures
      var seen := n < 8 || m == c || (n < 13 && m != Fiq && c != Fiq) || (m in {Usr, Sys} && c in {Usr, Sys});
      var f' := f.(r := f.r[n := v]);
      FileOk(f') && See(f', c, m, k) == if k == n && seen then v else See(f, c, m, k)
  {
  }

  /** Writing the link register of the current mode is seen by the modes that share it. */
  lemma LinkWritten(f: File, current: Mode, link: Word, pc: Word)
    requires FileOk(f)
    ensures
      var f' := f.(r := f.r[14 := link][15 := pc]);
      FileOk(f') && forall m, n :: 0 <= n < 15 ==>
        See(f', current, m, n) == if n == 14 && BankOf(m, 14) == BankOf(current, 14) then link else See(f, current, m, n)
  {
  }

  // ----- the processor

  class Cpu {
    var file: File
    var flags: nat
    var cpsr: Psr
    var spsr: map<Mode, Psr>
    var pc: Word
    var highVectors: bool

    ghost predicate Valid()
      reads this
    {
      && FileOk(file) && flags < 16 && InRange(cpsr) && ModeOf(cpsr.mode).Some?
      && (forall m :: HasSpsr(m) ==> m in spsr && InRange(spsr[m]))
    }

    function Current(): Mode
      requires ModeOf(cpsr.mode).Some?
      reads this
    {
      ModeOf(cpsr.mode).value
    }

    function Reg(m: Mode, n: nat): Word
      requires Valid() && n < 15
      reads this
    {
      See(file, Current(), m, n)
    }

    /** The status register, as a program would read it. */
    function Cpsr(): Psr
      reads this
    {
      cpsr.(nzcv := flags)
    }

    /** arm_save_register_bank. */
    method SaveRegisterBank()
      requires FileOk(file) && ModeOf(cpsr.mode).Some?
      modifies `file
      ensures file == Save(old(file), Current())
    {
      var r := file.r;
      match Current() {
        case Usr => file := file.(defaultR8R14 := r[8..15]);
        case Sys => file := file.(defaultR8R14 := r[8..15]);
        case Fiq => file := file.(fiqR8R14 := r[8..15]);
        case _ =>
          file := file.(defaultR8R14 := r[8..13] + file.defaultR8R14[5..]);
          file := file.(r13r14 := file.r13r14[Current() := [r[13], r[14]]]);
      }
    }

    /** arm_load_register_bank. */
    method LoadRegisterBank()
      requires FileOk(file) && ModeOf(cpsr.mode).Some?
      modifies `file
      ensures file == Load(old(file), Current())
    {
      var r := file.r;
      match Current() {
        case Usr => file := file.(r := r[..8] + file.defaultR8R14 + r[15..]);
        case Sys => file := file.(r := r[..8] + file.defaultR8R14 + r[15..]);
        case Fiq => file := file.(r := r[..8] + file.fiqR8R14 + r[15..]);
        case _ => file := file.(r := r[..8] + (file.defaultR8R14[..5] + file.r13r14[Current()]) + r[15..]);
      }
    }

    /**
     arm_exception. Every mode keeps all its registers, but for the link register of the mode
     entered. The method fails, as the program does, on a reset and on the unused number.
     */
    method Exception(nr: nat) returns (ok: bool)
      requires Valid() && nr < 8
      modifies this
      ensures ok <==> ExceptionMode(nr).Some?
      ensures !ok <==> nr == 0 || nr == 5
      ensures ok ==>
        && Valid() && Current() == ExceptionMode(nr).value
        && (nr == 1 ==> Current() == Und && Cpsr().mode == 0x1b)
        && (nr == 2 ==> Current() == Svc && Cpsr().mode == 0x13)
        && (nr == 3 || nr == 4 ==> Current() == Abt && Cpsr().mode == 0x17)
        && (nr == 6 ==> Current() == Irq && Cpsr().mode == 0x12)
        && (nr == 7 ==> Current() == Fiq && Cpsr().mode == 0x11)
        && spsr == old(spsr)[Current() := old(Cpsr())]
        && Cpsr() == old(Cpsr()).(t := false, i := true, mode := BitsOf(Current()), f := old(cpsr.f) || nr == 7)
        && pc == file.r[15] == nr * 4 + (if highVectors then 0xffff_0000 else 0)
        && highVectors == old(highVectors)
      ensures ok ==> forall m, n :: 0 <= n < 15 ==>
        Reg(m, n) == if n == 14 && m == Current()
                     then Plus(Plus(old(pc), if nr == 4 then 4 else 0), if old(cpsr.t) then 2 else 4)
                     else old(Reg(m, n))
    {
      hide FileOk, See, Plus, BankOf, ModeOf, BitsOf, ExceptionMode, InRange, Paired, HasSpsr;
      Vectors(nr);
      if nr == RESET {
        return false;
      }
      var retaddr := pc;
      if nr == DATA_ABT {
        retaddr := Plus(retaddr, 4);
      } else {
        PlusZero(retaddr);
      }
      retaddr := Plus(retaddr, if cpsr.t then 2 else 4);
      if ExceptionMode(nr).None? {
        return false;
      }
      Arrive(ExceptionMode(nr).value, nr, retaddr);
      ok := true;
    }

    /** The new mode with its link register and vector. */
    method Arrive(mode: Mode, nr: nat, retaddr: Word)
      requires Valid() && HasSpsr(mode) && nr < 8
      modifies `file, `cpsr, `spsr, `pc
      ensures Valid() && Current() == mode && spsr == old(spsr)[mode := old(Cpsr())]
      ensures Cpsr() == old(Cpsr()).(t := false, i := true, mode := BitsOf(mode), f := old(cpsr.f) || nr == RESET || nr == FIQ)
      ensures pc == file.r[15] == nr * 4 + (if highVectors then 0xffff_0000 else 0)
      ensures forall m, n :: 0 <= n < 15 ==> Reg(m, n) == if n == 14 && m == mode then retaddr else old(Reg(m, n))
    {
      hide FileOk, See, Switch, BankOf, ModeOf, BitsOf, InRange, Paired, HasSpsr;
      OwnLink(mode);
      SwitchKeeps(file, Current(), mode);
      TakeMode(mode, nr == RESET || nr == FIQ);
      pc := nr * 4 + (if highVectors then 0xffff_0000 else 0);
      LinkWritten(file, Current(), retaddr, pc);
      SixteenRegisters(file);
      file := file.(r := file.r[14 := retaddr][15 := pc]);
    }

    /** The part of an exception entry that saves the status register and switches banks. */
    method TakeMode(mode: Mode, noFiq: bool)
      requires Valid() && HasSpsr(mode)
      modifies `file, `cpsr, `spsr
      ensures Valid() && Current() == mode && spsr == old(spsr)[mode := old(Cpsr())]
      ensures Cpsr() == old(Cpsr()).(t := false, i := true, mode := BitsOf(mode), f := old(cpsr.f) || noFiq)
      ensures file == Switch(old(file), old(Current()), mode)
    {
      hide FileOk, Save, Load, ModeOf, BitsOf, InRange;
      SwitchIsFile(file, Current(), mode);
      SaveRegisterBank();
      SyncInRange(cpsr, flags);
      cpsr := cpsr.(nzcv := flags);
      EnteredInRange(cpsr, BitsOf(mode), noFiq);
      spsr := spsr[mode := cpsr];
      cpsr := cpsr.(t := false);
      cpsr := cpsr.(mode := BitsOf(mode));
      cpsr := cpsr.(i := true);
      if noFiq {
        cpsr := cpsr.(f := true);
      }
      LoadRegisterBank();
    }

    /** msr to the current status register. It fails when it selects a mode that does not exist. */
    method MsrCpsr(value: Psr, fields: Mask) returns (ok: bool)
      requires Valid() && InRange(value)
      modifies this
      ensures
        var mask := if old(Current()) == Usr then Mask(fields.flags, false, false, false) else fields;
        && (ok <==> ModeOf(Merge(old(Cpsr()), value, mask).mode).Some?)
        && (ok ==> Valid() && Cpsr() == Merge(old(Cpsr()), value, mask))
      ensures ok ==> spsr == old(spsr) && pc == old(pc) && highVectors == old(highVectors)
      ensures ok ==> forall m, n :: 0 <= n < 15 ==> Reg(m, n) == old(Reg(m, n))
    {
      hide FileOk, See, Save, Load, BankOf, ModeOf, InRange, Merge;
      var mask := if Current() == Usr then Mask(fields.flags, false, false, false) else fields;
      var switch := mask.control && cpsr.mode != value.mode;
      SyncInRange(cpsr, flags);
      cpsr := cpsr.(nzcv := flags);
      SaveKeeps(file, Current());
      if switch {
        SaveRegisterBank();
      }
      MergeInRange(cpsr, value, mask);
      cpsr := Merge(cpsr, value, mask);
      flags := cpsr.nzcv;
      if ModeOf(cpsr.mode).None? {
        return false;
      }
      SwitchKeeps(old(file), old(Current()), Current());
      if switch {
        LoadRegisterBank();
      }
      ok := true;
    }

    /**
     A flag-setting data-processing instruction that writes the program counter: the status register
     comes back from the saved one. In a mode without one, the flags are reread from `cpsr`, which
     may be out of date. The method fails when the saved status register holds no valid mode.
     */
    method ReturnTo(to: Word) returns (ok: bool)
      requires Valid()
      modifies this
      ensures
        var p := if old(cpsr.mode) == 0x10 || old(cpsr.mode) == 0x1f then old(cpsr) else old(spsr)[old(Current())];
        && (ok <==> ModeOf(p.mode).Some?)
        && (ok ==> Valid() && Cpsr() == p.(t := p.t || to % 2 == 1))
      ensures ok ==> spsr == old(spsr) && pc == to && highVectors == old(highVectors)
      ensures ok ==> forall m, n :: 0 <= n < 15 ==> Reg(m, n) == old(Reg(m, n))
    {
      hide FileOk, See, Save, Load, BankOf;
      pc := to;
      SaveKeeps(file, Current());
      SaveRegisterBank();
      if HasSpsr(Current()) {
        cpsr := spsr[Current()];
      }
      flags := cpsr.nzcv;
      if ModeOf(cpsr.mode).None? {
        return false;
      }
      SwitchKeeps(old(file), old(Current()), Current());
      LoadRegisterBank();
      if pc % 2 == 1 {
        cpsr := cpsr.(t := true);
      }
      ok := true;
    }

    /**
     The end of a load multiple with the S bit that has loaded the program counter into `r15`: the
     banks are switched only if the mode changes, the thumb bit comes from the saved status register
     alone, and the low address bits are dropped. A mode without a saved status register stops the
     machine, with nothing changed.
     */
    method ReturnByBlock() returns (ok: bool)
      requires Valid()
      modifies this
      ensures
        var m := old(Current());
        && (ok <==> HasSpsr(m) && ModeOf(old(spsr)[m].mode).Some?)
        && (ok ==> Valid() && Cpsr() == old(spsr)[m])
        && (old(cpsr.mode) == 0x10 || old(cpsr.mode) == 0x1f ==> !ok && unchanged(this))
        && (!HasSpsr(m) <==> old(cpsr.mode) == 0x10 || old(cpsr.mode) == 0x1f)
      ensures ok ==> spsr == old(spsr) && highVectors == old(highVectors) && file.r[15] == old(file.r[15])
      ensures ok ==> pc == file.r[15] - file.r[15] % 4
      ensures ok ==> forall m, n :: 0 <= n < 15 ==> Reg(m, n) == old(Reg(m, n))
    {
      hide FileOk, See, Save, Load, BankOf, ModeOf;
      SixteenRegisters(file);
      Unprivileged(cpsr.mode);
      if !HasSpsr(Current()) { return false; }
      var saved := spsr[Current()];
      var switch := cpsr.mode != saved.mode;
      SaveKeeps(file, Current());
      if switch { SaveRegisterBank(); }
      cpsr := saved;
      flags := cpsr.nzcv;
      if ModeOf(cpsr.mode).None? { return false; }
      SwitchKeeps(old(file), old(Current()), Current());
      if switch { LoadRegisterBank(); }
      SixteenRegisters(file);
      pc := file.r[15] - file.r[15] % 4;
      ok := true;
    }

    /** Either return, to address `to`. */
    method ReturnEither(to: Word, byBlock: bool) returns (ok: bool)
      requires Valid() && HasSpsr(Current()) && (byBlock || to % 2 == 0)
      modifies this
      ensures
        var p := old(spsr)[old(Current())];
        (ok <==> ModeOf(p.mode).Some?) && (ok ==> Valid() && Cpsr() == p)
      ensures ok ==> spsr == old(spsr) && pc == (if byBlock then to - to % 4 else to)
      ensures ok ==> forall m, n :: 0 <= n < 15 ==> Reg(m, n) == old(Reg(m, n))
    {
      hide FileOk, See, ModeOf;
      Unprivileged(cpsr.mode);
      if byBlock {
        SetR15(file, Current(), to);
        file := file.(r := file.r[15 := to]);
        ok := ReturnByBlock();
      } else {
        ok := ReturnTo(to);
      }
    }

    /**
     An exception that changes the mode, then a return of either kind: the interrupted program finds
     its whole status register, flags included, and all its registers.
     */
    method EnterAndReturn(nr: nat, to: Word, byBlock: bool)
      requires Valid() && nr < 8 && ExceptionMode(nr).Some? && ExceptionMode(nr).value != Current()
      requires byBlock || to % 2 == 0
      modifies this
      ensures Valid() && Cpsr() == old(Cpsr()) && pc == (if byBlock then to - to % 4 else to)
      ensures forall n :: 0 <= n < 15 ==> Reg(Current(), n) == old(Reg(Current(), n))
    {
      hide FileOk, See;
      var ok := Exception(nr);
      ok := ReturnEither(to, byBlock);
    }

    /**
     Handlers that are interrupted in turn, to any depth: when all have returned, the status register
     is what it was, so are the saved ones of the modes that were in use, and every mode has all its
     registers but the link registers of the modes entered.
     */
    method Serve(run: Interrupts, ghost busy: set<Mode>)
      requires Valid() && Current() in busy && Nests(run, busy)
      modifies this
      ensures Valid() && Cpsr() == old(Cpsr())
      ensures forall m :: m in busy && HasSpsr(m) ==> spsr[m] == old(spsr)[m]
      ensures forall m, n :: 0 <= n < 15 && !(n == 14 && Links(run, m)) ==> Reg(m, n) == old(Reg(m, n))
      decreases run
    {
      hide FileOk, See, BankOf, ModeOf, InRange, BitsOf;
      match run {
        case Quiet =>
        case Then(nr, inner, to, byBlock, rest) =>
          var ok := Exception(nr);
          Serve(inner, busy + {Current()});
          ok := ReturnEither(to, byBlock);
          Serve(rest, busy);
      }
    }

    /**
     Over any run, every mode keeps its registers, but for link registers that an entry wrote. The
     run completes exactly when no step meets a number or a mode that does not exist, or a block
     return in a mode without a saved status register.
     */
    method Perform(ops: seq<Op>) returns (ok: bool)
      requires Valid()
      requires forall i :: 0 <= i < |ops| ==>
        (ops[i].Msr? ==> InRange(ops[i].value)) && (ops[i].Enter? ==> ops[i].nr < 8)
      modifies this
      ensures ok <==> Completes(old(Modes()), ops)
      ensures ok ==> Valid()
      ensures ok ==> forall m, n :: 0 <= n < 15 && !(n == 14 && WritesLr(ops, m)) ==> Reg(m, n) == old(Reg(m, n))
      decreases |ops|
    {
      hide FileOk, See, WritesLr, ModeOf, InRange, BitsOf;
      if ops == [] {
        return true;
      }
      ok := PerformOne(ops[0]);
      if ok {
        WritesLrLater(ops);
        ok := Perform(ops[1..]);
      }
    }

    /** The current mode, and the mode bits of every saved status register. */
    ghost function Modes(): ModeState
      requires Valid()
      reads this
    {
      ModeState(Current(), map m: Mode | HasSpsr(m) :: spsr[m].mode)
    }

    method PerformOne(op: Op) returns (ok: bool)
      requires Valid()
      requires (op.Msr? ==> InRange(op.value)) && (op.Enter? ==> op.nr < 8)
      modifies this
      ensures ok <==> NextModes(old(Modes()), op).Some?
      ensures ok ==> Valid() && Modes() == NextModes(old(Modes()), op).value
      ensures ok ==> forall m, n ::
        0 <= n < 15 && !(n == 14 && op.Enter? && m == Current()) ==> Reg(m, n) == old(Reg(m, n))
    {
      hide FileOk, See, InRange, BankOf;
      match op {
        case Msr(value, mask) => ok := MsrCpsr(value, mask);
        case Enter(nr) => ok := Exception(nr);
        case Return(to) => ok := ReturnTo(to);
        case BlockReturn(to) =>
          SetR15(file, Current(), to);
          file := file.(r := file.r[15 := to]);
          ok := ReturnByBlock();
      }
    }
  }

  // ----- runs

  /** What decides whether a run completes. */
  datatype ModeState = ModeState(current: Mode, saved: map<Mode, nat>)

  function NextModes(s: ModeState, op: Op): Option<ModeState> {
    match op
    case Msr(value, mask) =>
      if s.current == Usr || !mask.control then Some(s)
      else if ModeOf(value.mode).None? then None
      else Some(s.(current := ModeOf(value.mode).value))
    case Enter(nr) =>
      if ExceptionMode(nr).None? then None
      else
        var m := ExceptionMode(nr).value;
        Some(ModeState(m, s.saved[m := BitsOf(s.current)]))
    case Return(_) =>
      if s.current !in s.saved then Some(s)
      else if ModeOf(s.saved[s.current]).None? then None
      else Some(s.(current := ModeOf(s.saved[s.current]).value))
    case BlockReturn(_) =>
      if s.current !in s.saved || ModeOf(s.saved[s.current]).None? then None
      else Some(s.(current := ModeOf(s.saved[s.current]).value))
  }

  predicate Completes(s: ModeState, ops: seq<Op>)
    decreases |ops|
  {
    ops == [] || (NextModes(s, ops[0]).Some? && Completes(NextModes(s, ops[0]).value, ops[1..]))
  }

  /** Exceptions one after the other, each with those that interrupt its handler, and its return. */
  datatype Interrupts = Quiet | Then(nr: nat, inner: Interrupts, to: Word, byBlock: bool, rest: Interrupts)

  /** Every exception is taken in a mode that is not in use at that moment. */
  ghost predicate Nests(run: Interrupts, busy: set<Mode>) {
    match run
    case Quiet => true
    case Then(nr, inner, to, byBlock, rest) =>
      && nr < 8 && ExceptionMode(nr).Some? && ExceptionMode(nr).value !in busy && (byBlock || to % 2 == 0)
      && Nests(inner, busy + {ExceptionMode(nr).value}) && Nests(rest, busy)
  }

  /** Whether one of them writes the link register that mode `m` sees. */
  predicate Links(run: Interrupts, m: Mode) {
    match run
    case Quiet => false
    case Then(nr, inner, to, byBlock, rest) =>
      ExceptionMode(nr) == Some(m) || Links(inner, m) || Links(rest, m)
  }

  lemma SetR15(f: File, current: Mode, to: Word)
    requires FileOk(f)
    ensures |f.r| == 16
    ensures var f' := f.(r := f.r[15 := to]); FileOk(f') && SameView(f, current, f', current)
  {
  }

  // ----- the status register as a word

  function ControlByte(p: Psr): nat {
    (if p.i then 0x80 else 0) + (if p.f then 0x40 else 0) + (if p.t then 0x20 else 0) + p.mode
  }

  function WordOf(p: Psr): nat {
    0x1000_0000 * p.nzcv + 0x100_0000 * p.q + 0x1_0000 * p.status + 0x100 * p.extension + ControlByte(p)
  }

  function MaskWord(m: Mask): nat {
    (if m.flags then 0xff00_0000 else 0) + (if m.status then 0xff_0000 else 0) +
    (if m.extension then 0xff00 else 0) + if m.control then 0xff else 0
  }

  function MaskByte(on: bool): nat { if on then 0xff else 0 }

  function FourBytes(a: nat, b: nat, c: nat, d: nat): nat {
    Bits.Cat(Bits.Cat(Bits.Cat(a, b, 8), c, 8), d, 8)
  }

  lemma WordBytes(p: Psr, m: Mask)
    requires InRange(p)
    ensures ControlByte(p) < 256
    ensures WordOf(p) == FourBytes(16 * p.nzcv + p.q, p.status, p.extension, ControlByte(p))
    ensures MaskWord(m) == FourBytes(MaskByte(m.flags), MaskByte(m.status), MaskByte(m.extension), MaskByte(m.control))
  {
    hide Bits.Cat, Bits.Pow2;
    Bits.Powers();
    BytesSum(16 * p.nzcv + p.q, p.status, p.extension, ControlByte(p));
    BytesSum(MaskByte(m.flags), MaskByte(m.status), MaskByte(m.extension), MaskByte(m.control));
  }

  lemma BytesSum(a: nat, b: nat, c: nat, d: nat)
    requires b < 256 && c < 256 && d < 256
    ensures FourBytes(a, b, c, d) == 0x100_0000 * a + 0x1_0000 * b + 0x100 * c + d
  {
    hide Bits.Cat, Bits.Pow2;
    Bits.Powers();
    Bits.CatSum(a, b, 8);
    Bits.CatSum(0x100 * a + b, c, 8);
    Bits.CatSum(0x1_0000 * a + 0x100 * b + c, d, 8);
  }

  /** The word determines the fields. */
  lemma WordInjective(p: Psr, v: Psr)
    requires InRange(p) && InRange(v) && WordOf(p) == WordOf(v)
    ensures p == v
  {
    hide FourBytes, WordOf, MaskWord;
    var none := Mask(false, false, false, false);
    WordBytes(p, none);
    WordBytes(v, none);
    BytesInjective(16 * p.nzcv + p.q, p.status, p.extension, ControlByte(p),
      16 * v.nzcv + v.q, v.status, v.extension, ControlByte(v));
  }

  lemma BytesInjective(a: nat, b: nat, c: nat, d: nat, a': nat, b': nat, c': nat, d': nat)
    requires b < 256 && c < 256 && d < 256 && b' < 256 && c' < 256 && d' < 256
    requires FourBytes(a, b, c, d) == FourBytes(a', b', c', d')
    ensures a == a' && b == b' && c == c' && d == d'
  {
    BytesSum(a, b, c, d);
    BytesSum(a', b', c', d');
  }

  lemma GateBytes(g: Bits.Gate, a: nat, b: nat, c: nat, d: nat, a': nat, b': nat, c': nat, d': nat)
    requires b < 256 && c < 256 && d < 256 && b' < 256 && c' < 256 && d' < 256
    ensures Bits.Bitwise(g, FourBytes(a, b, c, d), FourBytes(a', b', c', d')) ==
      FourBytes(Bits.Bitwise(g, a, a'), Bits.Bitwise(g, b, b'), Bits.Bitwise(g, c, c'), Bits.Bitwise(g, d, d'))
  {
    hide Bits.Cat, Bits.Pow2, Bits.Bitwise;
    Bits.Powers();
    Bits.GateCat(g, a, b, a', b', 8);
    Bits.GateCat(g, Bits.Cat(a, b, 8), c, Bits.Cat(a', b', 8), c', 8);
    Bits.GateCat(g, Bits.Cat(Bits.Cat(a, b, 8), c, 8), d, Bits.Cat(Bits.Cat(a', b', 8), c', 8), d', 8);
  }

  /** One byte of an msr. */
  lemma ByteSelected(x: nat, y: nat, on: bool)
    requires x < 256 && y < 256
    ensures Bits.Bitwise(Bits.AndNot, x, MaskByte(on)) == (if on then 0 else x)
    ensures Bits.Bitwise(Bits.And, y, MaskByte(on)) == (if on then y else 0)
    ensures Bits.Bitwise(Bits.Or, if on then 0 else x, if on then y else 0) == if on then y else x
  {
    hide Bits.Bitwise, Bits.Pow2;
    Bits.Powers();
    Bits.Gates(x, 8);
    Bits.Gates(y, 8);
  }

  /** Merging fields is what an msr does to the word: clear the bits of the mask, then put those of the value. */
  lemma MergeMasks(p: Psr, v: Psr, m: Mask)
    requires InRange(p) && InRange(v)
    ensures WordOf(Merge(p, v, m)) ==
      Bits.Bitwise(Bits.Or, Bits.Bitwise(Bits.AndNot, WordOf(p), MaskWord(m)), Bits.Bitwise(Bits.And, WordOf(v), MaskWord(m)))
  {
    hide Bits.Bitwise, WordOf, MaskWord, FourBytes, MaskByte;
    var a, b, c, d := 16 * p.nzcv + p.q, p.status, p.extension, ControlByte(p);
    var a', b', c', d' := 16 * v.nzcv + v.q, v.status, v.extension, ControlByte(v);
    WordBytes(p, m);
    WordBytes(v, m);
    MergeInRange(p, v, m);
    WordBytes(Merge(p, v, m), m);
    MaskBytes(m);
    GateBytes(Bits.AndNot, a, b, c, d, MaskByte(m.flags), MaskByte(m.status), MaskByte(m.extension), MaskByte(m.control));
    GateBytes(Bits.And, a', b', c', d', MaskByte(m.flags), MaskByte(m.status), MaskByte(m.extension), MaskByte(m.control));
    ByteSelected(a, a', m.flags);
    ByteSelected(b, b', m.status);
    ByteSelected(c, c', m.extension);
    ByteSelected(d, d', m.control);
    GateBytes(Bits.Or, if m.flags then 0 else a, if m.status then 0 else b, if m.extension then 0 else c,
      if m.control then 0 else d, if m.flags then a' else 0, if m.status then b' else 0, if m.extension then c' else 0,
      if m.control then d' else 0);
  }

  lemma MaskBytes(m: Mask)
    ensures MaskByte(m.status) < 256 && MaskByte(m.extension) < 256 && MaskByte(m.control) < 256
  {
  }

  lemma MergeInRange(p: Psr, v: Psr, m: Mask)
    requires InRange(p) && InRange(v)
    ensures InRange(Merge(p, v, m)) && Merge(p, v, m).nzcv < 16
    ensures Merge(p, v, m).mode == if m.control then v.mode else p.mode
  {
  }

  lemma SyncInRange(p: Psr, flags: nat)
    requires InRange(p) && flags < 16
    ensures InRange(p.(nzcv := flags))
  {
  }

  lemma EnteredInRange(p: Psr, bits: nat, noFiq: bool)
    requires InRange(p) && bits < 32
    ensures InRange(p.(t := false, mode := bits, i := true, f := p.f || noFiq))
  {
  }

  lemma PlusZero(a: Word)
    ensures Plus(a, 0) == a
  {
  }

  lemma SixteenRegisters(f: File)
    requires FileOk(f)
    ensures |f.r| == 16
  {
  }

  lemma WritesLrLater(ops: seq<Op>)
    requires ops != []
    ensures forall m :: WritesLr(ops[1..], m) ==> WritesLr(ops, m)
    ensures ops[0].Enter? && ExceptionMode(ops[0].nr).Some? ==>
      WritesLr(ops, ExceptionMode(ops[0].nr).value)
  {
    forall m | WritesLr(ops[1..], m) ensures WritesLr(ops, m) {
      var i :| 0 <= i < |ops[1..]| && ops[1..][i].Enter? && ExceptionMode(ops[1..][i].nr) == Some(m);
      assert ops[i + 1] == ops[1..][i];
    }
  }
}
