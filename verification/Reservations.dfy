/**
 Load-linked and store-conditional on a machine with any number of processors: ldrex/strex of the ARM,
 which remember an address and give way to a store that agrees with it in the low eleven bits, and
 ldx_l/stx_c of the Alpha, which keep one flag per processor and clear them all on a store.
 */
module Reservations {

  datatype Scheme = Arm | Alpha

  /**
   One processor's reservation.  `last` and `at` are history: the value that the last linked load read
   and the physical address that it read from.
   */
  datatype Core = Core(running: bool, held: bool, addr: nat, len: nat, last: nat, at: nat)

  /** Memory holds one value per aligned physical address. */
  datatype State = State(cores: seq<Core>, mem: nat -> nat)

  /** Address translation of each processor, and the accesses that end in an exception. */
  datatype Env = Env(phys: (nat, nat) -> nat, faults: (nat, nat) -> bool)

  datatype Op =
    | Linked(cpu: nat, addr: nat)
    | Conditional(cpu: nat, addr: nat, value: nat)
    | Plain(cpu: nat, addr: nat, value: nat)

  const PAGE := 4096
  const LINE := 2048

  /** Translation keeps the offset in the page. */
  ghost predicate Paged(e: Env) { forall c: nat, a: nat :: e.phys(c, a) % PAGE == a % PAGE }

  function Written(m: nat -> nat, w: nat, v: nat): nat -> nat {
    (a: nat) => if a == w then v else m(a)
  }

  /** Whether a successful store at `addr` takes the reservation of a processor away. */
  predicate GivesWay(scheme: Scheme, core: Core, addr: nat) {
    scheme == Alpha || (core.held && core.addr % LINE == addr % LINE)
  }

  function Release(scheme: Scheme, core: Core, addr: nat): Core {
    if GivesWay(scheme, core, addr) then core.(held := false) else core
  }

  function ReleaseFirst(scheme: Scheme, cores: seq<Core>, addr: nat, n: nat): seq<Core>
    requires n <= |cores|
  {
    seq(|cores|, i requires 0 <= i < |cores| => if i < n then Release(scheme, cores[i], addr) else cores[i])
  }

  predicate Granted(scheme: Scheme, core: Core, addr: nat) {
    match scheme
    case Arm => core.held && core.addr == addr && core.len == 4
    case Alpha => core.held
  }

  predicate Misaligned(scheme: Scheme, addr: nat) { scheme == Arm && addr % 4 != 0 }

  function LinkedStep(scheme: Scheme, e: Env, s: State, c: nat, a: nat): State
    requires c < |s.cores|
  {
    var core := s.cores[c];
    if Misaligned(scheme, a) then s.(cores := s.cores[c := core.(running := false)])
    else if scheme == Arm && e.faults(c, a) then s
    else
      var p := e.phys(c, a);
      var core' := core.(held := true, addr := if scheme == Arm then a else a - a % 64,
                         len := if scheme == Arm then 4 else core.len, last := s.mem(p), at := p);
      s.(cores := s.cores[c := core'])
  }

  predicate Succeeds(scheme: Scheme, e: Env, s: State, c: nat, a: nat)
    requires c < |s.cores|
  {
    s.cores[c].running && !Misaligned(scheme, a) && Granted(scheme, s.cores[c], a) && !(scheme == Arm && e.faults(c, a))
  }

  function ConditionalStep(scheme: Scheme, e: Env, s: State, c: nat, a: nat, v: nat): State
    requires c < |s.cores|
  {
    var core := s.cores[c];
    if Misaligned(scheme, a) then s.(cores := s.cores[c := core.(running := false)])
    else if !Granted(scheme, core, a) then s.(cores := s.cores[c := core.(held := false)])
    else if scheme == Arm && e.faults(c, a) then s
    else
      var cores := ReleaseFirst(scheme, s.cores, a, |s.cores|);
      State(cores[c := cores[c].(held := false)], Written(s.mem, e.phys(c, a), v))
  }

  /** A processor that has stopped does nothing more. */
  function Step(scheme: Scheme, e: Env, s: State, op: Op): (s': State)
    requires op.cpu < |s.cores|
    ensures |s'.cores| == |s.cores|
  {
    if !s.cores[op.cpu].running then s else
      match op
      case Linked(c, a) => LinkedStep(scheme, e, s, c, a)
      case Conditional(c, a, v) => ConditionalStep(scheme, e, s, c, a, v)
      case Plain(c, a, v) => s.(mem := Written(s.mem, e.phys(c, a), v))
  }

  predicate InMachine(ops: seq<Op>, n: nat) { forall i :: 0 <= i < |ops| ==> ops[i].cpu < n }

  function Run(scheme: Scheme, e: Env, s: State, ops: seq<Op>): (s': State)
    requires InMachine(ops, |s.cores|)
    ensures |s'.cores| == |s.cores|
    decreases |ops|
  {
    if ops == [] then s else
      assert ops[0].cpu < |s.cores|;
      Run(scheme, e, Step(scheme, e, s, ops[0]), ops[1..])
  }

  // ----- what every step keeps

  /** What an ARM processor remembers is where it read. */
  ghost predicate Remembers(scheme: Scheme, e: Env, s: State) {
    forall c :: 0 <= c < |s.cores| && s.cores[c].held && scheme == Arm ==>
      s.cores[c].at == e.phys(c, s.cores[c].addr) && s.cores[c].len == 4
  }

  /** Every reservation on word `w` still describes it. */
  ghost predicate Current(s: State, w: nat) {
    forall c :: 0 <= c < |s.cores| && s.cores[c].held && s.cores[c].at == w ==> s.mem(w) == s.cores[c].last
  }

  ghost predicate Nobody(s: State, w: nat) {
    forall c :: 0 <= c < |s.cores| ==> !(s.cores[c].held && s.cores[c].at == w)
  }

  /** The word is written by conditional stores only. */
  predicate Spares(e: Env, op: Op, w: nat) { op.Plain? ==> e.phys(op.cpu, op.addr) != w }

  lemma SameLine(x: nat, y: nat, p: nat, q: nat)
    requires p % PAGE == x % PAGE && q % PAGE == y % PAGE && p == q
    ensures x % LINE == y % LINE
  {
    LineInPage(x);
    LineInPage(y);
  }

  lemma LineInPage(x: nat)
    ensures x % LINE == x % PAGE % LINE
  {
    assert x == PAGE * (x / PAGE) + x % PAGE;
    assert x == LINE * (2 * (x / PAGE)) + x % PAGE;
  }

  /** A successful store takes every reservation on its word away, under any virtual address. */
  lemma SuccessReleases(scheme: Scheme, e: Env, s: State, c: nat, a: nat, v: nat)
    requires Paged(e) && Remembers(scheme, e, s) && c < |s.cores| && Succeeds(scheme, e, s, c, a)
    ensures Nobody(ConditionalStep(scheme, e, s, c, a, v), e.phys(c, a))
  {
    var s' := ConditionalStep(scheme, e, s, c, a, v);
    var w := e.phys(c, a);
    forall d | 0 <= d < |s'.cores| ensures !(s'.cores[d].held && s'.cores[d].at == w) {
      var core := s.cores[d];
      if scheme == Arm && core.held && core.at == w {
        SameLine(core.addr, a, e.phys(d, core.addr), w);
      }
    }
  }

  /**
   What a successful store does to another processor: on the ARM its reservation goes if the address
   agrees in the low eleven bits, and a store of its own that would have succeeded elsewhere still does;
   on the Alpha it goes in any case.
   */
  lemma SuccessSpares(scheme: Scheme, e: Env, s: State, c: nat, a: nat, v: nat, d: nat)
    requires c < |s.cores| && d < |s.cores| && d != c && Succeeds(scheme, e, s, c, a)
    ensures
      var s' := ConditionalStep(scheme, e, s, c, a, v);
      && |s'.cores| == |s.cores| && s'.cores[c] == s.cores[c].(held := false)
      && s'.cores[d] == (if scheme == Alpha || s.cores[d].addr % 2048 == a % 2048 then s.cores[d].(held := false) else s.cores[d])
      && (forall b :: scheme == Arm && s.cores[d].addr % 2048 != a % 2048 ==>
            (Succeeds(scheme, e, s', d, b) <==> Succeeds(scheme, e, s, d, b)))
      && (forall x :: s'.mem(x) == if x == e.phys(c, a) then v else s.mem(x))
  {
  }

  /** A store that does not succeed: what it says of its processor, and nothing else changes. */
  lemma FailureKeeps(scheme: Scheme, e: Env, s: State, c: nat, a: nat, v: nat)
    requires c < |s.cores| && s.cores[c].running && !Succeeds(scheme, e, s, c, a)
    ensures
      var core := s.cores[c];
      ConditionalStep(scheme, e, s, c, a, v) == s.(cores := s.cores[c :=
        if scheme == Arm && a % 4 != 0 then core.(running := false)
        else if scheme == Arm && core.held && core.addr == a && core.len == 4 then core
        else core.(held := false)])
  {
  }

  lemma StepRemembers(scheme: Scheme, e: Env, s: State, op: Op)
    requires Remembers(scheme, e, s) && op.cpu < |s.cores|
    ensures Remembers(scheme, e, Step(scheme, e, s, op))
  {
  }

  /** An ordinary store that leaves every reservation on word `w` describing it. */
  ghost predicate Harmless(e: Env, s: State, op: Op, w: nat)
    requires op.cpu < |s.cores|
  {
    op.Plain? && s.cores[op.cpu].running && e.phys(op.cpu, op.addr) == w ==>
      forall d :: 0 <= d < |s.cores| && s.cores[d].held && s.cores[d].at == w ==> s.cores[d].last == op.value
  }

  /** A step keeps the reservations on a word current exactly when it is harmless. */
  lemma StepCurrentIff(scheme: Scheme, e: Env, s: State, op: Op, w: nat)
    requires Paged(e) && Remembers(scheme, e, s) && Current(s, w) && op.cpu < |s.cores|
    ensures Current(Step(scheme, e, s, op), w) <==> Harmless(e, s, op, w)
  {
    if op.Conditional? && Succeeds(scheme, e, s, op.cpu, op.addr) {
      SuccessReleases(scheme, e, s, op.cpu, op.addr, op.value);
    }
  }

  lemma SparesHarmless(e: Env, s: State, op: Op, w: nat)
    requires op.cpu < |s.cores| && Spares(e, op, w)
    ensures Harmless(e, s, op, w)
  {
  }

  /** Every operation of the run is harmless when its turn comes. */
  ghost predicate HarmlessRun(scheme: Scheme, e: Env, s: State, ops: seq<Op>, w: nat)
    requires InMachine(ops, |s.cores|)
    decreases |ops|
  {
    ops != [] ==>
      && ops[0].cpu < |s.cores| && Harmless(e, s, ops[0], w)
      && HarmlessRun(scheme, e, Step(scheme, e, s, ops[0]), ops[1..], w)
  }

  /** The reservations on `w` are current before, during and after the run. */
  ghost predicate CurrentThroughout(scheme: Scheme, e: Env, s: State, ops: seq<Op>, w: nat)
    requires InMachine(ops, |s.cores|)
    decreases |ops|
  {
    && Current(s, w)
    && (ops != [] ==>
          && ops[0].cpu < |s.cores|
          && CurrentThroughout(scheme, e, Step(scheme, e, s, ops[0]), ops[1..], w))
  }

  /** In any interleaving, they are current throughout exactly when every operation is harmless. */
  lemma {:induction false} RunCurrentIff(scheme: Scheme, e: Env, s: State, ops: seq<Op>, w: nat)
    requires InMachine(ops, |s.cores|) && Paged(e) && Remembers(scheme, e, s) && Current(s, w)
    ensures CurrentThroughout(scheme, e, s, ops, w) <==> HarmlessRun(scheme, e, s, ops, w)
    decreases |ops|
  {
    hide Step, Current, Remembers, Paged, Harmless;
    if ops != [] {
      StepRemembers(scheme, e, s, ops[0]);
      StepCurrentIff(scheme, e, s, ops[0], w);
      var s1 := Step(scheme, e, s, ops[0]);
      if Current(s1, w) {
        RunCurrentIff(scheme, e, s1, ops[1..], w);
      } else {
        assert !CurrentThroughout(scheme, e, s1, ops[1..], w);
      }
    }
  }

  lemma {:induction false} RunCurrent(scheme: Scheme, e: Env, s: State, ops: seq<Op>, w: nat)
    requires InMachine(ops, |s.cores|) && Paged(e) && Remembers(scheme, e, s) && Current(s, w)
    requires HarmlessRun(scheme, e, s, ops, w)
    ensures Remembers(scheme, e, Run(scheme, e, s, ops)) && Current(Run(scheme, e, s, ops), w)
    decreases |ops|
  {
    hide Step, Current, Remembers, Paged, Harmless;
    if ops != [] {
      StepRemembers(scheme, e, s, ops[0]);
      StepCurrentIff(scheme, e, s, ops[0], w);
      RunCurrent(scheme, e, Step(scheme, e, s, ops[0]), ops[1..], w);
    }
  }

  /** A run that writes the word by conditional stores only is harmless. */
  lemma {:induction false} SparingRun(scheme: Scheme, e: Env, s: State, ops: seq<Op>, w: nat)
    requires InMachine(ops, |s.cores|) && forall i :: 0 <= i < |ops| ==> Spares(e, ops[i], w)
    ensures HarmlessRun(scheme, e, s, ops, w)
    decreases |ops|
  {
    hide Step, Harmless, Spares;
    if ops != [] {
      SparesHarmless(e, s, ops[0], w);
      SparingRun(scheme, e, Step(scheme, e, s, ops[0]), ops[1..], w);
    }
  }

  // ----- what the pair of instructions is for

  /**
   Whenever a conditional store succeeds, in any interleaving of harmless operations, the word that the
   processor's linked load read still holds what it read.
   */
  lemma SuccessSeesLast(scheme: Scheme, e: Env, s0: State, ops: seq<Op>, c: nat, a: nat)
    requires InMachine(ops, |s0.cores|) && c < |s0.cores| && Paged(e) && Remembers(scheme, e, s0)
    requires
      var w := Run(scheme, e, s0, ops).cores[c].at;
      Current(s0, w) && HarmlessRun(scheme, e, s0, ops, w)
    ensures
      var s := Run(scheme, e, s0, ops);
      Succeeds(scheme, e, s, c, a) ==>
        && s.mem(s.cores[c].at) == s.cores[c].last
        && (scheme == Arm ==> s.mem(e.phys(c, a)) == s.cores[c].last)
  {
    RunCurrent(scheme, e, s0, ops, Run(scheme, e, s0, ops).cores[c].at);
  }

  /**
   What that says of the word stored to: whatever else memory holds, it is the value that was read
   exactly when the store is to the word that was read. An ARM store always is; an Alpha store need
   not be, since addresses are not compared.
   */
  lemma GrantedSeesIff(scheme: Scheme, e: Env, s: State, c: nat, a: nat)
    requires Remembers(scheme, e, s) && c < |s.cores| && Succeeds(scheme, e, s, c, a)
    ensures
      var core := s.cores[c];
      (forall m: nat -> nat :: m(core.at) == core.last ==> m(e.phys(c, a)) == core.last) <==> e.phys(c, a) == core.at
    ensures scheme == Arm ==> e.phys(c, a) == s.cores[c].at
  {
    var core := s.cores[c];
    if e.phys(c, a) != core.at {
      var m: nat -> nat := (x: nat) => if x == core.at then core.last else core.last + 1;
      assert m(core.at) == core.last && m(e.phys(c, a)) != core.last;
    }
  }

  function Iterate(f: nat -> nat, n: nat, x: nat): nat { if n == 0 then x else Iterate(f, n - 1, f(x)) }

  predicate WritesWord(scheme: Scheme, e: Env, s: State, op: Op, w: nat)
    requires op.cpu < |s.cores|
  {
    op.Conditional? && e.phys(op.cpu, op.addr) == w && Succeeds(scheme, e, s, op.cpu, op.addr)
  }

  /** A conditional store that reaches `w` writes `f` of the value read, from the word that was read. */
  predicate Updates(scheme: Scheme, e: Env, s: State, op: Op, w: nat, f: nat -> nat)
    requires op.cpu < |s.cores|
  {
    WritesWord(scheme, e, s, op, w) ==>
      op.value == f(s.cores[op.cpu].last) && s.cores[op.cpu].at == w
  }

  predicate AllUpdate(scheme: Scheme, e: Env, s: State, ops: seq<Op>, w: nat, f: nat -> nat)
    requires InMachine(ops, |s.cores|)
    decreases |ops|
  {
    ops != [] ==>
      && ops[0].cpu < |s.cores|
      && Spares(e, ops[0], w) && Updates(scheme, e, s, ops[0], w, f)
      && AllUpdate(scheme, e, Step(scheme, e, s, ops[0]), ops[1..], w, f)
  }

  function Successes(scheme: Scheme, e: Env, s: State, ops: seq<Op>, w: nat): nat
    requires InMachine(ops, |s.cores|)
    decreases |ops|
  {
    if ops == [] then 0 else
      assert ops[0].cpu < |s.cores|;
      (if WritesWord(scheme, e, s, ops[0], w) then 1 else 0) +
      Successes(scheme, e, Step(scheme, e, s, ops[0]), ops[1..], w)
  }

  lemma StepUpdates(scheme: Scheme, e: Env, s: State, op: Op, w: nat, f: nat -> nat)
    requires Current(s, w) && op.cpu < |s.cores| && Spares(e, op, w) && Updates(scheme, e, s, op, w, f)
    ensures Step(scheme, e, s, op).mem(w) == if WritesWord(scheme, e, s, op, w) then f(s.mem(w)) else s.mem(w)
  {
  }

  /** No update is lost: the word ends as `f` applied once for every store that reported success. */
  lemma {:induction false} NoUpdateLost(scheme: Scheme, e: Env, s: State, ops: seq<Op>, w: nat, f: nat -> nat)
    requires InMachine(ops, |s.cores|) && Paged(e) && Remembers(scheme, e, s) && Current(s, w)
    requires AllUpdate(scheme, e, s, ops, w, f)
    ensures Run(scheme, e, s, ops).mem(w) == Iterate(f, Successes(scheme, e, s, ops, w), s.mem(w))
    decreases |ops|
  {
    hide Step, Current, Remembers, Paged, Updates, Spares, WritesWord, Harmless;
    if ops != [] {
      StepRemembers(scheme, e, s, ops[0]);
      SparesHarmless(e, s, ops[0], w);
      StepCurrentIff(scheme, e, s, ops[0], w);
      StepUpdates(scheme, e, s, ops[0], w, f);
      NoUpdateLost(scheme, e, Step(scheme, e, s, ops[0]), ops[1..], w, f);
    }
  }

  /** Until it reads the word again, no other processor can store after a success. */
  lemma OthersFail(scheme: Scheme, e: Env, s: State, c: nat, a: nat, v: nat, d: nat, b: nat)
    requires Paged(e) && Remembers(scheme, e, s) && c < |s.cores| && d < |s.cores| && Succeeds(scheme, e, s, c, a)
    requires e.phys(d, b) == e.phys(c, a)
    ensures !Succeeds(scheme, e, ConditionalStep(scheme, e, s, c, a, v), d, b)
  {
    var s' := ConditionalStep(scheme, e, s, c, a, v);
    SuccessReleases(scheme, e, s, c, a, v);
    var op := Conditional(c, a, v);
    StepRemembers(scheme, e, s, op);
    assert s' == Step(scheme, e, s, op);
    if scheme == Arm && s'.cores[d].held && s'.cores[d].addr == b {
      assert false;
    }
  }

  /** Alone, a linked load and a conditional store at the same address succeed. */
  lemma AloneSucceeds(scheme: Scheme, e: Env, s: State, c: nat, a: nat)
    requires c < |s.cores| && s.cores[c].running && !Misaligned(scheme, a) && !e.faults(c, a)
    ensures Succeeds(scheme, e, LinkedStep(scheme, e, s, c, a), c, a)
  {
  }

  /** An ordinary store by another processor takes no reservation away, and is overwritten. */
  lemma PlainStoreIsLost(scheme: Scheme)
    ensures
      var e := Env((c, a) => a, (c, a) => false);
      var idle := Core(true, false, 0, 0, 0, 0);
      var ops := [Linked(0, 64), Plain(1, 64, 7)];
      var s := Run(scheme, e, State([idle, idle], a => 0), ops);
      Succeeds(scheme, e, s, 0, 64) && s.cores[0].last == 0 && s.mem(64) == 7
  {
    var e := Env((c, a) => a, (c, a) => false);
    var idle := Core(true, false, 0, 0, 0, 0);
    var s0 := State([idle, idle], a => 0);
    var s1 := Step(scheme, e, s0, Linked(0, 64));
    var ops := [Linked(0, 64), Plain(1, 64, 7)];
    assert ops[1..] == [Plain(1, 64, 7)];
    assert Run(scheme, e, s0, ops) == Run(scheme, e, s1, [Plain(1, 64, 7)]);
    var s2 := Step(scheme, e, s1, Plain(1, 64, 7));
    assert [Plain(1, 64, 7)][1..] == [];
    assert Run(scheme, e, s1, [Plain(1, 64, 7)]) == s2;
    assert s1.cores[0].held && s1.cores[0].last == 0 && s2.cores == s1.cores;
  }

  /** The Alpha lets a conditional store through to a word that was never read. */
  lemma AlphaIgnoresAddress()
    ensures
      var e := Env((c, a) => a, (c, a) => false);
      var s0 := State([Core(true, false, 0, 0, 0, 0)], a => if a == 128 then 5 else 0);
      var s := LinkedStep(Alpha, e, s0, 0, 64);
      Succeeds(Alpha, e, s, 0, 128) && s.cores[0].last == 0 && s.mem(128) == 5
  {
  }

  // ----- the machine in place

  class Machine {
    const scheme: Scheme
    const env: Env
    var cores: seq<Core>
    var mem: nat -> nat

    ghost function Now(): State
      reads this
    {
      State(cores, mem)
    }

    constructor (scheme: Scheme, env: Env, n: nat, mem: nat -> nat)
      ensures this.scheme == scheme && this.env == env && |cores| == n && this.mem == mem
      ensures Remembers(scheme, env, Now()) && forall w: nat :: Nobody(Now(), w)
    {
      this.scheme, this.env, this.mem := scheme, env, mem;
      cores := seq(n, i => Core(true, false, 0, 0, 0, 0));
    }

    /** ldrex, or the linking part of ldx_l with its load. */
    method LoadLinked(c: nat, a: nat) returns (value: nat, ok: bool)
      requires c < |cores| && cores[c].running
      modifies `cores
      ensures Now() == old(LinkedStep(scheme, env, Now(), c, a))
      ensures ok <==> !Misaligned(scheme, a) && !(scheme == Arm && env.faults(c, a))
      ensures ok ==> value == mem(env.phys(c, a)) == cores[c].last && cores[c].held && cores[c].at == env.phys(c, a)
      ensures scheme == Arm && ok ==> cores[c].addr == a && cores[c].len == 4
      ensures scheme == Alpha ==> ok && cores[c].addr == a / 64 * 64
      ensures scheme == Arm && a % 4 != 0 ==> cores == old(cores)[c := old(cores)[c].(running := false)]
      ensures scheme == Arm && a % 4 == 0 && env.faults(c, a) ==> cores == old(cores)
      ensures |cores| == |old(cores)| && forall d :: 0 <= d < |cores| && d != c ==> cores[d] == old(cores)[d]
    {
      value, ok := 0, false;
      if scheme == Arm {
        if a % 4 != 0 {
          cores := cores[c := cores[c].(running := false)];
          return;
        }
        if env.faults(c, a) { return; }
        value := mem(env.phys(c, a));
        cores := cores[c := cores[c].(held := true, addr := a, len := 4, last := value, at := env.phys(c, a))];
      } else {
        cores := cores[c := cores[c].(held := true, addr := a - a % 64)];
        value := mem(env.phys(c, a));
        cores := cores[c := cores[c].(last := value, at := env.phys(c, a))];
      }
      ok := true;
    }

    /** strex or stx_c. `success` is what the status register says. */
    method StoreConditional(c: nat, a: nat, v: nat) returns (success: bool)
      requires c < |cores| && cores[c].running
      modifies this
      ensures Now() == old(ConditionalStep(scheme, env, Now(), c, a, v))
      ensures success <==> old(Succeeds(scheme, env, Now(), c, a))
      ensures success && scheme == Arm ==> forall d :: 0 <= d < |cores| && d != c ==>
        cores[d] == (if old(cores[d]).addr % 2048 == a % 2048 then old(cores[d]).(held := false) else old(cores[d]))
    {
      success := false;
      if scheme == Arm {
        if a % 4 != 0 {
          cores := cores[c := cores[c].(running := false)];
          return;
        }
        if !cores[c].held || cores[c].addr != a || cores[c].len != 4 {
          cores := cores[c := cores[c].(held := false)];
          return;
        }
        if env.faults(c, a) { return; }
        mem := Written(mem, env.phys(c, a), v);
      } else {
        if !cores[c].held {
          cores := cores[c := cores[c].(held := false)];
          return;
        }
      }
      ghost var before, memory := cores, mem;
      for i := 0 to |cores|
        invariant |cores| == |before| && mem == memory
        invariant cores == ReleaseFirst(scheme, before, a, i)
      {
        if scheme == Arm {
          if cores[i].held {
            var x, y := cores[i].addr % LINE, a % LINE;
            if x == y { cores := cores[i := cores[i].(held := false)]; }
          }
        } else {
          cores := cores[i := cores[i].(held := false)];
        }
      }
      if scheme == Alpha { mem := Written(mem, env.phys(c, a), v); }
      success := true;
      cores := cores[c := cores[c].(held := false)];
    }

    /** Any run on the machine is the run on values, so the theorems above hold of it. */
    method Perform(ops: seq<Op>, ghost w: nat)
      requires InMachine(ops, |cores|)
      modifies this
      ensures Now() == old(Run(scheme, env, Now(), ops))
      ensures
        old(Paged(env) && Remembers(scheme, env, Now()) && Current(Now(), w) && HarmlessRun(scheme, env, Now(), ops, w)) ==>
          Remembers(scheme, env, Now()) && Current(Now(), w)
    {
      hide Remembers, Current, HarmlessRun, LinkedStep, ConditionalStep, Paged;
      if Paged(env) && Remembers(scheme, env, Now()) && Current(Now(), w) && HarmlessRun(scheme, env, Now(), ops, w) {
        RunCurrent(scheme, env, Now(), ops, w);
      }
      ghost var start := Now();
      RunWhole(scheme, env, start, ops);
      for i := 0 to |ops|
        invariant |cores| == |start.cores|
        invariant Run(scheme, env, Now(), ops[i..]) == Run(scheme, env, start, ops)
      {
        assert ops[i..][0] == ops[i] && ops[i..][1..] == ops[i + 1..];
        var op := ops[i];
        if cores[op.cpu].running {
          match op
          case Linked(c, a) => var _, _ := LoadLinked(c, a);
          case Conditional(c, a, v) => var _ := StoreConditional(c, a, v);
          case Plain(c, a, v) => mem := Written(mem, env.phys(c, a), v);
        }
      }
      assert ops[|ops|..] == [];
    }
  }

  lemma RunWhole(scheme: Scheme, e: Env, s: State, ops: seq<Op>)
    requires InMachine(ops, |s.cores|)
    ensures ops[0..] == ops && Run(scheme, e, s, ops[0..]) == Run(scheme, e, s, ops)
  {
  }
}
