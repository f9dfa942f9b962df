/**
 Whole runs of a CPU with its code cache: when no page that holds translations can be written through
 the fast path, at any moment of the run.
 */
module CodeRuns {
  import opened Wrappers
  import opened FlatTlb
  import opened CodeCache

  /** What a guest makes the CPU do. `Enter` is the generic lookup of the next page, `Resume` the quick one. */
  datatype CpuOp =
    | Enter(pc: Addr, v2p: Addr -> Option<Addr>, handler: Addr, hostOf: Addr -> Ptr, held: bool, tick: nat)
    | Resume(pc: Addr, v2p: Addr -> Option<Addr>, handler: Addr, hostOf: Addr -> Ptr, held: bool, tick: nat)
    | TranslateAt(offset: nat)
    | AccessRam(v: Addr, host: Ptr, p: Addr, writing: bool, mayWrite: bool, kind: CacheKind, user: bool, tick: nat)
    | DropCode(target: Target)
    | DropTranslations(target: Target, mark: bool)

  predicate Fits(op: CpuOp) {
    match op
    case TranslateAt(offset) => offset < PAGE_SIZE && offset % 4 == 0
    case AccessRam(_, host, p, _, _, _, _, _) => host != NULL && p % PAGE_SIZE == 0
    case DropCode(target) => !target.Masked? && (target.Phys? ==> target.page % PAGE_SIZE == 0)
    case _ => true
  }

  /** What the run leaves behind after an operation. */
  datatype Moment = Moment(tlb: Tlb, pages: map<nat, CodePage>, live: set<nat>, curPage: nat)

  ghost function Now(cpu: Cpu): Moment
    reads cpu
  {
    Moment(cpu.tlb, cpu.pages, cpu.live, cpu.curPage)
  }

  /** The current page, if there is one yet, is in use. */
  ghost predicate Current(m: Moment) {
    m.curPage != 0 ==> m.curPage in m.live && m.curPage in m.pages
  }

  ghost predicate Guarded(m: Moment) {
    Protected(m.tlb, m.pages, m.live)
  }

  /** The operation can be carried out, and leaves the tables in order. */
  predicate Goes(t: Tlb, curPage: nat, op: CpuOp) {
    match op
    case TranslateAt(_) => curPage != 0
    case AccessRam(v, host, p, writing, mayWrite, kind, user, _) =>
      KeepsCoherence(t, v, host, Access(Grants(writing, mayWrite, kind), false, user), p)
    case _ => true
  }

  /** Whether the operation may make physical page `q` writable. */
  predicate GrantsTo(op: CpuOp, q: Addr) {
    op.AccessRam? && op.p == q && Grants(op.writing, op.mayWrite, op.kind)
  }

  /** The operation exposes no translation: what it translates is on a read-only page, what it makes
   writable holds none that it leaves. */
  ghost predicate Safe(m: Moment, op: CpuOp) {
    match op
    case TranslateAt(_) => m.curPage in m.pages && ReadOnly(m.tlb, m.pages[m.curPage].physaddr)
    case AccessRam(_, _, p, writing, mayWrite, kind, _, _) =>
      !Grants(writing, mayWrite, kind) || TakesBack(writing, mayWrite, kind) ||
      forall o :: o in m.live && o in m.pages && m.pages[o].physaddr == p ==> m.pages[o].bitmap == 0
    case _ => true
  }

  /** The physical page of the code being run. */
  ghost predicate RunsOn(m: Moment, q: Addr) {
    m.curPage in m.live && m.curPage in m.pages && m.pages[m.curPage].physaddr == q
  }

  /** How one moment leads to the next. */
  ghost predicate Follows(m: Moment, op: CpuOp, m': Moment) {
    && (Guarded(m) ==> (Guarded(m') <==> Safe(m, op)))
    && (forall q :: ReadOnly(m.tlb, q) && !GrantsTo(op, q) ==> ReadOnly(m'.tlb, q))
    && (op.AccessRam? && GrantsTo(op, op.p) ==> !ReadOnly(m'.tlb, op.p))
    && (op.Enter? ==>
          match Translation(m.tlb, op.pc, op.v2p, op.handler)
          case None => m' == m
          case Some((_, p)) => RunsOn(m', p) && (m'.pages[m'.curPage].bitmap == 0 ==> ReadOnly(m'.tlb, p)))
    && (op.Resume? ==>
          match Translation(m.tlb, op.pc, op.v2p, op.handler)
          case None => m' == m
          case Some((_, p)) => RunsOn(m', p))
    && (!op.Enter? && !op.Resume? ==> forall q :: RunsOn(m, q) ==> RunsOn(m', q))
  }

  /** One operation. */
  method Do(cpu: Cpu, op: CpuOp)
    requires cpu.Valid() && Current(Now(cpu)) && Fits(op) && Goes(cpu.tlb, cpu.curPage, op)
    modifies cpu
    ensures cpu.Valid() && Current(Now(cpu))
    ensures Follows(old(Now(cpu)), op, Now(cpu))
  {
    hide CacheOk, TlbOk, Protected, ReadOnly, Translation, KeepsCoherence, Update, Invalidate, ClearPhysPages,
      EnteredTlb, MappedTlb, Round64;
    LiveInPages(cpu.Contents(), cpu.live, cpu.size, cpu.cacheSize);
    match op {
      case Enter(pc, v2p, handler, hostOf, held, tick) =>
        var _ := cpu.PcToPointersGeneric(pc, v2p, handler, hostOf, held, tick);
      case Resume(pc, v2p, handler, hostOf, held, tick) =>
        var _ := cpu.PcToPointers(pc, v2p, handler, hostOf, held, tick);
      case TranslateAt(offset) =>
        cpu.Translate(offset);
      case AccessRam(v, host, p, writing, mayWrite, kind, user, tick) =>
        cpu.MemoryRw(v, host, p, writing, mayWrite, kind, user, tick);
        if Grants(writing, mayWrite, kind) { WritableAt(cpu.tlb, v, p); }
      case DropCode(target) =>
        cpu.InvalidateCode(target);
      case DropTranslations(target, mark) =>
        cpu.InvalidateTranslations(target, mark);
    }
  }

  /** The moments of a run: the first, and one after each operation. */
  ghost predicate Trace(ms: seq<Moment>, ops: seq<CpuOp>) {
    && |ms| == |ops| + 1
    && (forall j :: 0 <= j < |ops| ==> Follows(ms[j], ops[j], ms[j + 1]))
  }

  /** Any run, up to the first operation that cannot go on. */
  method Perform(cpu: Cpu, ops: seq<CpuOp>) returns (done: nat, ghost ms: seq<Moment>)
    requires cpu.Valid() && Current(Now(cpu)) && forall j :: 0 <= j < |ops| ==> Fits(ops[j])
    modifies cpu
    ensures cpu.Valid() && Current(Now(cpu))
    ensures done <= |ops| && Trace(ms, ops[..done]) && ms[0] == old(Now(cpu)) && ms[done] == Now(cpu)
    ensures forall j :: 0 <= j < done ==> Goes(ms[j].tlb, ms[j].curPage, ops[j])
    ensures done < |ops| ==> !Goes(ms[done].tlb, ms[done].curPage, ops[done])
    ensures (forall j :: 0 <= j <= done ==> Guarded(ms[j])) <==>
      old(Guarded(Now(cpu))) && forall j :: 0 <= j < done ==> Safe(ms[j], ops[j])
  {
    hide CacheOk, TlbOk, Follows, Guarded, Safe, Goes, KeepsCoherence, Round64;
    done, ms := 0, [Now(cpu)];
    while done < |ops| && Goes(cpu.tlb, cpu.curPage, ops[done])
      invariant cpu.Valid() && Current(Now(cpu))
      invariant 0 <= done <= |ops| && |ms| == done + 1 && ms[0] == old(Now(cpu)) && ms[done] == Now(cpu)
      invariant forall j :: 0 <= j < done ==> Follows(ms[j], ops[j], ms[j + 1])
      invariant forall j :: 0 <= j < done ==> Goes(ms[j].tlb, ms[j].curPage, ops[j])
    {
      Do(cpu, ops[done]);
      ms := ms + [Now(cpu)];
      done := done + 1;
    }
    assert Trace(ms, ops[..done]);
    GuardedIff(ms, ops[..done]);
  }

  /** A run is guarded throughout exactly when it starts guarded and every operation is safe in its time. */
  lemma GuardedIff(ms: seq<Moment>, ops: seq<CpuOp>)
    requires Trace(ms, ops)
    ensures (forall j :: 0 <= j <= |ops| ==> Guarded(ms[j])) <==>
      Guarded(ms[0]) && forall j :: 0 <= j < |ops| ==> Safe(ms[j], ops[j])
  {
    hide Guarded, Safe, ReadOnly;
    if forall j :: 0 <= j <= |ops| ==> Guarded(ms[j]) {
      forall j | 0 <= j < |ops| ensures Safe(ms[j], ops[j]) {
        assert Guarded(ms[j]) && Guarded(ms[j + 1]) && Follows(ms[j], ops[j], ms[j + 1]);
      }
    } else if Guarded(ms[0]) && forall j :: 0 <= j < |ops| ==> Safe(ms[j], ops[j]) {
      forall j | 0 <= j <= |ops| ensures Guarded(ms[j]) { GuardedUpTo(ms, ops, j); }
    }
  }

  lemma {:induction false} GuardedUpTo(ms: seq<Moment>, ops: seq<CpuOp>, n: nat)
    requires Trace(ms, ops) && n <= |ops| && Guarded(ms[0]) && forall j :: 0 <= j < |ops| ==> Safe(ms[j], ops[j])
    ensures Guarded(ms[n])
  {
    hide Guarded, Safe, ReadOnly;
    if n > 0 {
      GuardedUpTo(ms, ops, n - 1);
      assert Follows(ms[n - 1], ops[n - 1], ms[n]);
    }
  }

  /** A page stays read-only until an access grants write permission to it. */
  lemma {:induction false} WritableMeansGranted(ms: seq<Moment>, ops: seq<CpuOp>, i: nat, n: nat, q: Addr)
    requires Trace(ms, ops) && i <= n <= |ops| && ReadOnly(ms[i].tlb, q)
    ensures ReadOnly(ms[n].tlb, q) || exists k :: i <= k < n && GrantsTo(ops[k], q)
    decreases n
  {
    hide ReadOnly, GrantsTo;
    if i < n {
      WritableMeansGranted(ms, ops, i, n - 1, q);
      assert Follows(ms[n - 1], ops[n - 1], ms[n]);
    }
  }

  /** Operation `i` entered physical page `q`, whose code is being run at moment `n`. */
  ghost predicate EnteredAt(ms: seq<Moment>, ops: seq<CpuOp>, i: nat, n: nat, q: Addr)
    requires Trace(ms, ops) && n <= |ops|
  {
    && i < n && ops[i].Enter? && Translation(ms[i].tlb, ops[i].pc, ops[i].v2p, ops[i].handler).Some?
    && RunsOn(ms[i + 1], q) && RunsOn(ms[n], q)
  }

  /**
   How a translation can expose its page in a run that was guarded until then: since the page was entered,
   an access has made it writable.
   */
  lemma ExposedMeansGranted(ms: seq<Moment>, ops: seq<CpuOp>, i: nat, n: nat, q: Addr)
    requires Trace(ms, ops) && n < |ops| && ops[n].TranslateAt? && EnteredAt(ms, ops, i, n, q)
    requires Guarded(ms[i + 1])
    ensures Safe(ms[n], ops[n]) || exists k :: i < k < n && GrantsTo(ops[k], q)
  {
    hide ReadOnly, Translation;
    assert Follows(ms[i], ops[i], ms[i + 1]);
    assert ReadOnly(ms[i + 1].tlb, q);
    WritableMeansGranted(ms, ops, i + 1, n, q);
  }

  /** The page being run at moment `n` has been entered, and not made writable since. */
  ghost predicate KeptReadOnly(ms: seq<Moment>, ops: seq<CpuOp>, n: nat)
    requires Trace(ms, ops) && n <= |ops|
  {
    exists i: nat, q :: i < n && EnteredAt(ms, ops, i, n, q) && forall k :: i < k < n ==> !GrantsTo(ops[k], q)
  }

  /**
   Write protection over a whole run: it holds at every moment if it holds at first, every translation is
   on a page that was entered and has not been made writable since, and no access makes a page writable
   without taking back the translations on it.
   */
  lemma {:induction false} WriteProtection(ms: seq<Moment>, ops: seq<CpuOp>, n: nat)
    requires Trace(ms, ops) && n <= |ops| && Guarded(ms[0])
    requires forall j :: 0 <= j < |ops| && ops[j].TranslateAt? ==> KeptReadOnly(ms, ops, j)
    requires forall j :: 0 <= j < |ops| && ops[j].AccessRam? ==> Safe(ms[j], ops[j])
    ensures forall j :: 0 <= j <= n ==> Guarded(ms[j])
  {
    hide Guarded, ReadOnly, EnteredAt, GrantsTo, Follows;
    if n > 0 {
      WriteProtection(ms, ops, n - 1);
      var op := ops[n - 1];
      assert Safe(ms[n - 1], op) by {
        if op.TranslateAt? {
          assert KeptReadOnly(ms, ops, n - 1);
          var i: nat, q :| i < n - 1 && EnteredAt(ms, ops, i, n - 1, q) && forall k :: i < k < n - 1 ==> !GrantsTo(ops[k], q);
          ExposedMeansGranted(ms, ops, i, n - 1, q);
        }
      }
      SafeFollows(ms[n - 1], op, ms[n]);
    }
  }

  lemma SafeFollows(m: Moment, op: CpuOp, m': Moment)
    requires Follows(m, op, m') && Guarded(m)
    ensures Guarded(m') <==> Safe(m, op)
  {
  }
}
