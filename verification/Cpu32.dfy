/**
 The code cache on the directly indexed tables of 32-bit mode: every operation does to the arrays what
 it does to their flat form, so what is proved of the flat form holds of 32-bit mode as it is.
 */
module Cpu32 {
  import opened Wrappers
  import opened FlatTlb
  import Tlb32
  import CodeCache

  /** An address of 32 bits. */
  predicate Narrow(a: Addr) { a < 0x1_0000_0000 }

  lemma PageNarrow(a: Addr)
    requires Narrow(a)
    ensures Tlb32.PageAddr(CodeCache.PageOf(a))
  {
  }

  class Cpu {
    const cache: CodeCache.Cpu
    const tables: Tlb32.TranslationTables

    /** The arrays have the flat form that the cache works on. */
    ghost predicate InStep()
      reads this, cache, tables
    {
      tables.Valid() && cache.width.Bits32? && cache.tlb == tables.Flat()
    }

    ghost predicate Valid()
      reads this, cache, tables
    {
      cache.Valid() && InStep()
    }

    constructor (arm: bool, cacheSize: nat, size: nat, n: nat)
      requires 0 < size && CodeCache.Round64(size) <= CodeCache.MARGIN && CodeCache.START < cacheSize && n > 0
      ensures Valid() && fresh(cache) && fresh(tables) && tables.Flat() == Initial(n)
      ensures CodeCache.Protected(tables.Flat(), cache.pages, cache.live)
    {
      cache := new CodeCache.Cpu(Bits32, arm, cacheSize, size, n);
      tables := new Tlb32.TranslationTables(n);
    }

    /** pc_to_pointers_generic. The arrays serve every page, so the code-page pointer is always stored. */
    method PcToPointersGeneric(pc: Addr, v2p: Addr -> Option<Addr>, handler: Addr, hostOf: Addr -> Ptr, tick: nat)
      returns (ok: bool)
      requires Valid() && Narrow(pc) && Narrow(handler) && forall a :: v2p(a).Some? ==> Narrow(v2p(a).value)
      modifies cache, tables
      ensures Valid()
      ensures
        var s, h := Lookup(old(tables.Flat()), CodeCache.PageOf(pc)), Lookup(old(tables.Flat()), CodeCache.PageOf(handler));
        if s.hostLoad != NULL || v2p(pc).Some? then
          && ok && cache.nextIc == pc % 0x1000 / 4
          && cache.Holds(cache.curPage, if s.hostLoad != NULL then s.physAddr else CodeCache.PageOf(v2p(pc).value))
        else
          && (ok <==> h.hostLoad != NULL || v2p(handler).Some?)
          && (ok ==>
                && cache.nextIc == handler % 0x1000 / 4
                && cache.Holds(cache.curPage, if h.hostLoad != NULL then h.physAddr else CodeCache.PageOf(v2p(handler).value))
                && (CodeCache.PageOf(pc) != CodeCache.PageOf(handler) ==> CodeCache.PageOf(pc) !in tables.slots))
      ensures ok <==> old(CodeCache.Translation(tables.Flat(), pc, v2p, handler)).Some?
      ensures ok ==>
        var (at, p) := old(CodeCache.Translation(tables.Flat(), pc, v2p, handler)).value;
        var v := CodeCache.PageOf(at);
        && cache.Holds(cache.curPage, p) && cache.nextIc == at % CodeCache.PAGE_SIZE / 4
        && CodeCache.NoDangling(tables.Flat(), cache.pages, cache.live)
        && (cache.pages[cache.curPage].bitmap == 0 ==> CodeCache.ReadOnly(tables.Flat(), p))
        && (hostOf(p) != NULL ==> v in tables.slots)
        && (v in tables.slots ==> tables.slots[v].physAddr == p && tables.slots[v].physPage == cache.curPage)
      ensures old(CodeCache.Protected(tables.Flat(), cache.pages, cache.live)) ==>
        CodeCache.Protected(tables.Flat(), cache.pages, cache.live)
    {
      hide CodeCache.CacheOk, CodeCache.TlbOk, CodeCache.Protected, CodeCache.ReadOnly, CodeCache.PageOf, Linked,
        Tlb32.Mirrors;
      CodeCache.MappedSlots(cache.tlb, cache.pages, cache.live);
      var at, p, s;
      ok, at, p, s := Locate(pc, v2p, handler);
      if ok { Enter(pc, v2p, handler, hostOf, tick, at, p, s); }
      CodeCache.InOrder(cache.tlb, cache.pages, cache.live);
    }

    /** The address translation: from the arrays, from the MMU, or the same for the exception handler. */
    method Locate(pc: Addr, v2p: Addr -> Option<Addr>, handler: Addr) returns (ok: bool, at: Addr, p: Addr, s: Slot)
      requires Valid() && Narrow(pc) && Narrow(handler) && forall a :: v2p(a).Some? ==> Narrow(v2p(a).value)
      ensures ok <==> CodeCache.Translation(tables.Flat(), pc, v2p, handler).Some?
      ensures ok ==>
        && CodeCache.Translation(tables.Flat(), pc, v2p, handler).value == (at, p)
        && Narrow(at) && s == Lookup(tables.Flat(), CodeCache.PageOf(at)) && (s.hostLoad == NULL ==> Tlb32.PageAddr(p))
    {
      hide CodeCache.CacheOk, CodeCache.TlbOk, Linked, Tlb32.Mirrors, CodeCache.PageOf, Narrow;
      p, at := 0, pc;
      PageNarrow(at);
      s := tables.LookupSlot(CodeCache.PageOf(at));
      ok := true;
      if s.hostLoad != NULL {
        p := s.physAddr;
      } else if v2p(at).Some? {
        p := v2p(at).value;
      } else {
        at := handler;
        PageNarrow(at);
        s := tables.LookupSlot(CodeCache.PageOf(at));
        if s.hostLoad != NULL {
          p := s.physAddr;
        } else if v2p(at).Some? {
          p := v2p(at).value;
        } else {
          ok := false;
        }
      }
      CodeCache.WholePage(cache.tlb, CodeCache.PageOf(at), p, cache.pages, cache.live);
      if Narrow(p) { PageNarrow(p); }
      p := CodeCache.PageOf(p);
    }

    /** The rest, on the cache and on the arrays. */
    method Enter(pc: Addr, v2p: Addr -> Option<Addr>, handler: Addr, hostOf: Addr -> Ptr, tick: nat,
                 at: Addr, p: Addr, s: Slot)
      requires Valid() && CodeCache.Translation(tables.Flat(), pc, v2p, handler) == Some((at, p))
      requires Narrow(at) && s == Lookup(tables.Flat(), CodeCache.PageOf(at)) && (s.hostLoad == NULL ==> Tlb32.PageAddr(p))
      modifies cache, tables
      ensures Valid()
      ensures
        var v := CodeCache.PageOf(at);
        && cache.Holds(cache.curPage, p) && cache.nextIc == at % CodeCache.PAGE_SIZE / 4
        && (cache.pages[cache.curPage].bitmap == 0 ==> CodeCache.ReadOnly(cache.tlb, p))
        && (hostOf(p) != NULL ==> v in cache.tlb.slots)
        && (forall u :: u in cache.tlb.slots && u != v ==> u in old(cache.tlb).slots)
        && (v in cache.tlb.slots ==> cache.tlb.slots[v].physAddr == p && cache.tlb.slots[v].physPage == cache.curPage)
      ensures old(CodeCache.Protected(cache.tlb, cache.pages, cache.live)) ==>
        CodeCache.Protected(cache.tlb, cache.pages, cache.live)
    {
      hide CodeCache.CacheOk, CodeCache.TlbOk, CodeCache.Protected, CodeCache.ReadOnly, CodeCache.Translation, Linked,
        Update, Invalidate, ClearPhysPages, SetPhysPage, Tlb32.Mirrors, CodeCache.PageOf;
      var v := CodeCache.PageOf(at);
      PageNarrow(at);
      CodeCache.WholePage(cache.tlb, v, p, cache.pages, cache.live);
      if s.hostLoad == NULL {
        var host := hostOf(p);
        if host != NULL { tables.Update(v, host, Access(false, false, false), p, tick); }
      }
      if cache.cur >= cache.cacheSize { tables.ClearPhysPages(All); }
      var ok := cache.PcToPointersGeneric(pc, v2p, handler, hostOf, true, tick);
      tables.SetPhysPage(v, cache.curPage);
      if cache.pages[cache.curPage].bitmap == 0 { tables.Invalidate(Phys(p), true); }
    }

    /** pc_to_pointers. */
    method PcToPointers(pc: Addr, v2p: Addr -> Option<Addr>, handler: Addr, hostOf: Addr -> Ptr, tick: nat)
      returns (ok: bool)
      requires Valid() && Narrow(pc) && Narrow(handler) && forall a :: v2p(a).Some? ==> Narrow(v2p(a).value)
      modifies cache, tables
      ensures Valid()
      ensures
        var s, h := Lookup(old(tables.Flat()), CodeCache.PageOf(pc)), Lookup(old(tables.Flat()), CodeCache.PageOf(handler));
        if s.hostLoad != NULL || v2p(pc).Some? then
          && ok && cache.nextIc == pc % 0x1000 / 4
          && cache.Holds(cache.curPage, if s.hostLoad != NULL then s.physAddr else CodeCache.PageOf(v2p(pc).value))
        else
          && (ok <==> h.hostLoad != NULL || v2p(handler).Some?)
          && (ok ==>
                && cache.nextIc == handler % 0x1000 / 4
                && cache.Holds(cache.curPage, if h.hostLoad != NULL then h.physAddr else CodeCache.PageOf(v2p(handler).value))
                && (CodeCache.PageOf(pc) != CodeCache.PageOf(handler) ==> CodeCache.PageOf(pc) !in tables.slots))
      ensures old(CodeCache.Protected(tables.Flat(), cache.pages, cache.live)) ==>
        CodeCache.Protected(tables.Flat(), cache.pages, cache.live)
    {
      hide CodeCache.CacheOk, CodeCache.Protected, Coherent, Linked, Tlb32.Mirrors;
      PageNarrow(pc);
      CodeCache.MappedSlots(cache.tlb, cache.pages, cache.live);
      var s := tables.LookupSlot(CodeCache.PageOf(pc));
      if s.physPage != NULL {
        cache.curPage := s.physPage;
        cache.nextIc := pc % CodeCache.PAGE_SIZE / 4;
        ok := true;
      } else {
        ok := PcToPointersGeneric(pc, v2p, handler, hostOf, tick);
      }
    }

    /**
     The RAM path of memory_rw. Arrays and cache stay in step whatever the access; they stay in order
     exactly when the page keeps its physical page, and its host page if it is written to.
     */
    method MemoryRw(v: Addr, host: Ptr, p: Addr, writing: bool, mayWrite: bool, kind: CodeCache.CacheKind, user: bool,
                    tick: nat)
      requires Valid() && Tlb32.PageAddr(v) && Tlb32.PageAddr(p) && host != NULL
      modifies cache, tables
      ensures InStep() && cache.Ready()
      ensures
        var a := Access(CodeCache.Grants(writing, mayWrite, kind), false, user);
        Valid() <==> KeepsCoherence(old(tables.Flat()), v, host, a, p)
      ensures v in tables.slots && tables.slots[v].physAddr == p
      ensures (if kind.Instruction? then !writing else !mayWrite) ==>
        forall q :: CodeCache.ReadOnly(old(tables.Flat()), q) ==> CodeCache.ReadOnly(tables.Flat(), q)
      ensures (if kind.Instruction? then writing else mayWrite) ==> tables.slots[v].hostStore == host
      ensures writing || (mayWrite && kind.Data?) ==> forall o :: cache.Holds(o, p) ==>
        cache.pages[o].bitmap == 0 && cache.pages[o].ics == seq(1024, _ => false)
      ensures !writing && !(mayWrite && kind.Data?) ==> cache.pages == old(cache.pages)
      ensures old(CodeCache.Protected(tables.Flat(), cache.pages, cache.live)) ==>
        (CodeCache.Protected(tables.Flat(), cache.pages, cache.live) <==>
          (!CodeCache.Grants(writing, mayWrite, kind) || CodeCache.TakesBack(writing, mayWrite, kind) ||
           forall o :: old(cache.Holds(o, p)) ==> old(cache.pages[o]).bitmap == 0))
    {
      hide CodeCache.CacheOk, CodeCache.TlbOk, CodeCache.Protected, CodeCache.ReadOnly, Linked, Update, ClearPhysPages,
        KeepsCoherence, Tlb32.Mirrors;
      var o := cache.Find(p);
      assert o != 0 <==> exists q :: cache.Holds(q, p);
      cache.MemoryRw(v, host, p, writing, mayWrite, kind, user, tick);
      tables.Update(v, host, Access(CodeCache.Grants(writing, mayWrite, kind), false, user), p, tick);
      if CodeCache.TakesBack(writing, mayWrite, kind) && o != 0 { tables.ClearPhysPages(Phys(p)); }
    }

    /** invalidate_code_translation. */
    method InvalidateCode(target: Target)
      requires Valid() && !target.Masked? && (target.Phys? ==> target.page % CodeCache.PAGE_SIZE == 0)
      modifies cache, tables
      ensures Valid()
      ensures target.Phys? ==> forall o :: cache.Holds(o, target.page) ==> cache.pages[o].bitmap == 0
      ensures old(CodeCache.Protected(tables.Flat(), cache.pages, cache.live)) ==>
        CodeCache.Protected(tables.Flat(), cache.pages, cache.live)
    {
      hide CodeCache.CacheOk, CodeCache.TlbOk, CodeCache.Protected, CodeCache.ReadOnly, Linked, ClearPhysPages, Tlb32.Mirrors;
      var o := 1;
      if target.Phys? {
        o := cache.Find(target.page);
        assert o != 0 <==> exists q :: cache.Holds(q, target.page);
      }
      cache.InvalidateCode(target);
      if o != 0 { tables.ClearPhysPages(target); }
    }

    /** invalidate_translation_caches; the targets with a mask exist in 64-bit mode only. */
    method InvalidateTranslations(target: Target, mark: bool)
      requires Valid() && !target.Masked? && (target.Page? ==> Tlb32.PageAddr(target.page))
      modifies cache, tables
      ensures Valid() && tables.Flat() == Invalidate(old(tables.Flat()), target, mark)
      ensures old(CodeCache.Protected(tables.Flat(), cache.pages, cache.live)) ==>
        CodeCache.Protected(tables.Flat(), cache.pages, cache.live)
    {
      hide CodeCache.CacheOk, CodeCache.TlbOk, CodeCache.Protected, Linked, Invalidate, Tlb32.Mirrors;
      cache.InvalidateTranslations(target, mark);
      tables.Invalidate(target, mark);
    }

    /** The tail of to_be_translated. */
    method Translate(offset: nat)
      requires Valid() && cache.curPage in cache.live && offset < CodeCache.PAGE_SIZE && offset % 4 == 0
      modifies cache
      ensures Valid() && tables.Flat() == old(tables.Flat())
      ensures cache.curPage in cache.pages && cache.pages[cache.curPage].bitmap != 0
      ensures old(CodeCache.Protected(tables.Flat(), cache.pages, cache.live)) ==>
        (CodeCache.Protected(tables.Flat(), cache.pages, cache.live) <==>
          CodeCache.ReadOnly(tables.Flat(), cache.pages[cache.curPage].physaddr))
    {
      hide CodeCache.CacheOk, CodeCache.TlbOk, CodeCache.Protected, CodeCache.ReadOnly;
      cache.Translate(offset);
    }
  }
}
