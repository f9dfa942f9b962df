/**
 The 32-bit translation tables: arrays indexed directly by virtual page number.  Every method
 computes exactly the flat operation of the same name.  This is the ARM variant, which also
 remembers for each page whether user-mode accesses may use the fast path.
 */
module Tlb32 {
  import opened FlatTlb

  const N_PAGES := 0x10_0000
  const PAGE_SIZE := 0x1000

  predicate PageAddr(v: Addr) {
    v < 0x1_0000_0000 && v % PAGE_SIZE == 0
  }

  /** The arrays hold what the flat table holds; an unused element is entirely clear. */
  ghost predicate Mirrors(table: seq<Slot>, slots: map<Addr, Slot>) {
    && |table| == N_PAGES
    && (forall i :: 0 <= i < N_PAGES ==>
          table[i] == if i * PAGE_SIZE in slots then slots[i * PAGE_SIZE] else EMPTY_SLOT)
    && (forall v :: v in slots ==> PageAddr(v) && slots[v].tlbIndex != 0)
  }

  lemma MirrorsPut(table: seq<Slot>, slots: map<Addr, Slot>, slots': map<Addr, Slot>, v: Addr, s: Slot)
    requires Mirrors(table, slots) && PageAddr(v)
    requires if s == EMPTY_SLOT then slots' == slots - {v} else s.tlbIndex != 0 && slots' == slots[v := s]
    ensures v / PAGE_SIZE < |table| && Mirrors(table[v / PAGE_SIZE := s], slots')
  {
  }

  lemma Found(table: seq<Slot>, slots: map<Addr, Slot>, v: Addr)
    requires Mirrors(table, slots) && PageAddr(v)
    ensures |table| == N_PAGES && v / PAGE_SIZE < N_PAGES
    ensures table[v / PAGE_SIZE] == if v in slots then slots[v] else EMPTY_SLOT
    ensures v in slots <==> table[v / PAGE_SIZE].tlbIndex != 0
  {
    assert v / PAGE_SIZE * PAGE_SIZE == v;
  }

  lemma PageKeys(table: seq<Slot>, slots: map<Addr, Slot>)
    requires Mirrors(table, slots)
    ensures forall v :: v in slots ==> PageAddr(v)
  {
  }

  predicate OpFits(op: Op) {
    match op
    case DoUpdate(v, _, _, p, _) => PageAddr(v) && PageAddr(p)
    case DoInvalidate(target, _) => !target.Masked? && (target.Page? ==> PageAddr(target.page))
    case DoSetPhysPage(v, _) => PageAddr(v)
    case DoClearPhysPages(_) => true
  }

  class TranslationTables {
    var entries: seq<Entry>
    var table: seq<Slot>
    ghost var slots: map<Addr, Slot>

    ghost function Flat(): Tlb
      reads this
    {
      Tlb(entries, slots)
    }

    ghost predicate Valid()
      reads this
    {
      |entries| > 0 && Mirrors(table, slots) && Linked(Flat())
    }

    constructor (n: nat)
      requires n > 0
      ensures Valid() && Flat() == Initial(n)
    {
      entries := seq(n, _ => EMPTY_ENTRY);
      table := seq(N_PAGES, _ => EMPTY_SLOT);
      slots := map[];
    }

    method LookupSlot(v: Addr) returns (s: Slot)
      requires Valid() && PageAddr(v)
      ensures s == Lookup(Flat(), v)
    {
      hide Mirrors, Linked;
      Found(table, slots, v);
      s := table[v / PAGE_SIZE];
    }

    /** invalidate_tlb_entry. */
    method InvalidateEntry(v: Addr, mark: bool)
      requires Valid() && PageAddr(v)
      modifies this
      ensures Valid() && Flat() == FlatTlb.InvalidateEntry(old(Flat()), v, mark)
    {
      hide Mirrors, Linked;
      Found(table, slots, v);
      UseLink(Flat(), v);
      InvalidateEntryLinked(Flat(), v, mark);
      var i := v / PAGE_SIZE;
      var s := table[i].(userPage := false);
      if mark {
        s := s.(hostStore := NULL);
      } else {
        var found := s.tlbIndex;
        s := s.(hostLoad := NULL, hostStore := NULL, physAddr := 0, physPage := NULL);
        if found > 0 {
          entries := entries[found - 1 := entries[found - 1].(valid := false)];
        }
        s := s.(tlbIndex := 0);
      }
      assert v !in slots ==> s == EMPTY_SLOT && slots - {v} == slots;
      ghost var slots' := FlatTlb.InvalidateEntry(old(Flat()), v, mark).slots;
      MirrorsPut(table, slots, slots', v, s);
      table, slots := table[i := s], slots';
    }

    /** update_translation_table. */
    method Update(v: Addr, host: Ptr, a: Access, p: Addr, tick: nat)
      requires Valid() && PageAddr(v) && PageAddr(p)
      modifies this
      ensures Valid() && Flat() == FlatTlb.Update(Bits32, old(Flat()), v, host, a, p, tick)
    {
      hide Mirrors, Linked;
      Found(table, slots, v);
      UpdateLinked(Bits32, Flat(), v, host, a, p, tick);
      UseLink(Flat(), v);
      var i := v / PAGE_SIZE;
      if table[i].tlbIndex == 0 {
        var r := tick % |entries|;
        EvictLinked(Flat(), r);
        UseEntryLink(Flat(), r);
        PageKeys(table, slots);
        if entries[r].valid {
          InvalidateEntry(entries[r].vaddr, false);
        }
        Found(table, slots, v);
        entries := entries[r := Entry(true, a.write, v, p, host)];
        var s := table[i].(hostLoad := host, hostStore := if a.write || a.downgrade then host else NULL,
                           physAddr := p, physPage := NULL, tlbIndex := r + 1);
        if a.user {
          s := s.(userPage := true);
        }
        MirrorsPut(table, slots, slots[v := s], v, s);
        table, slots := table[i := s], slots[v := s];
      } else {
        var r := table[i].tlbIndex - 1;
        entries := entries[r := UpdatedEntry(entries[r], a)];
        var s := UpdatedSlot(Bits32, table[i], host, a, p);
        MirrorsPut(table, slots, slots[v := s], v, s);
        table, slots := table[i := s], slots[v := s];
      }
    }

    /** invalidate_translation_caches. One virtual page is invalidated directly, without a scan. */
    method Invalidate(target: Target, mark: bool)
      requires Valid() && !target.Masked? && (target.Page? ==> PageAddr(target.page))
      modifies this
      ensures Valid() && Flat() == FlatTlb.Invalidate(old(Flat()), target, mark)
    {
      hide Mirrors, Linked, Hits, SlotHit, FlatTlb.InvalidateEntry, InvalidateFirst;
      if target.Page? {
        PageIsEntry(Flat(), target.page, mark);
        InvalidateEntry(target.page, mark);
        return;
      }
      ghost var f := Flat();
      var only := mark && !target.All?;
      InvalidateFirstNone(f, target, only);
      var r := 0;
      while r < |entries|
        invariant 0 <= r <= |entries| == |f.entries| && Valid()
        invariant Flat() == InvalidateFirst(f, target, only, r)
      {
        ScanAt(f, target, only, r);
        PageKeys(table, slots);
        if Hits(target, entries[r]) {
          ScanHit(f, target, only, r);
          InvalidateFirstLinked(f, target, only, r + 1);
          HitsValid(target, entries[r]);
          var e := entries[r];
          InvalidateEntry(e.vaddr, only);
          if target.Phys? {
            entries := entries[r := if only then entries[r].(writable := false) else entries[r].(valid := false)];
          }
          UntouchedEntry(InvalidateFirst(f, target, only, r), e.vaddr, only, r, target);
        } else {
          ScanMiss(f, target, only, r);
        }
        r := r + 1;
      }
    }

    /** The store of a code-page pointer at the end of pc_to_pointers_generic. */
    method SetPhysPage(v: Addr, page: Ptr)
      requires Valid() && PageAddr(v)
      modifies `table, `slots
      ensures Valid() && Flat() == FlatTlb.SetPhysPage(old(Flat()), v, page)
    {
      hide Mirrors, Linked;
      Found(table, slots, v);
      SetPhysPageLinked(Flat(), v, page);
      var i := v / PAGE_SIZE;
      if table[i].hostLoad != NULL {
        var s := table[i].(physPage := page);
        MirrorsPut(table, slots, slots[v := s], v, s);
        table, slots := table[i := s], slots[v := s];
      }
    }

    /** The second half of invalidate_code_translation. */
    method ClearPhysPages(target: Target)
      requires Valid()
      modifies `table, `slots
      ensures Valid() && Flat() == FlatTlb.ClearPhysPages(old(Flat()), target)
    {
      hide Mirrors, Linked, Hits, SlotHit, ClearFirst;
      ghost var f := Flat();
      ClearFirstNone(f, target);
      var r := 0;
      while r < |entries|
        invariant 0 <= r <= |entries| == |f.entries| && Valid()
        invariant Flat() == ClearFirst(f, target, r)
      {
        ClearFirstStep(f, target, r);
        ClearFirstLinked(f, target, r + 1);
        PageKeys(table, slots);
        ClearFirstEntries(f, target, r);
        if Hits(target, entries[r]) {
          var v := entries[r].vaddr;
          Found(table, slots, v);
          var i := v / PAGE_SIZE;
          var s := table[i].(physPage := NULL);
          MirrorsPut(table, slots, slots[v := s], v, s);
          table, slots := table[i := s], slots[v := s];
        }
        r := r + 1;
      }
    }

    /** Any sequence of operations, each applied to the tables that the ones before it left. */
    method Perform(ops: seq<Op>)
      requires Valid() && forall i :: 0 <= i < |ops| ==> OpFits(ops[i])
      modifies this
      ensures Valid() && Flat() == Run(Bits32, old(Flat()), ops)
      decreases |ops|
    {
      hide Mirrors, Linked, FlatTlb.Update, FlatTlb.Invalidate, FlatTlb.SetPhysPage, FlatTlb.ClearPhysPages;
      if ops != [] {
        ghost var f := Flat();
        match ops[0] {
          case DoUpdate(v, host, a, p, tick) => Update(v, host, a, p, tick);
          case DoInvalidate(target, mark) => Invalidate(target, mark);
          case DoSetPhysPage(v, code) => SetPhysPage(v, code);
          case DoClearPhysPages(target) => ClearPhysPages(target);
        }
        Perform(ops[1..]);
        RunStep(Bits32, f, ops);
      }
    }
  }
}
