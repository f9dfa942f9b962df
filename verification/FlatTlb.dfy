/**
 The address-translation tables of a dyntrans CPU, seen as a flat association.

 GXemul keeps a linear array of translation entries (`vph_tlb_entry[]`) and mirrors it in a
 table that is fast to index by virtual page: a direct-mapped array on 32-bit guests, a three
 level table on 64-bit guests.  This module says what the two forms have in common.  `slots`
 holds exactly the slots in use, keyed by virtual page address; every operation is given by its
 net effect, without loops and without table nodes.  Modules `Tlb32` and `Tlb64` prove that the
 real tables compute exactly these functions.
 */
module FlatTlb {
  import Bits

  /** A host or translation-cache pointer; 0 is the null pointer. */
  type Ptr = nat
  const NULL: Ptr := 0

  /** A 64-bit address. */
  type Addr = x: nat | x < 0x1_0000_0000_0000_0000

  datatype Width = Bits32 | Bits64

  /** One element of the linear array. */
  datatype Entry = Entry(valid: bool, writable: bool, vaddr: Addr, paddr: Addr, host: Ptr)

  /** One element of the fast table. `tlbIndex` is the entry number plus one, 0 meaning a miss. */
  datatype Slot = Slot(hostLoad: Ptr, hostStore: Ptr, physAddr: Addr, physPage: Ptr, tlbIndex: nat, userPage: bool)

  const EMPTY_SLOT := Slot(NULL, NULL, 0, NULL, 0, false)
  const EMPTY_ENTRY := Entry(false, false, 0, 0, NULL)

  /** The bits of `writeflag`: MEM_WRITE, MEM_DOWNGRADE and MEMORY_USER_ACCESS. */
  datatype Access = Access(write: bool, downgrade: bool, user: bool)

  datatype Tlb = Tlb(entries: seq<Entry>, slots: map<Addr, Slot>)

  /** Which entries an invalidation concerns. */
  datatype Target =
    | Masked(page: Addr, mask: nat)
    | Page(page: Addr)
    | Phys(page: Addr)
    | All

  predicate Hits(target: Target, e: Entry) {
    e.valid &&
    match target
    case Masked(page, mask) => Bits.Bitwise(Bits.And, e.vaddr, mask) == Bits.Bitwise(Bits.And, page, mask)
    case Page(page) => e.vaddr == page
    case Phys(page) => e.paddr == page
    case All => true
  }

  /** What an index into the fast table yields. */
  function Lookup(t: Tlb, v: Addr): Slot {
    if v in t.slots then t.slots[v] else EMPTY_SLOT
  }

  // ----- the two invariants

  ghost predicate SlotLinked(t: Tlb, v: Addr)
    requires v in t.slots
  {
    var i := t.slots[v].tlbIndex;
    0 < i <= |t.entries| && t.entries[i - 1].valid && t.entries[i - 1].vaddr == v
  }

  ghost predicate EntryLinked(t: Tlb, i: nat)
    requires i < |t.entries|
  {
    t.entries[i].valid ==>
      t.entries[i].vaddr in t.slots && t.slots[t.entries[i].vaddr].tlbIndex == i + 1
  }

  /** The valid entries and the slots in use refer to each other one to one. */
  ghost predicate Linked(t: Tlb) {
    match t
    case Tlb(entries, slots) =>
      && (forall v :: v in slots ==> SlotLinked(t, v))
      && (forall i :: 0 <= i < |entries| ==> EntryLinked(t, i))
  }

  ghost predicate SlotCoherent(t: Tlb, v: Addr)
    requires v in t.slots && SlotLinked(t, v)
  {
    var s, e := t.slots[v], t.entries[t.slots[v].tlbIndex - 1];
    && s.hostLoad != NULL
    && s.hostLoad == e.host
    && s.physAddr == e.paddr
    && (s.hostStore != NULL ==> e.writable && s.hostStore == e.host)
  }

  /** Every slot in use maps the pages that its entry names, and is writable only if the entry is. */
  ghost predicate Coherent(t: Tlb)
    requires Linked(t)
  {
    forall v :: v in t.slots ==> SlotCoherent(t, v)
  }

  // ----- the operations

  /** invalidate_tlb_entry: drop, or just write-protect, the translation of one virtual page. */
  function InvalidateEntry(t: Tlb, v: Addr, mark: bool): Tlb
    requires Linked(t)
  {
    if v !in t.slots then t
    else if mark then t.(slots := t.slots[v := t.slots[v].(hostStore := NULL, userPage := false)])
    else
      assert SlotLinked(t, v);
      var i := t.slots[v].tlbIndex - 1;
      Tlb(t.entries[i := t.entries[i].(valid := false)], t.slots - {v})
  }

  function HitEntry(target: Target, mark: bool, e: Entry): Entry {
    if !Hits(target, e) then e
    else if !mark then e.(valid := false)
    else if target.Phys? then e.(writable := false)
    else e
  }

  /** Whether slot `v` belongs to one of the first `n` entries and that entry is hit. */
  predicate SlotHit(t: Tlb, target: Target, n: nat, v: Addr)
    requires Linked(t) && v in t.slots
  {
    assert SlotLinked(t, v);
    t.slots[v].tlbIndex <= n && Hits(target, t.entries[t.slots[v].tlbIndex - 1])
  }

  /** The effect of an invalidation on the first `n` entries and their slots. */
  function InvalidateFirst(t: Tlb, target: Target, mark: bool, n: nat): Tlb
    requires Linked(t) && n <= |t.entries|
  {
    Tlb(seq(|t.entries|, i requires 0 <= i < |t.entries| =>
              if i < n then HitEntry(target, mark, t.entries[i]) else t.entries[i]),
        if mark then
          map v | v in t.slots ::
            if SlotHit(t, target, n, v) then t.slots[v].(hostStore := NULL, userPage := false) else t.slots[v]
        else
          map v | v in t.slots && !SlotHit(t, target, n, v) :: t.slots[v])
  }

  /** invalidate_translation_caches, by its net effect. An invalidation of everything never just marks. */
  function Invalidate(t: Tlb, target: Target, mark: bool): Tlb
    requires Linked(t)
  {
    InvalidateFirst(t, target, mark && !target.All?, |t.entries|)
  }

  /** The slot and entry that a hit in update_translation_table leaves behind. */
  function UpdatedSlot(w: Width, s: Slot, host: Ptr, a: Access, p: Addr): Slot {
    var s := if w.Bits32? then s.(physPage := NULL, userPage := a.user) else s;
    if s.physAddr == p then
      s.(hostStore := if a.downgrade then NULL else if a.write then host else s.hostStore)
    else
      s.(hostLoad := host, hostStore := if a.write || a.downgrade then host else NULL, physAddr := p)
  }

  function UpdatedEntry(e: Entry, a: Access): Entry {
    e.(writable := if a.downgrade then false else a.write || e.writable)
  }

  function FreshSlot(w: Width, host: Ptr, a: Access, p: Addr, r: nat): Slot {
    Slot(host, if a.write || a.downgrade then host else NULL, p, NULL, r + 1, w.Bits32? && a.user)
  }

  /** The table after the entry that is about to be overwritten has been evicted. */
  function Evict(t: Tlb, r: nat): Tlb
    requires Linked(t) && r < |t.entries|
  {
    if t.entries[r].valid then InvalidateEntry(t, t.entries[r].vaddr, false) else t
  }

  /** Entry `r` and the slot of `v` overwritten by a new translation. */
  function Install(w: Width, t: Tlb, v: Addr, host: Ptr, a: Access, p: Addr, r: nat): Tlb
    requires r < |t.entries|
  {
    Tlb(t.entries[r := Entry(true, a.write, v, p, host)], t.slots[v := FreshSlot(w, host, a, p, r)])
  }

  /** update_translation_table. `tick` is the counter that picks the victim on a miss. */
  function Update(w: Width, t: Tlb, v: Addr, host: Ptr, a: Access, p: Addr, tick: nat): Tlb
    requires Linked(t) && |t.entries| > 0
  {
    if v in t.slots then
      assert SlotLinked(t, v);
      var r := t.slots[v].tlbIndex - 1;
      Tlb(t.entries[r := UpdatedEntry(t.entries[r], a)],
          t.slots[v := UpdatedSlot(w, t.slots[v], host, a, p)])
    else
      var r := tick % |t.entries|;
      Install(w, Evict(t, r), v, host, a, p, r)
  }

  /** The guarded store of a code-page pointer at the end of pc_to_pointers_generic. */
  function SetPhysPage(t: Tlb, v: Addr, page: Ptr): Tlb {
    if v in t.slots && t.slots[v].hostLoad != NULL
    then t.(slots := t.slots[v := t.slots[v].(physPage := page)]) else t
  }

  /** Forget the code-page pointers of the first `n` entries, where they are hit. */
  function ClearFirst(t: Tlb, target: Target, n: nat): Tlb
    requires Linked(t) && n <= |t.entries|
  {
    t.(slots := map v | v in t.slots ::
      if SlotHit(t, target, n, v) then t.slots[v].(physPage := NULL) else t.slots[v])
  }

  /** The second half of invalidate_code_translation, by its net effect. */
  function ClearPhysPages(t: Tlb, target: Target): Tlb
    requires Linked(t)
  {
    ClearFirst(t, target, |t.entries|)
  }

  // ----- runs

  datatype Op =
    | DoUpdate(v: Addr, host: Ptr, access: Access, p: Addr, tick: nat)
    | DoInvalidate(target: Target, mark: bool)
    | DoSetPhysPage(page: Addr, code: Ptr)
    | DoClearPhysPages(codeTarget: Target)

  function Step(w: Width, t: Tlb, op: Op): (t': Tlb)
    requires Linked(t) && |t.entries| > 0
    ensures |t'.entries| == |t.entries|
  {
    match op
    case DoUpdate(v, host, a, p, tick) => Update(w, t, v, host, a, p, tick)
    case DoInvalidate(target, mark) => Invalidate(t, target, mark)
    case DoSetPhysPage(v, code) => SetPhysPage(t, v, code)
    case DoClearPhysPages(target) => ClearPhysPages(t, target)
  }

  function Initial(n: nat): Tlb {
    Tlb(seq(n, _ => EMPTY_ENTRY), map[])
  }

  // ----- every operation keeps the links

  lemma UseLink(t: Tlb, v: Addr)
    requires Linked(t)
    ensures v in t.slots ==> SlotLinked(t, v)
  {
  }

  lemma UseEntryLink(t: Tlb, r: nat)
    requires Linked(t) && r < |t.entries|
    ensures EntryLinked(t, r)
  {
  }

  lemma InvalidateEntryLinked(t: Tlb, v: Addr, mark: bool)
    requires Linked(t)
    ensures Linked(InvalidateEntry(t, v, mark))
  {
    var t' := InvalidateEntry(t, v, mark);
    if v in t.slots { assert SlotLinked(t, v); }
    forall x | x in t'.slots ensures SlotLinked(t', x) {
      assert SlotLinked(t, x);
    }
    forall i | 0 <= i < |t'.entries| ensures EntryLinked(t', i) {
      assert EntryLinked(t, i);
    }
  }

  lemma EvictLinked(t: Tlb, r: nat)
    requires Linked(t) && r < |t.entries|
    ensures Linked(Evict(t, r)) && !Evict(t, r).entries[r].valid
    ensures forall v :: v in Evict(t, r).slots ==> v in t.slots && Evict(t, r).slots[v] == t.slots[v]
  {
    var u := Evict(t, r);
    if t.entries[r].valid {
      assert EntryLinked(t, r);
      InvalidateEntryLinked(t, t.entries[r].vaddr, false);
    }
  }

  lemma RefreshLinked(w: Width, t: Tlb, v: Addr, host: Ptr, a: Access, p: Addr)
    requires Linked(t) && |t.entries| > 0 && v in t.slots
    ensures Linked(Update(w, t, v, host, a, p, 0))
  {
    var t' := Update(w, t, v, host, a, p, 0);
    assert SlotLinked(t, v);
    forall x | x in t'.slots ensures SlotLinked(t', x) {
      assert SlotLinked(t, x);
    }
    forall i | 0 <= i < |t'.entries| ensures EntryLinked(t', i) {
      assert EntryLinked(t, i);
    }
  }

  lemma InstallLinked(w: Width, t: Tlb, v: Addr, host: Ptr, a: Access, p: Addr, r: nat)
    requires Linked(t) && r < |t.entries| && !t.entries[r].valid && v !in t.slots
    ensures Linked(Install(w, t, v, host, a, p, r))
  {
    var t' := Install(w, t, v, host, a, p, r);
    forall x | x in t'.slots ensures SlotLinked(t', x) {
      if x != v { assert SlotLinked(t, x); }
    }
    forall i | 0 <= i < |t'.entries| ensures EntryLinked(t', i) {
      assert EntryLinked(t, i);
    }
  }

  lemma UpdateLinked(w: Width, t: Tlb, v: Addr, host: Ptr, a: Access, p: Addr, tick: nat)
    requires Linked(t) && |t.entries| > 0
    ensures Linked(Update(w, t, v, host, a, p, tick))
  {
    if v in t.slots {
      RefreshLinked(w, t, v, host, a, p);
    } else {
      var r := tick % |t.entries|;
      EvictLinked(t, r);
      InstallLinked(w, Evict(t, r), v, host, a, p, r);
    }
  }

  lemma InvalidateFirstLinked(t: Tlb, target: Target, mark: bool, n: nat)
    requires Linked(t) && n <= |t.entries|
    ensures Linked(InvalidateFirst(t, target, mark, n))
  {
    var t' := InvalidateFirst(t, target, mark, n);
    forall v | v in t'.slots ensures SlotLinked(t', v) {
      assert SlotLinked(t, v);
    }
    forall i | 0 <= i < |t'.entries| ensures EntryLinked(t', i) {
      assert EntryLinked(t, i);
    }
  }

  lemma ClearFirstLinked(t: Tlb, target: Target, n: nat)
    requires Linked(t) && n <= |t.entries|
    ensures Linked(ClearFirst(t, target, n))
  {
    var t' := ClearFirst(t, target, n);
    forall v | v in t'.slots ensures SlotLinked(t', v) {
      assert SlotLinked(t, v);
    }
    forall i | 0 <= i < |t'.entries| ensures EntryLinked(t', i) {
      assert EntryLinked(t, i);
    }
  }

  lemma SetPhysPageLinked(t: Tlb, v: Addr, page: Ptr)
    requires Linked(t)
    ensures Linked(SetPhysPage(t, v, page))
  {
    var t' := SetPhysPage(t, v, page);
    forall x | x in t'.slots ensures SlotLinked(t', x) {
      assert SlotLinked(t, x);
    }
    forall i | 0 <= i < |t'.entries| ensures EntryLinked(t', i) {
      assert EntryLinked(t, i);
    }
  }

  lemma StepLinked(w: Width, t: Tlb, op: Op)
    requires Linked(t) && |t.entries| > 0
    ensures Linked(Step(w, t, op))
  {
    match op
    case DoUpdate(v, host, a, p, tick) => UpdateLinked(w, t, v, host, a, p, tick);
    case DoInvalidate(target, mark) => InvalidateFirstLinked(t, target, mark && !target.All?, |t.entries|);
    case DoClearPhysPages(target) => ClearFirstLinked(t, target, |t.entries|);
    case DoSetPhysPage(v, code) => SetPhysPageLinked(t, v, code);
  }

  ghost function Run(w: Width, t: Tlb, ops: seq<Op>): (t': Tlb)
    requires Linked(t) && |t.entries| > 0
    ensures Linked(t') && |t'.entries| == |t.entries|
    decreases |ops|
  {
    if ops == [] then t
    else
      StepLinked(w, t, ops[0]);
      Run(w, Step(w, t, ops[0]), ops[1..])
  }

  lemma RunStep(w: Width, t: Tlb, ops: seq<Op>)
    requires Linked(t) && |t.entries| > 0 && ops != []
    ensures Linked(Step(w, t, ops[0])) && Run(w, t, ops) == Run(w, Step(w, t, ops[0]), ops[1..])
  {
    StepLinked(w, t, ops[0]);
  }

  // ----- which operations keep coherence

  /**
   update_translation_table keeps the fast table coherent exactly when this holds: a page that is
   already mapped is not given another physical page, nor another host page to write to, and a new
   mapping has a host page and does not ask for a downgrade alone.
   */
  predicate KeepsCoherence(t: Tlb, v: Addr, host: Ptr, a: Access, p: Addr) {
    if v in t.slots then
      t.slots[v].physAddr == p && (a.write && !a.downgrade ==> host == NULL || host == t.slots[v].hostLoad)
    else host != NULL && (a.downgrade ==> a.write)
  }

  lemma UpdateCoherentIff(w: Width, t: Tlb, v: Addr, host: Ptr, a: Access, p: Addr, tick: nat)
    requires Linked(t) && Coherent(t) && |t.entries| > 0
    ensures Linked(Update(w, t, v, host, a, p, tick))
    ensures Coherent(Update(w, t, v, host, a, p, tick)) <==> KeepsCoherence(t, v, host, a, p)
  {
    UpdateLinked(w, t, v, host, a, p, tick);
    var t' := Update(w, t, v, host, a, p, tick);
    if v in t.slots {
      assert SlotLinked(t, v) && SlotCoherent(t, v);
    } else {
      EvictLinked(t, tick % |t.entries|);
    }
    if KeepsCoherence(t, v, host, a, p) {
      forall x | x in t'.slots ensures SlotCoherent(t', x) {
        assert SlotLinked(t', x);
        if x != v {
          assert SlotLinked(t, x) && SlotCoherent(t, x);
          if v !in t.slots { assert SlotLinked(Evict(t, tick % |t.entries|), x); }
        }
      }
    } else {
      assert !SlotCoherent(t', v);
    }
  }

  /**
   What an update is for: the page leads to the physical page, and to the host page unless it already
   did; it is writable as asked.  Of the other pages at most one is lost, the victim's, and the rest
   keep their slots.
   */
  lemma UpdateMaps(w: Width, t: Tlb, v: Addr, host: Ptr, a: Access, p: Addr, tick: nat)
    requires Linked(t) && |t.entries| > 0
    ensures
      var s, s' := Lookup(t, v), Lookup(Update(w, t, v, host, a, p, tick), v);
      var kept := v in t.slots && s.physAddr == p;
      && s'.tlbIndex != 0 && s'.physAddr == p
      && s'.hostLoad == (if kept then s.hostLoad else host)
      && (a.write && !a.downgrade ==> s'.hostStore == host)
      && (kept && a.downgrade ==> s'.hostStore == NULL)
      && (!a.write && !a.downgrade ==> s'.hostStore == if kept then s.hostStore else NULL)
      && (!kept && a.downgrade ==> s'.hostStore == host)
      && s'.userPage == (if w == Bits32 then a.user else v in t.slots && s.userPage)
      && s'.physPage == (if w == Bits32 || v !in t.slots then NULL else s.physPage)
    ensures
      var t' := Update(w, t, v, host, a, p, tick);
      var r := Lookup(t', v).tlbIndex - 1;
      && 0 <= r < |t.entries| == |t'.entries| && r == (if v in t.slots then Lookup(t, v).tlbIndex - 1 else tick % |t.entries|)
      && (forall i :: 0 <= i < |t.entries| && i != r ==> t'.entries[i] == t.entries[i])
      && (v !in t.slots ==> t'.entries[r] == Entry(true, a.write, v, p, host))
      && (v in t.slots ==> t'.entries[r] == t.entries[r].(writable := !a.downgrade && (a.write || t.entries[r].writable)))
    ensures
      var t' := Update(w, t, v, host, a, p, tick);
      && (forall u :: u in t'.slots && u != v ==> u in t.slots && t'.slots[u] == t.slots[u])
      && (forall u :: u in t.slots && u !in t'.slots ==>
            v !in t.slots && t.entries[tick % |t.entries|].valid && u == t.entries[tick % |t.entries|].vaddr)
  {
    if v in t.slots {
      assert SlotLinked(t, v);
    } else {
      var r := tick % |t.entries|;
      EvictLinked(t, r);
      assert EntryLinked(t, r);
    }
  }

  lemma InvalidateCoherent(t: Tlb, target: Target, mark: bool)
    requires Linked(t) && Coherent(t)
    ensures Linked(Invalidate(t, target, mark)) && Coherent(Invalidate(t, target, mark))
  {
    InvalidateFirstLinked(t, target, mark && !target.All?, |t.entries|);
    var t' := Invalidate(t, target, mark);
    forall v | v in t'.slots ensures SlotCoherent(t', v) {
      assert SlotLinked(t, v) && SlotCoherent(t, v);
    }
  }

  predicate WellBehaved(t: Tlb, op: Op) {
    op.DoUpdate? ==> KeepsCoherence(t, op.v, op.host, op.access, op.p)
  }

  lemma StepCoherent(w: Width, t: Tlb, op: Op)
    requires Linked(t) && Coherent(t) && |t.entries| > 0
    ensures Linked(Step(w, t, op))
    ensures Coherent(Step(w, t, op)) <==> WellBehaved(t, op)
  {
    StepLinked(w, t, op);
    match op
    case DoUpdate(v, host, a, p, tick) => UpdateCoherentIff(w, t, v, host, a, p, tick);
    case DoInvalidate(target, mark) => InvalidateCoherent(t, target, mark);
    case _ =>
      var t' := Step(w, t, op);
      forall v | v in t'.slots ensures SlotCoherent(t', v) {
        assert SlotLinked(t, v) && SlotCoherent(t, v) && SlotLinked(t', v);
      }
  }

  /** Every operation of the run meets `WellBehaved` in the state it is applied to. */
  ghost predicate WellBehavedRun(w: Width, t: Tlb, ops: seq<Op>)
    requires Linked(t) && |t.entries| > 0
    decreases |ops|
  {
    ops == [] ||
    (WellBehaved(t, ops[0]) &&
     (StepLinked(w, t, ops[0]);
      WellBehavedRun(w, Step(w, t, ops[0]), ops[1..])))
  }

  /** In every state reached by a well-behaved run, the fast table refines the linear array. */
  lemma {:induction false} RunCoherent(w: Width, t: Tlb, ops: seq<Op>)
    requires Linked(t) && Coherent(t) && |t.entries| > 0 && WellBehavedRun(w, t, ops)
    ensures Coherent(Run(w, t, ops))
    decreases |ops|
  {
    if ops != [] {
      StepCoherent(w, t, ops[0]);
      RunCoherent(w, Step(w, t, ops[0]), ops[1..]);
    }
  }

  /** The refinement statement itself, for one virtual page. */
  lemma LookupRefinesEntries(t: Tlb, v: Addr, r: nat)
    requires Linked(t) && Coherent(t) && r < |t.entries|
    ensures Lookup(t, v).tlbIndex == r + 1 <==> t.entries[r].valid && t.entries[r].vaddr == v
    ensures Lookup(t, v).tlbIndex == r + 1 ==>
      && Lookup(t, v).hostLoad == t.entries[r].host != NULL
      && Lookup(t, v).physAddr == t.entries[r].paddr
      && (Lookup(t, v).hostStore != NULL ==> t.entries[r].writable && Lookup(t, v).hostStore == t.entries[r].host)
  {
    assert EntryLinked(t, r);
    if v in t.slots { assert SlotLinked(t, v) && SlotCoherent(t, v); }
  }

  /** So does another host page for the same physical page: loads and stores then go to different places. */
  lemma TwoHostPages()
    ensures
      var t := Tlb([Entry(true, false, 0x1000, 0x5000, 7)],
                   map[0x1000 := Slot(7, NULL, 0x5000, NULL, 1, false)]);
      && Linked(t) && Coherent(t)
      && (var u := Update(Bits64, t, 0x1000, 9, Access(true, false, false), 0x5000, 0);
          Linked(u) && !Coherent(u) && Lookup(u, 0x1000).hostLoad == 7 && Lookup(u, 0x1000).hostStore == 9)
  {
    var t := Tlb([Entry(true, false, 0x1000, 0x5000, 7)],
                 map[0x1000 := Slot(7, NULL, 0x5000, NULL, 1, false)]);
    assert forall v :: v in t.slots ==> SlotLinked(t, v) && SlotCoherent(t, v);
    assert EntryLinked(t, 0);
    UpdateCoherentIff(Bits64, t, 0x1000, 9, Access(true, false, false), 0x5000, 0);
  }

  /** Remapping a live page breaks coherence: the linear array keeps the old physical page. */
  lemma RemapCounterexample()
    ensures
      var t := Tlb([Entry(true, false, 0x1000, 0x5000, 7)],
                   map[0x1000 := Slot(7, NULL, 0x5000, NULL, 1, false)]);
      && Linked(t) && Coherent(t)
      && (var u := Update(Bits64, t, 0x1000, 9, Access(false, false, false), 0x8000, 0);
          Linked(u) && !Coherent(u) && 0x1000 in Invalidate(u, Phys(0x8000), false).slots)
  {
    var t := Tlb([Entry(true, false, 0x1000, 0x5000, 7)],
                 map[0x1000 := Slot(7, NULL, 0x5000, NULL, 1, false)]);
    assert forall v :: v in t.slots ==> SlotLinked(t, v) && SlotCoherent(t, v);
    UpdateCoherentIff(Bits64, t, 0x1000, 9, Access(false, false, false), 0x8000, 0);
  }

  // ----- what an invalidation achieves

  /** No valid entry and no slot in use is hit. */
  ghost predicate NoneHit(t: Tlb, target: Target)
    requires Linked(t)
  {
    && (forall i :: 0 <= i < |t.entries| ==> !Hits(target, t.entries[i]))
    && (forall v :: v in t.slots ==> SlotLinked(t, v) && !Hits(target, t.entries[t.slots[v].tlbIndex - 1]))
  }

  /** After a full invalidation nothing matches, and everything that did not match is as it was. */
  lemma InvalidateRemoves(t: Tlb, target: Target)
    requires Linked(t)
    ensures
      var t' := InvalidateFirst(t, target, false, |t.entries|);
      && Linked(t') && NoneHit(t', target)
      && (forall v :: v in t.slots && SlotLinked(t, v) && !Hits(target, t.entries[t.slots[v].tlbIndex - 1]) ==>
            v in t'.slots && t'.slots[v] == t.slots[v])
      && (target.All? ==> t'.slots == map[])
  {
    InvalidateFirstLinked(t, target, false, |t.entries|);
    var t' := InvalidateFirst(t, target, false, |t.entries|);
    forall v | v in t'.slots
      ensures SlotLinked(t', v) && !Hits(target, t'.entries[t'.slots[v].tlbIndex - 1])
    {
      assert SlotLinked(t, v);
    }
    if target.All? {
      forall v | v in t.slots ensures SlotHit(t, target, |t.entries|, v) {
        assert SlotLinked(t, v);
      }
      assert t'.slots.Keys == {};
    }
  }

  lemma MaskCompares(mask: nat, v: Addr, page: Addr)
    ensures Bits.Bitwise(Bits.And, v, mask) != Bits.Bitwise(Bits.And, page, mask) <==>
      exists k :: 0 <= k < 64 && Bits.Bit(mask, k) && Bits.Bit(v, k) != Bits.Bit(page, k)
  {
    hide Bits.Bitwise, Bits.Bit;
    var x, y := Bits.Bitwise(Bits.And, v, mask), Bits.Bitwise(Bits.And, page, mask);
    Bits.Powers();
    Bits.AndBelowFirst(v, mask);
    Bits.AndBelowFirst(page, mask);
    if x != y {
      var k := Bits.DifferingBit(x, y, 64);
      Bits.BitwiseBit(Bits.And, v, mask, k);
      Bits.BitwiseBit(Bits.And, page, mask, k);
      assert Bits.Bit(mask, k) && Bits.Bit(v, k) != Bits.Bit(page, k);
    } else {
      forall k | 0 <= k < 64 && Bits.Bit(mask, k) ensures Bits.Bit(v, k) == Bits.Bit(page, k) {
        Bits.BitwiseBit(Bits.And, v, mask, k);
        Bits.BitwiseBit(Bits.And, page, mask, k);
      }
    }
  }

  /**
   What an invalidation by virtual address under a mask concerns: the pages that agree with the one given
   in every bit of the mask. They go, or are just made read-only; every other page keeps its slot.
   */
  lemma MaskedInvalidates(t: Tlb, page: Addr, mask: nat, v: Addr)
    requires Linked(t)
    ensures v in Invalidate(t, Masked(page, mask), false).slots <==>
      v in t.slots && exists k :: 0 <= k < 64 && Bits.Bit(mask, k) && Bits.Bit(v, k) != Bits.Bit(page, k)
    ensures v in Invalidate(t, Masked(page, mask), false).slots ==>
      Invalidate(t, Masked(page, mask), false).slots[v] == t.slots[v]
    ensures v in Invalidate(t, Masked(page, mask), true).slots <==> v in t.slots
    ensures v in t.slots ==>
      Invalidate(t, Masked(page, mask), true).slots[v] ==
        if exists k :: 0 <= k < 64 && Bits.Bit(mask, k) && Bits.Bit(v, k) != Bits.Bit(page, k) then t.slots[v]
        else t.slots[v].(hostStore := NULL, userPage := false)
  {
    hide Bits.Bitwise, Bits.Bit;
    MaskCompares(mask, v, page);
    if v in t.slots {
      assert SlotLinked(t, v);
      assert SlotHit(t, Masked(page, mask), |t.entries|, v) <==>
        Bits.Bitwise(Bits.And, v, mask) == Bits.Bitwise(Bits.And, page, mask);
    }
  }

  /** What the other invalidations concern, of translations and of code pointers. */
  lemma OthersInvalidate(t: Tlb, target: Target, v: Addr)
    requires Linked(t) && !target.Masked? && v in t.slots
    ensures SlotLinked(t, v)
    ensures
      var hit := target.All? || (target.Page? && v == target.page) ||
                 (target.Phys? && t.entries[t.slots[v].tlbIndex - 1].paddr == target.page);
      && (v in Invalidate(t, target, false).slots <==> !hit)
      && v in ClearPhysPages(t, target).slots
      && ClearPhysPages(t, target).slots[v] == if hit then t.slots[v].(physPage := NULL) else t.slots[v]
  {
    assert SlotLinked(t, v);
  }

  /** In a coherent table, no slot maps an invalidated physical page any more. */
  lemma InvalidatePhysRemoves(t: Tlb, p: Addr)
    requires Linked(t) && Coherent(t)
    ensures forall v :: v in Invalidate(t, Phys(p), false).slots ==>
              Invalidate(t, Phys(p), false).slots[v].physAddr != p
  {
    InvalidateRemoves(t, Phys(p));
    InvalidateCoherent(t, Phys(p), false);
    var t' := Invalidate(t, Phys(p), false);
    forall v | v in t'.slots ensures t'.slots[v].physAddr != p {
      assert SlotLinked(t', v) && SlotCoherent(t', v);
    }
  }

  /** In a coherent table, marking a physical page leaves no writable slot that maps it. */
  lemma MarkPhysProtects(t: Tlb, p: Addr)
    requires Linked(t) && Coherent(t)
    ensures
      var t' := Invalidate(t, Phys(p), true);
      && t'.slots.Keys == t.slots.Keys
      && (forall v :: v in t'.slots && t'.slots[v].physAddr == p ==>
            t'.slots[v] == t.slots[v].(hostStore := NULL, userPage := false))
      && (forall v :: v in t'.slots && t'.slots[v].physAddr != p ==> t'.slots[v] == t.slots[v])
      && |t'.entries| == |t.entries|
      && (forall i :: 0 <= i < |t.entries| ==>
            var e := t.entries[i];
            t'.entries[i] == if e.valid && e.paddr == p then e.(writable := false) else e)
  {
    var t' := Invalidate(t, Phys(p), true);
    forall v | v in t.slots
      ensures v in t'.slots
      ensures t'.slots[v].physAddr == p ==> t'.slots[v] == t.slots[v].(hostStore := NULL, userPage := false)
      ensures t'.slots[v].physAddr != p ==> t'.slots[v] == t.slots[v]
    {
      assert SlotLinked(t, v) && SlotCoherent(t, v);
    }
  }

  // ----- one iteration of a scan over the linear array

  lemma InvalidateFirstNone(t: Tlb, target: Target, mark: bool)
    requires Linked(t)
    ensures InvalidateFirst(t, target, mark, 0) == t
  {
    var t' := InvalidateFirst(t, target, mark, 0);
    forall v | v in t.slots ensures !SlotHit(t, target, 0, v) {
      assert SlotLinked(t, v);
    }
    assert t'.slots == t.slots;
    assert t'.entries == t.entries;
  }

  /** Entry `r` in the middle of a scan, and its slot if the entry is hit. */
  lemma ScanAt(t: Tlb, target: Target, mark: bool, r: nat)
    requires Linked(t) && r < |t.entries|
    ensures
      var u := InvalidateFirst(t, target, mark, r);
      && Linked(u) && |u.entries| == |t.entries| && u.entries[r] == t.entries[r]
      && (t.entries[r].valid ==> t.entries[r].vaddr in u.slots && u.slots[t.entries[r].vaddr].tlbIndex == r + 1)
  {
    InvalidateFirstLinked(t, target, mark, r);
    assert EntryLinked(InvalidateFirst(t, target, mark, r), r);
  }

  lemma SlotHitStep(t: Tlb, target: Target, r: nat, v: Addr)
    requires Linked(t) && r < |t.entries| && v in t.slots
    ensures SlotHit(t, target, r + 1, v) <==>
              SlotHit(t, target, r, v) || (Hits(target, t.entries[r]) && v == t.entries[r].vaddr)
  {
    assert SlotLinked(t, v) && EntryLinked(t, r);
  }

  /** A scan step at an entry that is not hit changes nothing. */
  lemma ScanMiss(t: Tlb, target: Target, mark: bool, r: nat)
    requires Linked(t) && r < |t.entries| && !Hits(target, t.entries[r])
    ensures InvalidateFirst(t, target, mark, r + 1) == InvalidateFirst(t, target, mark, r)
  {
    forall v | v in t.slots ensures SlotHit(t, target, r + 1, v) == SlotHit(t, target, r, v) {
      SlotHitStep(t, target, r, v);
    }
    var u, next := InvalidateFirst(t, target, mark, r), InvalidateFirst(t, target, mark, r + 1);
    assert next.entries == u.entries;
    assert next.slots == u.slots;
  }

  lemma ScanHitSlots(t: Tlb, target: Target, mark: bool, r: nat)
    requires Linked(t) && r < |t.entries| && Hits(target, t.entries[r])
    ensures
      var u, x := InvalidateFirst(t, target, mark, r), t.entries[r].vaddr;
      && x in u.slots
      && InvalidateFirst(t, target, mark, r + 1).slots ==
           if mark then u.slots[x := u.slots[x].(hostStore := NULL, userPage := false)] else u.slots - {x}
  {
    assert EntryLinked(t, r);
    var u, x := InvalidateFirst(t, target, mark, r), t.entries[r].vaddr;
    assert x in u.slots && u.slots[x] == t.slots[x];
    var next := InvalidateFirst(t, target, mark, r + 1);
    forall v | v in t.slots
      ensures SlotHit(t, target, r + 1, v) <==> SlotHit(t, target, r, v) || v == x
    {
      SlotHitStep(t, target, r, v);
    }
    if mark {
      assert next.slots == u.slots[x := u.slots[x].(hostStore := NULL, userPage := false)];
    } else {
      assert next.slots == u.slots - {x};
    }
  }

  /** A scan step at an entry that is hit: invalidate the entry's page, then adjust the entry. */
  lemma ScanHit(t: Tlb, target: Target, mark: bool, r: nat)
    requires Linked(t) && r < |t.entries| && Hits(target, t.entries[r])
    ensures
      var u := InvalidateFirst(t, target, mark, r);
      && Linked(u)
      && var u' := InvalidateEntry(u, t.entries[r].vaddr, mark);
      && |u'.entries| == |t.entries|
      && InvalidateFirst(t, target, mark, r + 1) ==
           u'.(entries := u'.entries[r := HitEntry(target, mark, t.entries[r])])
  {
    ScanAt(t, target, mark, r);
    ScanHitSlots(t, target, mark, r);
    var u, next := InvalidateFirst(t, target, mark, r), InvalidateFirst(t, target, mark, r + 1);
    var u' := InvalidateEntry(u, t.entries[r].vaddr, mark);
    assert next.entries == u'.entries[r := HitEntry(target, mark, t.entries[r])];
  }

  lemma HitsValid(target: Target, e: Entry)
    ensures Hits(target, e) ==> e.valid
  {
  }

  /** What invalidating its page does to entry `r` itself. */
  lemma UntouchedEntry(t: Tlb, v: Addr, mark: bool, r: nat, target: Target)
    requires Linked(t) && r < |t.entries| && t.entries[r].valid && t.entries[r].vaddr == v && Hits(target, t.entries[r])
    ensures
      var e := InvalidateEntry(t, v, mark).entries;
      && |e| == |t.entries| && e[r] == (if mark then t.entries[r] else t.entries[r].(valid := false))
      && HitEntry(target, mark, t.entries[r]) ==
           if mark && target.Phys? then e[r].(writable := false) else e[r]
  {
    assert EntryLinked(t, r);
  }

  lemma ClearFirstStep(t: Tlb, target: Target, r: nat)
    requires Linked(t) && r < |t.entries|
    ensures
      var u := ClearFirst(t, target, r);
      && Linked(u)
      && (!Hits(target, t.entries[r]) ==> ClearFirst(t, target, r + 1) == u)
      && (Hits(target, t.entries[r]) ==>
           && t.entries[r].vaddr in u.slots
           && ClearFirst(t, target, r + 1) ==
                u.(slots := u.slots[t.entries[r].vaddr := u.slots[t.entries[r].vaddr].(physPage := NULL)]))
  {
    ClearFirstLinked(t, target, r);
    var u, next := ClearFirst(t, target, r), ClearFirst(t, target, r + 1);
    forall v | v in t.slots ensures SlotHit(t, target, r + 1, v) <==>
        SlotHit(t, target, r, v) || (Hits(target, t.entries[r]) && v == t.entries[r].vaddr)
    {
      assert SlotLinked(t, v) && EntryLinked(t, r);
    }
    assert EntryLinked(t, r);
    if !Hits(target, t.entries[r]) {
      assert next.slots == u.slots;
    } else {
      assert next.slots == u.slots[t.entries[r].vaddr := u.slots[t.entries[r].vaddr].(physPage := NULL)];
    }
  }

  /** Invalidating one virtual page directly is the same as scanning for it. */
  lemma PageIsEntry(t: Tlb, v: Addr, mark: bool)
    requires Linked(t)
    ensures Invalidate(t, Page(v), mark) == InvalidateEntry(t, v, mark)
  {
    var a, b := Invalidate(t, Page(v), mark), InvalidateEntry(t, v, mark);
    forall x | x in t.slots ensures SlotHit(t, Page(v), |t.entries|, x) <==> x == v {
      assert SlotLinked(t, x);
    }
    forall i | 0 <= i < |t.entries| ensures a.entries[i] == b.entries[i] {
      assert EntryLinked(t, i);
    }
    assert a.entries == b.entries;
    assert a.slots == b.slots;
  }

  lemma ClearFirstEntries(t: Tlb, target: Target, n: nat)
    requires Linked(t) && n <= |t.entries|
    ensures ClearFirst(t, target, n).entries == t.entries
  {
  }

  lemma ClearFirstNone(t: Tlb, target: Target)
    requires Linked(t)
    ensures ClearFirst(t, target, 0) == t
  {
    forall v | v in t.slots ensures !SlotHit(t, target, 0, v) {
      assert SlotLinked(t, v);
    }
    assert ClearFirst(t, target, 0).slots == t.slots;
  }
}
