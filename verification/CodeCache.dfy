/**
 The translation cache of code pages: a bump allocator over one buffer, hash chains linked by
 offset, a bitmap per page of the parts that hold translations, and a reset of the whole cache.

 Guest pages are 4 KB with 4-byte instructions.  The address-translation tables are taken in their
 flat form, which both real forms compute (modules `Tlb32` and `Tlb64`).
 */
module CodeCache {
  import opened Bits
  import opened Wrappers
  import opened FlatTlb

  const PAGE_SIZE := 0x1000
  const ENTRIES := 1024
  const PER_RANGE := 32
  const N_RANGES := 32
  const N_BASE := 65536
  const START := 262144
  const MARGIN := 200000

  /** One page of call records. `ics[i]` says that record `i` is no longer to_be_translated. */
  datatype CodePage = CodePage(ics: seq<bool>, nextOfs: nat, bitmap: nat, physaddr: Addr)

  function PageOf(a: Addr): Addr { a - a % PAGE_SIZE }
  function TableIndex(p: Addr): nat { p / PAGE_SIZE % N_BASE }

  /** `((x - 1) | 63) + 1`. */
  function Round64(x: nat): nat
    requires x > 0
  {
    (x - 1) / 64 * 64 + 63 + 1
  }

  /** The next multiple of 64. */
  lemma RoundsUp(x: nat)
    requires x > 0
    ensures Round64(x) % 64 == 0 && x <= Round64(x) < x + 64
  {
  }

  /** Pages share a chain exactly when they lie a multiple of 256 MB apart. */
  lemma SameChainIff(p: Addr, q: Addr)
    requires p % 0x1000 == 0 && q % 0x1000 == 0
    ensures TableIndex(p) < 65536
    ensures TableIndex(p) == TableIndex(q) <==> p % 0x1000_0000 == q % 0x1000_0000
  {
    ChainOf(p);
    ChainOf(q);
  }

  lemma ChainOf(p: Addr)
    requires p % 0x1000 == 0
    ensures p % 0x1000_0000 == 0x1000 * TableIndex(p)
  {
    var n := p / 0x1000;
    assert p == 0x1000_0000 * (n / 65536) + 0x1000 * (n % 65536);
  }

  // ----- the cache as a value

  datatype Cache = Cache(base: seq<nat>, cur: nat, pages: map<nat, CodePage>)

  /** Every translated record lies in a range whose bit is set. */
  predicate PageOk(p: CodePage) {
    |p.ics| == ENTRIES && forall i :: 0 <= i < ENTRIES && p.ics[i] ==> Bit(p.bitmap, i / PER_RANGE)
  }

  /** Whether a traversal from offset `from` meets offset `o`; offsets decrease along the chain. */
  predicate OnChain(pages: map<nat, CodePage>, from: nat, o: nat)
    decreases from
  {
    from != 0 &&
    (from == o || (from in pages && pages[from].nextOfs < from && OnChain(pages, pages[from].nextOfs, o)))
  }

  /** A page in use: where it lies, what its link leads to. `size` is the size of its record. */
  ghost predicate Linked1(c: Cache, live: set<nat>, size: nat, o: nat)
    requires o in c.pages
  {
    var next := c.pages[o].nextOfs;
    && START <= o && o + size <= c.cur && PageOk(c.pages[o])
    && c.pages[o].physaddr % PAGE_SIZE == 0
    && (next != 0 ==>
          && next in live && next < o && next in c.pages
          && TableIndex(c.pages[next].physaddr) == TableIndex(c.pages[o].physaddr))
  }

  ghost predicate CacheOk(c: Cache, live: set<nat>, size: nat, cacheSize: nat) {
    && |c.base| == N_BASE && c.cur >= START && c.cur % 64 == 0
    && (forall o :: o in live ==> o in c.pages && o < cacheSize && Linked1(c, live, size, o))
    && (forall k :: 0 <= k < N_BASE && c.base[k] != 0 ==>
          c.base[k] in live && TableIndex(c.pages[c.base[k]].physaddr) == k)
    && (forall o :: o in live ==> OnChain(c.pages, c.base[TableIndex(c.pages[o].physaddr)], o))
    && (forall o, q :: o in live && q in live && c.pages[o].physaddr == c.pages[q].physaddr ==> o == q)
    && (forall o, q :: o in live && q in live && o < q ==> o + size <= q)
  }

  function Fresh(next: nat, p: Addr): CodePage {
    CodePage(seq(ENTRIES, _ => false), next, 0, p)
  }

  /** The cache after a new page for `p` has been put first in its chain. */
  function Allocate(c: Cache, size: nat, p: Addr): Cache
    requires |c.base| == N_BASE && size > 0
  {
    var k := TableIndex(p);
    Cache(c.base[k := c.cur], Round64(c.cur + size), c.pages[c.cur := Fresh(c.base[k], p)])
  }

  lemma {:induction false} OnChainFrame(pages: map<nat, CodePage>, pages': map<nat, CodePage>, live: set<nat>, from: nat, o: nat)
    requires OnChain(pages, from, o)
    requires forall x :: x in live ==> x in pages && x in pages' && pages'[x].nextOfs == pages[x].nextOfs
    requires forall x :: x in live ==> pages[x].nextOfs == 0 || pages[x].nextOfs in live
    requires from == 0 || from in live
    ensures OnChain(pages', from, o)
    decreases from
  {
    if from != o { OnChainFrame(pages, pages', live, pages[from].nextOfs, o); }
  }

  lemma AllocateLinks(c: Cache, live: set<nat>, size: nat, cacheSize: nat, p: Addr)
    requires CacheOk(c, live, size, cacheSize) && size > 0 && c.cur < cacheSize && p % PAGE_SIZE == 0
    ensures var c' := Allocate(c, size, p);
      && c'.cur >= c.cur + size && c'.cur % 64 == 0 && c.cur !in live && (forall o :: o in live ==> c'.pages[o] == c.pages[o])
      && (forall o :: o in live + {c.cur} ==> o in c'.pages && o < cacheSize && Linked1(c', live + {c.cur}, size, o))
  {
    hide OnChain, Bit;
    var c' := Allocate(c, size, p);
    forall o | o in live ensures o != c.cur && Linked1(c', live + {c.cur}, size, o) {
      assert Linked1(c, live, size, o);
    }
    assert Linked1(c', live + {c.cur}, size, c.cur);
  }

  lemma AllocateChains(c: Cache, live: set<nat>, size: nat, cacheSize: nat, p: Addr, o: nat)
    requires CacheOk(c, live, size, cacheSize) && size > 0 && c.cur < cacheSize && p % PAGE_SIZE == 0
    requires o in live + {c.cur}
    ensures var c' := Allocate(c, size, p);
      o in c'.pages && OnChain(c'.pages, c'.base[TableIndex(c'.pages[o].physaddr)], o)
  {
    AllocateLinks(c, live, size, cacheSize, p);
    var c' := Allocate(c, size, p);
    if o in live {
      var b := c.base[TableIndex(c.pages[o].physaddr)];
      forall x | x in live ensures c.pages[x].nextOfs == 0 || c.pages[x].nextOfs in live {
        assert Linked1(c, live, size, x);
      }
      OnChainFrame(c.pages, c'.pages, live, b, o);
      assert Linked1(c', live + {c.cur}, size, c.cur);
    }
  }

  lemma AllocateOk(c: Cache, live: set<nat>, size: nat, cacheSize: nat, p: Addr)
    requires CacheOk(c, live, size, cacheSize) && size > 0 && c.cur < cacheSize && p % PAGE_SIZE == 0
    requires forall o :: o in live ==> c.pages[o].physaddr != p
    ensures CacheOk(Allocate(c, size, p), live + {c.cur}, size, cacheSize) && c.cur !in live
  {
    hide OnChain, Round64, PageOk;
    AllocateLinks(c, live, size, cacheSize, p);
    var c' := Allocate(c, size, p);
    forall o | o in live + {c.cur} ensures OnChain(c'.pages, c'.base[TableIndex(c'.pages[o].physaddr)], o) {
      AllocateChains(c, live, size, cacheSize, p, o);
    }
    forall o | o in live ensures o + size <= c.cur {
      assert Linked1(c, live, size, o);
    }
  }

  lemma ReplaceLinks(c: Cache, live: set<nat>, size: nat, cacheSize: nat, o: nat, page: CodePage, x: nat)
    requires CacheOk(c, live, size, cacheSize) && o in live && o in c.pages && x in live
    requires PageOk(page) && page.nextOfs == c.pages[o].nextOfs && page.physaddr == c.pages[o].physaddr
    ensures x in c.pages && Linked1(c.(pages := c.pages[o := page]), live, size, x)
  {
    hide PageOk, OnChain, TableIndex;
    assert Linked1(c, live, size, x);
  }

  lemma ReplaceChains(c: Cache, live: set<nat>, size: nat, cacheSize: nat, o: nat, page: CodePage, x: nat)
    requires CacheOk(c, live, size, cacheSize) && o in live && o in c.pages && x in live && x in c.pages
    requires page.nextOfs == c.pages[o].nextOfs && page.physaddr == c.pages[o].physaddr
    ensures OnChain(c.pages[o := page], c.base[TableIndex(c.pages[x].physaddr)], x)
  {
    hide PageOk, OnChain;
    forall y | y in live ensures c.pages[y].nextOfs == 0 || c.pages[y].nextOfs in live {
      assert Linked1(c, live, size, y);
    }
    OnChainFrame(c.pages, c.pages[o := page], live, c.base[TableIndex(c.pages[x].physaddr)], x);
  }

  /** Rewriting a page's records keeps the chains, as long as the page itself stays in order. */
  lemma ReplaceOk(c: Cache, live: set<nat>, size: nat, cacheSize: nat, o: nat, page: CodePage)
    requires CacheOk(c, live, size, cacheSize) && o in live && o in c.pages
    requires PageOk(page) && page.nextOfs == c.pages[o].nextOfs && page.physaddr == c.pages[o].physaddr
    ensures CacheOk(c.(pages := c.pages[o := page]), live, size, cacheSize)
  {
    hide PageOk, OnChain, Linked1;
    var c' := c.(pages := c.pages[o := page]);
    forall x | x in live ensures x in c'.pages && x < cacheSize && Linked1(c', live, size, x) {
      ReplaceLinks(c, live, size, cacheSize, o, page, x);
    }
    forall x | x in live ensures OnChain(c'.pages, c'.base[TableIndex(c'.pages[x].physaddr)], x) {
      ReplaceChains(c, live, size, cacheSize, o, page, x);
    }
  }

  // ----- the cache and the address-translation tables together

  /** Every code-page pointer leads to a page in use, for the physical page that the slot maps. */
  ghost predicate NoDangling(t: Tlb, pages: map<nat, CodePage>, live: set<nat>) {
    forall v :: v in t.slots && t.slots[v].physPage != NULL ==>
      t.slots[v].physPage in live && t.slots[v].physPage in pages &&
      pages[t.slots[v].physPage].physaddr == t.slots[v].physAddr
  }

  /** No page that holds translations can be written through the fast path. */
  ghost predicate Protected(t: Tlb, pages: map<nat, CodePage>, live: set<nat>) {
    forall o :: o in live && o in pages && pages[o].bitmap != 0 ==> ReadOnly(t, pages[o].physaddr)
  }

  ghost predicate WholePages(t: Tlb) {
    forall v :: v in t.slots ==> t.slots[v].physAddr % PAGE_SIZE == 0
  }

  /** No slot for physical page `p` is writable. */
  ghost predicate ReadOnly(t: Tlb, p: Addr) {
    forall v :: v in t.slots && t.slots[v].physAddr == p ==> t.slots[v].hostStore == NULL
  }

  /** Where execution continues, and the physical page of the code there. */
  function Translation(t: Tlb, pc: Addr, v2p: Addr -> Option<Addr>, handler: Addr): Option<(Addr, Addr)> {
    var s := Lookup(t, PageOf(pc));
    if s.hostLoad != NULL then Some((pc, s.physAddr))
    else if v2p(pc).Some? then Some((pc, PageOf(v2p(pc).value)))
    else
      var s := Lookup(t, PageOf(handler));
      if s.hostLoad != NULL then Some((handler, s.physAddr))
      else if v2p(handler).Some? then Some((handler, PageOf(v2p(handler).value)))
      else None
  }

  /** The tables after pc_to_pointers_generic has mapped the page of `at`, if it was not. */
  function MappedTlb(w: Width, t: Tlb, at: Addr, p: Addr, host: Ptr, tick: nat): Tlb
    requires Linked(t) && |t.entries| > 0
  {
    if Lookup(t, PageOf(at)).hostLoad == NULL && host != NULL
    then Update(w, t, PageOf(at), host, Access(false, false, false), p, tick) else t
  }

  /** And after the rest of it: a reset, the code-page pointer, the write protection. */
  ghost function EnteredTlb(t: Tlb, reset: bool, held: bool, v: Addr, o: nat, mark: bool, p: Addr): Tlb
    requires Linked(t)
  {
    var t1 := if reset then ClearPhysPages(t, All) else t;
    var t2 := if held then SetPhysPage(t1, v, o) else t1;
    EnteredLinked(t, reset, held, v, o);
    if mark then Invalidate(t2, Phys(p), true) else t2
  }

  lemma EnteredLinked(t: Tlb, reset: bool, held: bool, v: Addr, o: nat)
    requires Linked(t)
    ensures
      var t1 := if reset then ClearPhysPages(t, All) else t;
      Linked(t1) && Linked(if held then SetPhysPage(t1, v, o) else t1)
  {
    ClearFirstLinked(t, All, |t.entries|);
    SetPhysPageLinked(if reset then ClearPhysPages(t, All) else t, v, o);
  }

  // ----- what updating the tables alone can break

  /**
   update_translation_table keeps the code-page pointers right exactly when it does not remap, in
   64-bit mode, a page whose code page is cached: only the 32-bit form forgets the pointer.
   */
  lemma UpdateDanglingIff(w: Width, t: Tlb, v: Addr, host: Ptr, a: Access, p: Addr, tick: nat,
                          pages: map<nat, CodePage>, live: set<nat>)
    requires Linked(t) && |t.entries| > 0 && NoDangling(t, pages, live)
    ensures NoDangling(Update(w, t, v, host, a, p, tick), pages, live) <==>
      (v !in t.slots || w.Bits32? || t.slots[v].physAddr == p || t.slots[v].physPage == NULL)
  {
    var t' := Update(w, t, v, host, a, p, tick);
    if v in t.slots {
      assert v in t'.slots && t'.slots[v] == UpdatedSlot(w, t.slots[v], host, a, p);
    } else {
      EvictLinked(t, tick % |t.entries|);
    }
  }

  lemma UpdateKeeps(w: Width, t: Tlb, v: Addr, host: Ptr, a: Access, p: Addr, tick: nat,
                    pages: map<nat, CodePage>, live: set<nat>)
    requires Linked(t) && Coherent(t) && |t.entries| > 0 && KeepsCoherence(t, v, host, a, p)
    requires NoDangling(t, pages, live) && WholePages(t) && p % PAGE_SIZE == 0
    ensures var t' := Update(w, t, v, host, a, p, tick);
      && Linked(t') && Coherent(t') && |t'.entries| == |t.entries| && NoDangling(t', pages, live) && WholePages(t')
      && v in t'.slots && t'.slots[v].physAddr == p && (a.write && !a.downgrade ==> t'.slots[v].hostStore == host)
      && (forall q :: ReadOnly(t, q) && (q != p || (!a.write && !a.downgrade)) ==> ReadOnly(t', q))
  {
    UpdateCoherentIff(w, t, v, host, a, p, tick);
    UpdateDanglingIff(w, t, v, host, a, p, tick, pages, live);
    if v !in t.slots { EvictLinked(t, tick % |t.entries|); }
  }

  /** No update makes another physical page writable, remaps included. */
  lemma UpdateReadOnly(w: Width, t: Tlb, v: Addr, host: Ptr, a: Access, p: Addr, tick: nat)
    requires Linked(t) && |t.entries| > 0 && !a.downgrade
    ensures forall q :: ReadOnly(t, q) && (q != p || !a.write) ==> ReadOnly(Update(w, t, v, host, a, p, tick), q)
  {
    UpdateMaps(w, t, v, host, a, p, tick);
  }

  ghost predicate TlbOk(t: Tlb, pages: map<nat, CodePage>, live: set<nat>) {
    |t.entries| > 0 && Linked(t) && Coherent(t) && WholePages(t) && NoDangling(t, pages, live)
  }

  /** Of the updates with page-aligned addresses, exactly those that keep coherence keep the tables in order. */
  lemma UpdateTlbOkIff(w: Width, t: Tlb, v: Addr, host: Ptr, a: Access, p: Addr, tick: nat,
                       pages: map<nat, CodePage>, live: set<nat>)
    requires TlbOk(t, pages, live) && p % PAGE_SIZE == 0
    ensures TlbOk(Update(w, t, v, host, a, p, tick), pages, live) <==> KeepsCoherence(t, v, host, a, p)
  {
    hide NoDangling, WholePages;
    UpdateCoherentIff(w, t, v, host, a, p, tick);
    if KeepsCoherence(t, v, host, a, p) { UpdateKeeps(w, t, v, host, a, p, tick, pages, live); }
  }

  /** A remapped page with a code page: 64-bit mode leaves the pointer, 32-bit mode drops it. */
  lemma RemapDangles()
    ensures
      var t := Tlb([Entry(true, false, 0x1000, 0x5000, 7)], map[0x1000 := Slot(7, NULL, 0x5000, START, 1, false)]);
      var pages, live := map[START := Fresh(0, 0x5000)], {START};
      && TlbOk(t, pages, live)
      && !NoDangling(Update(Bits64, t, 0x1000, 9, Access(false, false, false), 0x8000, 0), pages, live)
      && NoDangling(Update(Bits32, t, 0x1000, 9, Access(false, false, false), 0x8000, 0), pages, live)
  {
    var t := Tlb([Entry(true, false, 0x1000, 0x5000, 7)], map[0x1000 := Slot(7, NULL, 0x5000, START, 1, false)]);
    assert forall v :: v in t.slots ==> SlotLinked(t, v) && SlotCoherent(t, v);
    assert EntryLinked(t, 0);
    UpdateDanglingIff(Bits64, t, 0x1000, 9, Access(false, false, false), 0x8000, 0, map[START := Fresh(0, 0x5000)], {START});
    UpdateDanglingIff(Bits32, t, 0x1000, 9, Access(false, false, false), 0x8000, 0, map[START := Fresh(0, 0x5000)], {START});
  }

  lemma TlbOkFrame(t: Tlb, pages: map<nat, CodePage>, live: set<nat>, pages': map<nat, CodePage>, live': set<nat>)
    requires TlbOk(t, pages, live) && live <= live'
    requires forall o :: o in live && o in pages ==> o in pages' && pages'[o].physaddr == pages[o].physaddr
    ensures TlbOk(t, pages', live')
  {
  }

  lemma MappedSlots(t: Tlb, pages: map<nat, CodePage>, live: set<nat>)
    requires TlbOk(t, pages, live)
    ensures forall v :: v in t.slots <==> Lookup(t, v).hostLoad != NULL
  {
    forall v | v in t.slots ensures t.slots[v].hostLoad != NULL {
      assert SlotLinked(t, v) && SlotCoherent(t, v);
    }
  }

  /** The invalidation that write-protects a physical page. */
  lemma MarkKeeps(t: Tlb, p: Addr, pages: map<nat, CodePage>, live: set<nat>)
    requires TlbOk(t, pages, live)
    ensures var t' := Invalidate(t, Phys(p), true);
      && TlbOk(t', pages, live) && ReadOnly(t', p)
      && (forall q :: ReadOnly(t, q) ==> ReadOnly(t', q))
      && (forall v :: v in t.slots <==> v in t'.slots)
      && (forall v :: v in t.slots ==>
            && t'.slots[v].physAddr == t.slots[v].physAddr && t'.slots[v].physPage == t.slots[v].physPage
            && t'.slots[v].hostLoad == t.slots[v].hostLoad)
  {
    InvalidateCoherent(t, Phys(p), true);
    MarkPhysProtects(t, p);
    var t' := Invalidate(t, Phys(p), true);
    forall v | v in t.slots
      ensures t'.slots[v].physAddr == t.slots[v].physAddr && t'.slots[v].physPage == t.slots[v].physPage
      ensures t'.slots[v].hostLoad == t.slots[v].hostLoad
      ensures t.slots[v].hostStore == NULL ==> t'.slots[v].hostStore == NULL
    {
    }
  }

  lemma SetPhysPageKeeps(t: Tlb, v: Addr, o: nat, pages: map<nat, CodePage>, live: set<nat>)
    requires TlbOk(t, pages, live) && o in live && o in pages
    requires v in t.slots ==> t.slots[v].physAddr == pages[o].physaddr
    ensures var t' := SetPhysPage(t, v, o);
      && TlbOk(t', pages, live) && (forall q :: ReadOnly(t, q) ==> ReadOnly(t', q))
      && t.slots.Keys == t'.slots.Keys
      && (forall u :: u in t.slots ==> t'.slots[u] == if u == v then t.slots[u].(physPage := o) else t.slots[u])
  {
    SetPhysPageLinked(t, v, o);
    var t' := SetPhysPage(t, v, o);
    if v in t.slots { assert SlotLinked(t, v) && SlotCoherent(t, v); }
    forall x | x in t'.slots ensures SlotCoherent(t', x) {
      assert SlotLinked(t', x) && SlotLinked(t, x) && SlotCoherent(t, x);
    }
  }

  /** The pointer store and the write protection at the end of pc_to_pointers_generic. */
  lemma EnteredKeeps(t: Tlb, held: bool, v: Addr, o: nat, mark: bool, p: Addr, pages: map<nat, CodePage>, live: set<nat>)
    requires TlbOk(t, pages, live) && Linked(t) && o in live && o in pages && pages[o].physaddr == p
    requires v in t.slots ==> t.slots[v].physAddr == p
    ensures var t' := EnteredTlb(t, false, held, v, o, mark, p);
      && TlbOk(t', pages, live) && (mark ==> ReadOnly(t', p))
      && (forall q :: ReadOnly(t, q) ==> ReadOnly(t', q))
      && t.slots.Keys == t'.slots.Keys
      && (forall u :: u in t.slots ==>
            var s, marked := t.slots[u], mark && t.slots[u].physAddr == p;
            t'.slots[u] == s.(physPage := if held && u == v then o else s.physPage,
                              hostStore := if marked then NULL else s.hostStore, userPage := !marked && s.userPage))
  {
    hide TlbOk, Linked, Invalidate, ReadOnly;
    SetPhysPageKeeps(t, v, o, pages, live);
    var t1 := if held then SetPhysPage(t, v, o) else t;
    MarkKeeps(t1, p, pages, live);
    InOrder(t1, pages, live);
    MarkPhysProtects(t1, p);
  }

  /** Clearing code-page pointers changes nothing else, in any linked table. */
  lemma ClearFlat(t: Tlb, target: Target)
    requires Linked(t)
    ensures var t' := ClearPhysPages(t, target);
      && Linked(t') && t'.entries == t.entries && t'.slots.Keys == t.slots.Keys
      && (Coherent(t') <==> Coherent(t))
      && (forall v :: v in t.slots ==>
            t'.slots[v] == t.slots[v].(physPage := t'.slots[v].physPage) &&
            (t'.slots[v].physPage == NULL || t'.slots[v].physPage == t.slots[v].physPage))
      && (forall q :: ReadOnly(t', q) <==> ReadOnly(t, q))
  {
    ClearFirstLinked(t, target, |t.entries|);
    var t' := ClearPhysPages(t, target);
    forall x | x in t.slots ensures SlotLinked(t, x) && SlotLinked(t', x) && (SlotCoherent(t, x) <==> SlotCoherent(t', x)) {
      assert SlotLinked(t, x);
    }
    forall q ensures ReadOnly(t', q) <==> ReadOnly(t, q) {
      if ReadOnly(t', q) {
        forall v | v in t.slots && t.slots[v].physAddr == q ensures t.slots[v].hostStore == NULL {
          assert v in t'.slots;
        }
      }
    }
  }

  /** And in tables that are in order it clears all the pointers it is meant to. */
  lemma ClearHits(t: Tlb, target: Target)
    requires Linked(t)
    ensures var t' := ClearPhysPages(t, target);
      && (target.All? ==> forall v :: v in t'.slots ==> t'.slots[v].physPage == NULL)
      && (target.Phys? && Coherent(t) ==>
            forall v :: v in t'.slots && t'.slots[v].physAddr == target.page ==> t'.slots[v].physPage == NULL)
  {
    ClearFlat(t, target);
    forall v | v in t.slots ensures SlotLinked(t, v) && (Coherent(t) ==> SlotCoherent(t, v)) {
      assert SlotLinked(t, v);
    }
  }

  lemma ClearKeeps(t: Tlb, target: Target, pages: map<nat, CodePage>, live: set<nat>)
    requires TlbOk(t, pages, live)
    ensures TlbOk(ClearPhysPages(t, target), pages, live)
  {
    hide ClearPhysPages, Linked, Coherent;
    ClearFlat(t, target);
  }

  lemma InvalidateKeeps(t: Tlb, target: Target, mark: bool, pages: map<nat, CodePage>, live: set<nat>)
    requires TlbOk(t, pages, live)
    ensures var t' := Invalidate(t, target, mark);
      TlbOk(t', pages, live) && forall q :: ReadOnly(t, q) ==> ReadOnly(t', q)
  {
    InvalidateCoherent(t, target, mark);
    var t' := Invalidate(t, target, mark);
    forall v | v in t'.slots
      ensures v in t.slots && t'.slots[v].physAddr == t.slots[v].physAddr && t'.slots[v].physPage == t.slots[v].physPage
      ensures t.slots[v].hostStore == NULL ==> t'.slots[v].hostStore == NULL
    {
    }
  }

  lemma CacheFacts(c: Cache, live: set<nat>, size: nat, cacheSize: nat)
    requires CacheOk(c, live, size, cacheSize)
    ensures |c.base| == N_BASE && 0 !in live
    ensures forall o :: o in live ==>
      o in c.pages && 0 < o < cacheSize && o + size <= c.cur && PageOk(c.pages[o]) && c.pages[o].physaddr % PAGE_SIZE == 0
    ensures forall o :: o in live && c.pages[o].nextOfs != 0 ==> c.pages[o].nextOfs < o && c.pages[o].nextOfs in live
    ensures forall k :: 0 <= k < N_BASE && c.base[k] != 0 ==> c.base[k] in live
    ensures forall o :: o in live ==> OnChain(c.pages, c.base[TableIndex(c.pages[o].physaddr)], o)
    ensures forall o, q :: o in live && q in live && c.pages[o].physaddr == c.pages[q].physaddr ==> o == q
  {
    forall o | o in live
      ensures 0 < o && o + size <= c.cur && PageOk(c.pages[o]) && c.pages[o].physaddr % PAGE_SIZE == 0
      ensures c.pages[o].nextOfs != 0 ==> c.pages[o].nextOfs < o && c.pages[o].nextOfs in live
    {
      assert Linked1(c, live, size, o);
    }
  }

  lemma LiveInPages(c: Cache, live: set<nat>, size: nat, cacheSize: nat)
    requires CacheOk(c, live, size, cacheSize)
    ensures forall o :: o in live ==> o in c.pages
  {
  }

  lemma OnePageEach(c: Cache, live: set<nat>, size: nat, cacheSize: nat)
    requires CacheOk(c, live, size, cacheSize)
    ensures forall o :: o in live ==> o in c.pages
    ensures forall o, q :: o in live && q in live && c.pages[o].physaddr == c.pages[q].physaddr ==> o == q
  {
  }

  lemma EmptyCacheOk(c: Cache, size: nat, cacheSize: nat)
    requires c.base == seq(N_BASE, _ => 0) && c.cur == START
    ensures CacheOk(c, {}, size, cacheSize)
  {
  }

  /** Marking a record translated, together with its range, keeps the page in order. */
  lemma MarkedPageOk(p: CodePage, offset: nat)
    requires PageOk(p) && offset < PAGE_SIZE && offset % 4 == 0
    ensures PageOk(p.(bitmap := SetBit(p.bitmap, offset / (PAGE_SIZE / N_RANGES)), ics := p.ics[offset / 4 := true]))
    ensures SetBit(p.bitmap, offset / (PAGE_SIZE / N_RANGES)) != 0
  {
    var x := offset / (PAGE_SIZE / N_RANGES);
    forall i | 0 <= i < ENTRIES && p.ics[offset / 4 := true][i]
      ensures Bit(SetBit(p.bitmap, x), i / PER_RANGE)
    {
      BitSetBit(p.bitmap, x, i / PER_RANGE);
    }
    BitSetBit(p.bitmap, x, 0);
  }

  lemma {:induction false} OnesBit(n: nat, k: nat)
    requires k < n
    ensures Bit(Pow2(n) - 1, k)
  {
    assert (Pow2(n) - 1) / 2 == Pow2(n - 1) - 1;
    if k > 0 { OnesBit(n - 1, k - 1); }
  }

  lemma AllOnes(k: nat)
    requires k < 32
    ensures Bit(0xffff_ffff, k)
  {
    assert Pow2(8) == 0x100 && Pow2(16) == 0x1_0000 && Pow2(24) == 0x100_0000 && Pow2(32) == 0x1_0000_0000;
    OnesBit(32, k);
  }

  lemma BlankPage(p: CodePage)
    requires PageOk(p) && p.bitmap == 0
    ensures p.ics == seq(ENTRIES, _ => false)
  {
    forall i | 0 <= i < ENTRIES ensures !p.ics[i] { BitZero(i / PER_RANGE); }
  }

  /** Set every record of the ranges that hold translations, or of all ranges, back to to_be_translated. */
  method ClearRanges(page: CodePage, all: bool) returns (ics: seq<bool>)
    requires PageOk(page)
    ensures ics == seq(ENTRIES, _ => false)
  {
    var x := if all then 0xffff_ffff else page.bitmap;
    ghost var x0 := x;
    ics := page.ics;
    var i := 0;
    while i < N_RANGES
      invariant 0 <= i <= N_RANGES && |ics| == ENTRIES && x == Shr(x0, i)
      invariant forall k :: 0 <= k < ENTRIES && ics[k] ==>
        page.ics[k] && !(k < i * PER_RANGE && Bit(x0, k / PER_RANGE))
    {
      BitShr(x0, i);
      if x % 2 == 1 {
        ghost var before := ics;
        var j := 0;
        while j < PER_RANGE
          invariant 0 <= j <= PER_RANGE && |ics| == ENTRIES
          invariant forall k :: 0 <= k < ENTRIES ==>
            ics[k] == (before[k] && !(i * PER_RANGE <= k < i * PER_RANGE + j))
        {
          ics := ics[i * PER_RANGE + j := false];
          j := j + 1;
        }
      }
      x := x / 2;
      i := i + 1;
    }
    forall k | 0 <= k < ENTRIES ensures !ics[k] {
      if all { AllOnes(k / PER_RANGE); }
    }
  }

  datatype CacheKind = NoCache | Data | Instruction

  /** The write permission that memory_rw asks update_translation_table for. */
  predicate Grants(writing: bool, mayWrite: bool, kind: CacheKind) {
    if kind.Instruction? then writing else mayWrite
  }

  lemma InOrder(t: Tlb, pages: map<nat, CodePage>, live: set<nat>)
    requires TlbOk(t, pages, live)
    ensures |t.entries| > 0 && Linked(t) && Coherent(t) && NoDangling(t, pages, live)
  {
  }

  /** The physical address in a slot is that of a page. */
  lemma WholePage(t: Tlb, v: Addr, paddr: Addr, pages: map<nat, CodePage>, live: set<nat>)
    requires TlbOk(t, pages, live)
    ensures Lookup(t, v).hostLoad != NULL && paddr == Lookup(t, v).physAddr ==> PageOf(paddr) == paddr
    ensures Linked(t) && |t.entries| > 0
  {
  }

  lemma OrderNeeds(t: Tlb, pages: map<nat, CodePage>, live: set<nat>)
    ensures TlbOk(t, pages, live) ==> Linked(t) && Coherent(t)
  {
  }

  /** What an access does to tables that are in order. */
  lemma AccessMaps(w: Width, t: Tlb, v: Addr, host: Ptr, a: Access, p: Addr, tick: nat,
                   pages: map<nat, CodePage>, live: set<nat>)
    requires TlbOk(t, pages, live) && |t.entries| > 0 && Linked(t) && p % PAGE_SIZE == 0 && !a.downgrade
    ensures
      var t' := Update(w, t, v, host, a, p, tick);
      && Linked(t') && (Coherent(t') <==> KeepsCoherence(t, v, host, a, p))
      && (TlbOk(t', pages, live) <==> KeepsCoherence(t, v, host, a, p))
      && v in t'.slots && t'.slots[v].physAddr == p && (a.write ==> t'.slots[v].hostStore == host)
      && (forall q :: ReadOnly(t, q) && (q != p || !a.write) ==> ReadOnly(t', q))
  {
    hide Update, NoDangling, WholePages, Coherent, KeepsCoherence;
    UpdateCoherentIff(w, t, v, host, a, p, tick);
    UpdateTlbOkIff(w, t, v, host, a, p, tick, pages, live);
    UpdateMaps(w, t, v, host, a, p, tick);
    UpdateReadOnly(w, t, v, host, a, p, tick);
  }

  lemma WritableAt(t: Tlb, v: Addr, p: Addr)
    requires v in t.slots && t.slots[v].physAddr == p && t.slots[v].hostStore != NULL
    ensures !ReadOnly(t, p)
  {
  }

  /** Whether memory_rw takes the page's code translations back. */
  predicate TakesBack(writing: bool, mayWrite: bool, kind: CacheKind) { writing || (mayWrite && kind.Data?) }

  // ----- the CPU

  class Cpu {
    const width: Width
    const clearsWholePage: bool   // ARM, where pc-relative loads are translated into moves
    const cacheSize: nat
    const size: nat               // bytes in the record of one page
    var base: seq<nat>
    var cur: nat
    var pages: map<nat, CodePage>
    var tlb: Tlb
    var curPage: nat
    var nextIc: nat
    ghost var live: set<nat>

    function Contents(): Cache
      reads this
    {
      Cache(base, cur, pages)
    }

    /** The cache of code pages is in order. */
    ghost predicate Ready()
      reads this
    {
      && 0 < size && Round64(size) <= MARGIN && START < cacheSize
      && CacheOk(Contents(), live, size, cacheSize)
    }

    /** So are the tables that point into it. */
    ghost predicate Valid()
      reads this
    {
      Ready() && TlbOk(tlb, pages, live)
    }

    /** The page with the code of physical page `p`, if there is one. */
    ghost predicate Holds(o: nat, p: Addr)
      reads this
    {
      o in live && o in pages && pages[o].physaddr == p
    }

    constructor (w: Width, arm: bool, cacheSize: nat, size: nat, n: nat)
      requires 0 < size && Round64(size) <= MARGIN && START < cacheSize && n > 0
      ensures Valid() && live == {} && Protected(tlb, pages, live) && cur == START
      ensures tlb == Initial(n) && width == w && this.cacheSize == cacheSize && this.size == size && curPage == 0
    {
      width, clearsWholePage := w, arm;
      this.cacheSize, this.size := cacheSize, size;
      base, cur, pages := seq(N_BASE, _ => 0), START, map[];
      tlb := Initial(n);
      curPage, nextIc := 0, 0;
      live := {};
    }

    /** Every page in use fits the buffer, whose size is `cacheSize + MARGIN`. */
    lemma PagesFit(o: nat)
      requires Valid() && o in live
      ensures 4 * 65536 <= o && o + size <= cacheSize + 200000
    {
      assert Linked1(Contents(), live, size, o);
    }

    /** cpu_create_or_reset_tc, for a cache that exists. The page records themselves are not erased. */
    method Reset()
      requires Valid()
      modifies `base, `cur, `live, `tlb
      ensures Valid() && live == {} && cur == 4 * 65536 && Protected(tlb, pages, live)
      ensures tlb == ClearPhysPages(old(tlb), All)
      ensures forall v :: v in tlb.slots ==> tlb.slots[v].physPage == NULL
    {
      hide CacheOk, Coherent, ClearPhysPages;
      ClearKeeps(tlb, All, pages, live);
      ClearHits(tlb, All);
      base := seq(N_BASE, _ => 0);
      cur := START;
      live := {};
      tlb := ClearPhysPages(tlb, All);
      EmptyCacheOk(Contents(), size, cacheSize);
    }

    /** The traversal of one chain; 0 if the page is not in the cache. */
    method Find(p: Addr) returns (o: nat)
      requires Ready() && p % PAGE_SIZE == 0
      ensures if o == 0 then forall q :: !Holds(q, p) else Holds(o, p)
    {
      hide CacheOk, TlbOk, PageOk;
      CacheFacts(Contents(), live, size, cacheSize);
      o := base[TableIndex(p)];
      while o != 0
        invariant o == 0 || o in live
        invariant forall q :: Holds(q, p) ==> OnChain(pages, o, q)
        decreases o
      {
        if pages[o].physaddr == p {
          return;
        }
        o := pages[o].nextOfs;
      }
    }

    /** The find-or-create at the heart of pc_to_pointers_generic. */
    method FindOrCreate(p: Addr) returns (o: nat)
      requires Valid() && p % PAGE_SIZE == 0 && cur < cacheSize
      modifies `base, `cur, `pages, `live
      ensures Valid() && Holds(o, p)
      ensures (exists q :: old(Holds(q, p))) ==> Contents() == old(Contents()) && live == old(live)
      ensures (forall q :: !old(Holds(q, p))) ==>
        && o == old(cur) && o !in old(live) && live == old(live) + {o}
        && pages == old(pages)[o := pages[o]] && pages[o].bitmap == 0 && pages[o].ics == seq(ENTRIES, _ => false)
      ensures forall q :: q in old(live) ==> q in live && q in pages && q in old(pages) && pages[q] == old(pages)[q]
    {
      hide CacheOk, TlbOk, PageOk, Round64;
      o := Find(p);
      CacheFacts(Contents(), live, size, cacheSize);
      if o == 0 {
        forall q | q in live ensures pages[q].physaddr != p {
          assert !Holds(q, p);
        }
        AllocateOk(Contents(), live, size, cacheSize, p);
        o := Insert(p);
        live := live + {o};
        TlbOkFrame(tlb, old(pages), old(live), pages, live);
      }
    }

    /** Put a new page first in its chain. */
    method Insert(p: Addr) returns (o: nat)
      requires |base| == N_BASE && size > 0
      modifies `base, `cur, `pages
      ensures o == old(cur) && Contents() == Allocate(old(Contents()), size, p)
      ensures TableIndex(p) < N_BASE && base == old(base)[TableIndex(p) := o]
      ensures pages == old(pages)[o := CodePage(seq(1024, _ => false), old(base)[TableIndex(p)], 0, p)]
    {
      var k := TableIndex(p);
      var first := base[k];
      o := cur;
      base := base[k := o];
      pages := pages[o := Fresh(0, p)];
      cur := Round64(cur + size);
      pages := pages[o := pages[o].(nextOfs := first)];
      assert pages == old(pages)[o := Fresh(first, p)];
    }

    /** pc_to_pointers_generic, past the address translation: find or create the page of `p`. */
    method EnterPage(at: Addr, p: Addr, held: bool)
      requires Valid() && p % PAGE_SIZE == 0
      requires PageOf(at) in tlb.slots ==> tlb.slots[PageOf(at)].physAddr == p
      modifies this
      ensures Valid() && Holds(curPage, p) && nextIc == at % PAGE_SIZE / 4
      ensures pages[curPage].bitmap == 0 ==> ReadOnly(tlb, p)
      ensures old(Protected(tlb, pages, live)) ==> Protected(tlb, pages, live)
      ensures tlb.slots.Keys == old(tlb).slots.Keys
      ensures forall u :: u in tlb.slots ==>
        var s, marked := old(tlb).slots[u], pages[curPage].bitmap == 0 && old(tlb).slots[u].physAddr == p;
        tlb.slots[u] ==
          s.(physPage := if held && u == PageOf(at) then curPage else if old(cur) >= cacheSize then NULL else s.physPage,
             hostStore := if marked then NULL else s.hostStore, userPage := !marked && s.userPage)
      ensures forall q :: ReadOnly(old(tlb), q) ==> ReadOnly(tlb, q)
      ensures tlb == EnteredTlb(old(tlb), old(cur) >= cacheSize, held, PageOf(at), curPage, pages[curPage].bitmap == 0, p)
    {
      hide CacheOk, PageOk, Round64, TlbOk, Linked, Invalidate, ClearPhysPages, SetPhysPage, ReadOnly;
      InOrder(tlb, pages, live);
      if cur >= cacheSize {
        ClearFlat(tlb, All);
        Reset();
      }
      var o := FindOrCreate(p);
      EnteredKeeps(tlb, held, PageOf(at), o, pages[o].bitmap == 0, p, pages, live);
      if held {
        SetPhysPageLinked(tlb, PageOf(at), o);
        tlb := SetPhysPage(tlb, PageOf(at), o);
      }
      if pages[o].bitmap == 0 {
        tlb := Invalidate(tlb, Phys(p), true);
      }
      curPage := o;
      nextIc := at % PAGE_SIZE / 4;
    }

    /**
     pc_to_pointers_generic. `v2p` and `hostOf` are the MMU and the RAM of the machine, `handler`
     where a failing translation sends the program counter. `held` says whether a real table, not
     the dummy, served the page before it was inserted (always so in 32-bit mode). The method
     fails, as the program does, only if the handler itself has no translation.
     */
    method PcToPointersGeneric(pc: Addr, v2p: Addr -> Option<Addr>, handler: Addr, hostOf: Addr -> Ptr,
                               held: bool, tick: nat) returns (ok: bool)
      requires Valid()
      modifies this
      ensures Valid()
      ensures ok <==> old(Translation(tlb, pc, v2p, handler)).Some?
      ensures ok ==>
        var (at, p) := old(Translation(tlb, pc, v2p, handler)).value;
        && Holds(curPage, p) && nextIc == at % PAGE_SIZE / 4
        && (pages[curPage].bitmap == 0 ==> ReadOnly(tlb, p))
        && (held && PageOf(at) in tlb.slots ==> tlb.slots[PageOf(at)].physPage == curPage)
        && (PageOf(at) in tlb.slots ==> tlb.slots[PageOf(at)].physAddr == p)
        && (hostOf(p) != NULL ==> PageOf(at) in tlb.slots)
        && (forall u :: u in tlb.slots && u != PageOf(at) ==> u in old(tlb).slots)
        && (PageOf(at) in tlb.slots && PageOf(at) !in old(tlb).slots ==>
              var s := tlb.slots[PageOf(at)]; s.hostLoad == hostOf(p) && s.hostStore == NULL && !s.userPage)
        && (PageOf(at) in tlb.slots && PageOf(at) in old(tlb).slots && pages[curPage].bitmap != 0 ==>
              var s := tlb.slots[PageOf(at)]; s == old(tlb).slots[PageOf(at)].(physPage := s.physPage))
        && var t := MappedTlb(width, old(tlb), at, p, hostOf(p), tick);
           Linked(t) && tlb == EnteredTlb(t, old(cur) >= cacheSize, held, PageOf(at), curPage, pages[curPage].bitmap == 0, p)
      ensures
        var s, h := Lookup(old(tlb), PageOf(pc)), Lookup(old(tlb), PageOf(handler));
        if s.hostLoad != NULL || v2p(pc).Some? then
          && ok && nextIc == pc % 0x1000 / 4
          && Holds(curPage, if s.hostLoad != NULL then s.physAddr else PageOf(v2p(pc).value))
        else
          && (ok <==> h.hostLoad != NULL || v2p(handler).Some?)
          && (ok ==>
                && nextIc == handler % 0x1000 / 4
                && Holds(curPage, if h.hostLoad != NULL then h.physAddr else PageOf(v2p(handler).value))
                && (PageOf(pc) != PageOf(handler) ==> PageOf(pc) !in tlb.slots))
      ensures !ok ==> unchanged(this)
      ensures old(Protected(tlb, pages, live)) ==> Protected(tlb, pages, live)
      ensures forall q :: ReadOnly(old(tlb), q) ==> ReadOnly(tlb, q)
    {
      hide CacheOk, PageOk, Round64, Coherent, Linked, NoDangling, Update, EnteredTlb, ReadOnly;
      MappedSlots(tlb, pages, live);
      var at := pc;
      var paddr := 0;
      var s := Lookup(tlb, PageOf(at));
      if s.hostLoad != NULL {
        paddr := s.physAddr;
      } else if v2p(at).Some? {
        paddr := v2p(at).value;
      } else {
        at := handler;
        s := Lookup(tlb, PageOf(at));
        if s.hostLoad != NULL {
          paddr := s.physAddr;
        } else if v2p(at).Some? {
          paddr := v2p(at).value;
        } else {
          return false;
        }
      }
      var p := PageOf(paddr);
      assert s.hostLoad != NULL ==> s.physAddr % PAGE_SIZE == 0 && p == s.physAddr;
      if s.hostLoad == NULL {
        var host := hostOf(p);
        if host != NULL {
          MapForAccess(PageOf(at), host, Access(false, false, false), p, tick);
        }
      }
      EnterPage(at, p, held);
      ok := true;
    }

    /** pc_to_pointers: a cached code-page pointer gives the same page as the generic lookup. */
    method PcToPointers(pc: Addr, v2p: Addr -> Option<Addr>, handler: Addr, hostOf: Addr -> Ptr,
                        held: bool, tick: nat) returns (ok: bool)
      requires Valid()
      modifies this
      ensures Valid()
      ensures
        var s, h := Lookup(old(tlb), PageOf(pc)), Lookup(old(tlb), PageOf(handler));
        if s.hostLoad != NULL || v2p(pc).Some? then
          && ok && nextIc == pc % 0x1000 / 4
          && Holds(curPage, if s.hostLoad != NULL then s.physAddr else PageOf(v2p(pc).value))
        else
          && (ok <==> h.hostLoad != NULL || v2p(handler).Some?)
          && (ok ==>
                && nextIc == handler % 0x1000 / 4
                && Holds(curPage, if h.hostLoad != NULL then h.physAddr else PageOf(v2p(handler).value))
                && (PageOf(pc) != PageOf(handler) ==> PageOf(pc) !in tlb.slots))
      ensures ok <==> old(Translation(tlb, pc, v2p, handler)).Some?
      ensures ok ==> Holds(curPage, old(Translation(tlb, pc, v2p, handler)).value.1)
      ensures !ok ==> unchanged(this)
      ensures old(Protected(tlb, pages, live)) ==> Protected(tlb, pages, live)
      ensures forall q :: ReadOnly(old(tlb), q) ==> ReadOnly(tlb, q)
    {
      hide CacheOk, PageOk, Coherent, Linked, Protected;
      MappedSlots(tlb, pages, live);
      var o := Lookup(tlb, PageOf(pc)).physPage;
      if o != NULL {
        curPage := o;
        nextIc := pc % PAGE_SIZE / 4;
        ok := true;
      } else {
        ok := PcToPointersGeneric(pc, v2p, handler, hostOf, held, tick);
      }
    }

    /**
     The tail of to_be_translated, for the instruction at an offset in the current page. Write
     protection survives exactly when the page was not writable at that moment.
     */
    method Translate(offset: nat)
      requires Valid() && curPage in live && offset < PAGE_SIZE && offset % 4 == 0
      modifies `pages
      ensures Valid() && pages[curPage].ics == old(pages[curPage]).ics[offset / 4 := true]
      ensures pages == old(pages)[curPage := pages[curPage]]
      ensures pages[curPage].physaddr == old(pages[curPage]).physaddr && pages[curPage].bitmap != 0
      ensures old(Protected(tlb, pages, live)) ==>
        (Protected(tlb, pages, live) <==> ReadOnly(tlb, pages[curPage].physaddr))
    {
      CacheFacts(Contents(), live, size, cacheSize);
      hide CacheOk, Coherent, Linked, NoDangling, WholePages, ReadOnly;
      var page := pages[curPage];
      var x := offset / (PAGE_SIZE / N_RANGES);
      var page' := page.(bitmap := SetBit(page.bitmap, x), ics := page.ics[offset / 4 := true]);
      MarkedPageOk(page, offset);
      ReplaceOk(Contents(), live, size, cacheSize, curPage, page');
      TlbOkFrame(tlb, pages, live, pages[curPage := page'], live);
      pages := pages[curPage := page'];
    }

    /** Take back every translation of a page, if its bitmap shows any. */
    method ClearPage(o: nat)
      requires Ready() && o in live && o in pages
      modifies `pages
      ensures Ready() && pages == old(pages)[o := old(pages[o]).(ics := seq(ENTRIES, _ => false), bitmap := 0)]
    {
      hide CacheOk;
      CacheFacts(Contents(), live, size, cacheSize);
      if pages[o].bitmap == 0 {
        BlankPage(pages[o]);
        return;
      }
      var ics := ClearRanges(pages[o], clearsWholePage);
      var page' := pages[o].(ics := ics, bitmap := 0);
      ReplaceOk(Contents(), live, size, cacheSize, o, page');
      pages := pages[o := page'];
    }

    /**
     invalidate_code_translation, for a physical page: whatever the tables say of it, its translations
     are gone.
     */
    method TakeBack(p: Addr)
      requires Ready() && Linked(tlb) && p % PAGE_SIZE == 0
      modifies `pages, `tlb
      ensures Ready() && (old(Valid()) ==> Valid())
      ensures tlb == if exists o :: old(Holds(o, p)) then ClearPhysPages(old(tlb), Phys(p)) else old(tlb)
      ensures forall o :: Holds(o, p) ==> pages[o].bitmap == 0 && pages[o].ics == seq(ENTRIES, _ => false)
      ensures forall o :: o in live ==> o in pages && o in old(pages) && pages[o].physaddr == old(pages)[o].physaddr
      ensures forall o :: o in live && !Holds(o, p) ==> pages[o] == old(pages)[o]
      ensures (forall o :: !old(Holds(o, p))) ==> pages == old(pages)
    {
      hide CacheOk, TlbOk, Linked, ClearPhysPages, PageOk, Round64;
      OnePageEach(Contents(), live, size, cacheSize);
      var o := Find(p);
      if o == 0 {
        assert !exists q :: old(Holds(q, p)) by { assert forall q :: old(Holds(q, p)) <==> Holds(q, p); }
        return;
      }
      assert old(Holds(o, p));
      ClearPage(o);
      if old(Valid()) {
        TlbOkFrame(tlb, old(pages), live, pages, live);
        ClearKeeps(tlb, Phys(p), pages, live);
      }
      tlb := ClearPhysPages(tlb, Phys(p));
    }

    /** invalidate_code_translation. */
    method InvalidateCode(target: Target)
      requires Valid() && !target.Masked? && (target.Phys? ==> target.page % PAGE_SIZE == 0)
      modifies `pages, `tlb
      ensures Valid()
      ensures tlb == if target.Phys? && forall o :: !old(Holds(o, target.page)) then old(tlb) else ClearPhysPages(old(tlb), target)
      ensures target.Phys? ==> forall o :: Holds(o, target.page) ==>
        pages[o].bitmap == 0 && pages[o].ics == seq(ENTRIES, _ => false)
      ensures forall o :: o in live && !(target.Phys? && Holds(o, target.page)) ==>
        o in pages && o in old(pages) && pages[o] == old(pages)[o]
      ensures forall o :: o in live ==> o in pages && o in old(pages) && pages[o].physaddr == old(pages)[o].physaddr
      ensures forall q :: ReadOnly(tlb, q) <==> ReadOnly(old(tlb), q)
      ensures old(Protected(tlb, pages, live)) ==> Protected(tlb, pages, live)
    {
      hide CacheOk, Coherent, Linked, NoDangling, WholePages, ReadOnly, ClearPhysPages;
      LiveInPages(Contents(), live, size, cacheSize);
      ClearFlat(tlb, target);
      if target.Phys? {
        TakeBack(target.page);
      } else {
        ClearKeeps(tlb, target, pages, live);
        tlb := ClearPhysPages(tlb, target);
      }
    }

    /**
     The RAM path of memory_rw: map the page, writable if `mayWrite` or a write is under way, then
     take back translations of the page on a write, or on a data access that made it writable.
     The tables stay in order exactly when the page keeps its physical page, and its host page if it is
     written to.  Write protection survives, in either case, exactly when a page that becomes writable,
     and whose translations are not taken back, has none.
     */
    method MemoryRw(v: Addr, host: Ptr, p: Addr, writing: bool, mayWrite: bool, kind: CacheKind, user: bool, tick: nat)
      requires Valid() && p % PAGE_SIZE == 0 && host != NULL
      modifies `pages, `tlb
      ensures Ready() && Linked(tlb)
      ensures
        var a := Access(Grants(writing, mayWrite, kind), false, user);
        var t := Update(width, old(tlb), v, host, a, p, tick);
        var clears := TakesBack(writing, mayWrite, kind) && exists o :: old(Holds(o, p));
        && Linked(t) && tlb == (if clears then ClearPhysPages(t, Phys(p)) else t)
        && (Valid() <==> KeepsCoherence(old(tlb), v, host, a, p))
      ensures v in tlb.slots && tlb.slots[v].physAddr == p
      ensures (if kind.Instruction? then !writing else !mayWrite) ==> forall q :: ReadOnly(old(tlb), q) ==> ReadOnly(tlb, q)
      ensures (if kind.Instruction? then writing else mayWrite) ==> tlb.slots[v].hostStore == host
      ensures writing || (mayWrite && kind.Data?) ==> forall o :: Holds(o, p) ==>
        pages[o].bitmap == 0 && pages[o].ics == seq(1024, _ => false) && (Valid() ==> tlb.slots[v].physPage == NULL)
      ensures !writing && !(mayWrite && kind.Data?) ==> pages == old(pages)
      ensures forall o :: o in live && !(Holds(o, p) && TakesBack(writing, mayWrite, kind)) ==>
        o in pages && o in old(pages) && pages[o] == old(pages)[o]
      ensures forall o :: o in live ==> o in pages && o in old(pages) && pages[o].physaddr == old(pages)[o].physaddr
      ensures forall q :: ReadOnly(old(tlb), q) && (q != p || !Grants(writing, mayWrite, kind)) ==> ReadOnly(tlb, q)
      ensures old(Protected(tlb, pages, live)) ==>
        (Protected(tlb, pages, live) <==>
          (!Grants(writing, mayWrite, kind) || TakesBack(writing, mayWrite, kind) ||
           forall o :: old(Holds(o, p)) ==> old(pages[o]).bitmap == 0))
    {
      hide CacheOk, TlbOk, Update, ClearPhysPages, ReadOnly, Linked, Coherent, KeepsCoherence, PageOk;
      LiveInPages(Contents(), live, size, cacheSize);
      var a := Access(Grants(writing, mayWrite, kind), false, user);
      InOrder(tlb, pages, live);
      AccessMaps(width, tlb, v, host, a, p, tick, pages, live);
      ghost var t := Update(width, tlb, v, host, a, p, tick);
      ClearFlat(t, Phys(p));
      ClearHits(t, Phys(p));
      tlb := Update(width, tlb, v, host, a, p, tick);
      assert forall o :: Holds(o, p) <==> old(Holds(o, p));
      assert (exists o :: Holds(o, p)) <==> (exists o :: old(Holds(o, p)));
      if TakesBack(writing, mayWrite, kind) {
        TakeBack(p);
      }
      OrderNeeds(tlb, pages, live);
      assert forall o :: Holds(o, p) <==> old(Holds(o, p));
      if a.write { WritableAt(tlb, v, p); }
    }

    /** update_translation_table for an access that keeps the tables in order. */
    method MapForAccess(v: Addr, host: Ptr, a: Access, p: Addr, tick: nat)
      requires Valid() && host != NULL && p % PAGE_SIZE == 0 && !a.downgrade && KeepsCoherence(tlb, v, host, a, p)
      modifies `tlb
      ensures Valid() && Linked(tlb) && v in tlb.slots && tlb.slots[v].physAddr == p
      ensures tlb == Update(width, old(tlb), v, host, a, p, tick)
      ensures v !in old(tlb).slots ==>
        var s := tlb.slots[v];
        s.hostLoad == host && s.hostStore == (if a.write then host else NULL) && s.userPage == (width == Bits32 && a.user)
      ensures forall u :: u in tlb.slots && u != v ==> u in old(tlb).slots
      ensures a.write ==> tlb.slots[v].hostStore == host
      ensures forall q :: ReadOnly(old(tlb), q) && (q != p || !a.write) ==> ReadOnly(tlb, q)
    {
      UpdateKeeps(width, tlb, v, host, a, p, tick, pages, live);
      UpdateMaps(width, tlb, v, host, a, p, tick);
      hide CacheOk, Coherent, NoDangling, Update;
      tlb := Update(width, tlb, v, host, a, p, tick);
    }

    /** invalidate_translation_caches. */
    method InvalidateTranslations(target: Target, mark: bool)
      requires Valid()
      modifies `tlb
      ensures Valid() && tlb == Invalidate(old(tlb), target, mark)
      ensures old(Protected(tlb, pages, live)) ==> Protected(tlb, pages, live)
      ensures forall q :: ReadOnly(old(tlb), q) ==> ReadOnly(tlb, q)
    {
      hide CacheOk, Coherent, Linked, NoDangling, WholePages, Invalidate, ReadOnly;
      InvalidateKeeps(tlb, target, mark, pages, live);
      tlb := Invalidate(tlb, target, mark);
    }
  }

  /**
   Write protection is lost when code goes on being translated on a page that it has just written to:
   the store takes the page's translations back and makes it writable, the next instruction on the
   page is translated again, and nothing protects the page.
   */
  method OwnPageStore() returns (cpu: Cpu)
    ensures fresh(cpu) && cpu.Valid() && !Protected(cpu.tlb, cpu.pages, cpu.live)
    ensures 0x1000 in cpu.tlb.slots && cpu.tlb.slots[0x1000].physPage == NULL
  {
    hide CacheOk, TlbOk, Update, Invalidate, ClearPhysPages, EnteredTlb, Round64;
    assert Round64(64) <= MARGIN by { RoundSmall(); }
    cpu := new Cpu(Bits32, true, START + 1, 64, 1);
    var ok := cpu.PcToPointersGeneric(0x1000, _ => Some(0x5000), 0, _ => 7, true, 0);
    cpu.Translate(0);
    assert Protected(cpu.tlb, cpu.pages, cpu.live);
    cpu.MemoryRw(0x1000, 7, 0x5000, true, true, Data, false, 0);
    assert Protected(cpu.tlb, cpu.pages, cpu.live);
    cpu.Translate(4);
  }

  lemma RoundSmall()
    ensures Round64(64) == 64
  {
  }
}
