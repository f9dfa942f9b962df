# Verified core of GXemul

GXemul runs guest machine code by translating it into arrays of call records. It keeps caches over guest
memory and over translated code, and it replaces some guest instruction sequences by single host functions.
This project models the parts where those shortcuts have to agree with something simpler, and proves that they do,
or exactly when they do.

| file | what it models |
|---|---|
| `FlatTlb.dfy` | the array `vph_tlb_entry` with one slot per virtual page: the meaning of update and invalidation |
| `Arena.dfy`, `Tables64.dfy`, `Geometry.dfy`, `Tlb64.dfy` | the three-level tables of 64-bit mode: reference counts, shared dummies, free lists |
| `Tlb32.dfy` | the direct-mapped tables of 32-bit mode |
| `CodeCache.dfy`, `Cpu32.dfy`, `Cpu64.dfy` | the translation cache of code pages, with the address-translation tables that point into it: flat, and the real ones of both modes |
| `CodeRuns.dfy` | runs of a CPU with its code cache, and write protection over them |
| `Arm.dfy`, `CompareBranch.dfy`, `FusedLoops.dfy`, `FusedSequences.dfy` | ARM instruction fusion |
| `RegisterBanks.dfy` | ARM modes, banked registers, exception entry and return |
| `BlockTransfer.dfy` | ARM store multiple and load multiple |
| `Reservations.dfy` | load-linked and store-conditional, ARM and Alpha, any number of processors |
| `MipsUnaligned.dfy`, `AlphaBytes.dfy`, `Umulh.dfy`, `FloatEmul.dfy` | byte, multiplication and floating-point kernels |
| `DeviceMap.dfy` | the table of memory-mapped devices and its search |
| `Bits.dfy`, `Bytes.dfy`, `Wrappers.dfy` | shifts, masks, bytes and options |

State that the program changes in place is held in classes (`TranslationTables`, `Cpu`, `Machine`, `Memory`), whose
methods follow the branches and loops of the C code. Each method is tied to a function on values, and the
theorems are about those functions. Host pointers are numbers: 0 is `NULL`, or the dummy table.

## What holds, and under which conditions

- Fast lookup refines the linear array after any run of updates and invalidations, in both modes. The array and the
  slot stay coherent after an update exactly when a live page keeps its physical page, and its host page if it becomes
  writable, a page that is not mapped yet is not downgraded, and its host page is not `NULL`
  (`FlatTlb.UpdateCoherentIff`, `FlatTlb.RemapCounterexample`, `FlatTlb.TwoHostPages`).
- The comment at `src/cpus/cpu_dyntrans.c:820-824` says that a page that already holds translations is not
  writable. `CodeCache.OwnPageStore` is a run after which it is: code writes to its own page and goes on being
  translated. `CodeCache.Cpu.Translate` and `CodeCache.Cpu.MemoryRw` say exactly when one step keeps protection, and
  `CodeRuns.Perform` when a whole run does. A run loses it only at a translation on a page that an access has made
  writable since it was entered, or at an access that makes a page writable and leaves its translations
  (`CodeRuns.ExposedMeansGranted`, `CodeRuns.WriteProtection`).
- An update that gives a live virtual page another physical page leaves a stale code-page
  pointer in 64-bit mode only (`CodeCache.UpdateDanglingIff`, `CodeCache.RemapDangles`): 32-bit mode clears the pointer, 64-bit mode has the
  line commented out.
- Fused `teqs` and `tsts` branches leave the carry alone, the plain instructions do not
  (`CompareBranch.FusedTestBranch`). The fused memset, copyin and copyout need a word-aligned base; the fused
  exchange needs two registers, or a zero; the fused strlen needs a base other than r3, where the byte goes, or one that
  compares with zero as the byte does (`FusedLoops.StrlenOneTurn`, `FusedLoops.StrlenOwnBase`); a fused memset that
  counts in ip goes the wrong way (`FusedLoops.MemsetOwnCounter`). The fused memset also counts too few instructions. It is in fact never
  installed: for its closing `bgt` the check for compare-and-branch fusion at `src/cpus/cpu_arm_instr.c:3727-3730`
  replaces the one for memset set at 3666-3668.
- A removal of the final device that was also the last one accessed leaves the index of the last access outside the table
  (`DeviceMap.Memory.Remove`), and the removed device can go on answering (`DeviceMap.RemovedAnswers`); a device in the last page of the address space makes the upper bound wrap to zero,
  and one of no length, or that wraps around, breaks the order of the table (`DeviceMap.Memory.Register`).
- The Alpha store-conditional does not compare addresses (`Reservations.AlphaIgnoresAddress`), so what it promises holds
  of the word stored to iff that is the word linked (`Reservations.GrantedSeesIff`). Ordinary stores
  take no reservation away in either scheme (`Reservations.PlainStoreIsLost`); a run keeps all reservations true iff no
  ordinary store changes a linked word (`Reservations.RunCurrentIff`).
- Single-precision overflow gives a NaN and not an infinity unless the fraction is zero; underflow loses the sign
  (`FloatEmul.OverflowIsNaN`, `FloatEmul.UnderflowIsZero`).

## Model

| member | source | states |
|---|---|---|
| `FlatTlb.StepLinked` | src/cpus/cpu_dyntrans.c:1493-1770 | every update, invalidation and code-pointer write keeps slot and entry linked one to one: slot v holds index r+1 exactly when entry r is valid for page v |
| `FlatTlb.UpdateCoherentIff` | src/cpus/cpu_dyntrans.c:1572-1736 | an update keeps slot and entry coherent (load and store host pages, physical page, writability) if and only if a live page keeps its physical page, and its host page if it becomes writable, an unmapped page is not downgraded, and its host page is non-NULL |
| `FlatTlb.UpdateMaps` | src/cpus/cpu_dyntrans.c:1572-1736 | after an update the page leads to the given physical and host page, is writable as asked, and has the user bit and code pointer of its mode; its entry is the victim's or its own; every other page keeps its slot and every other entry stays, but for at most the victim's page on a miss |
| `FlatTlb.RemapCounterexample` | src/cpus/cpu_dyntrans.c:1731-1736 | the remap branch leaves the array's physical page behind, and an invalidation by the new physical page then misses the slot |
| `FlatTlb.TwoHostPages` | src/cpus/cpu_dyntrans.c:1726-1730 | a live page made writable with another host page loads from one place and stores to another |
| `FlatTlb.StepCoherent` | src/cpus/cpu_dyntrans.c:1215-1312 | one operation of any kind keeps coherence exactly when it is well behaved |
| `FlatTlb.RunCoherent` | src/cpus/cpu_dyntrans.c:1493-1770 | coherence holds after every run of well-behaved operations |
| `FlatTlb.LookupRefinesEntries` | src/cpus/cpu_dyntrans.c:1541-1736 | in a coherent state slot v holds r+1 iff entry r is valid with page v; then host_load is the entry's non-NULL host page, phys_addr its physical page, and a non-NULL host_store is that host page, too, and implies the writeflag |
| `FlatTlb.InvalidateRemoves` | src/cpus/cpu_dyntrans.c:1226-1296 | after a full invalidation no remaining slot matches the target, every slot that did not match is untouched, and for ALL none is left |
| `FlatTlb.MaskedInvalidates` | src/cpus/cpu_dyntrans.c:1236-1250 | an invalidation by virtual address under a mask drops, or write-protects, exactly the pages that agree with the given one in every bit of the mask |
| `FlatTlb.OthersInvalidate` | src/cpus/cpu_dyntrans.c:1226-1311 | the other invalidations concern exactly the page, the entries of the physical page, or everything; so does the clearing of code pointers |
| `FlatTlb.InvalidatePhysRemoves` | src/cpus/cpu_dyntrans.c:1298-1311 | after an invalidation by physical page no slot maps that page |
| `FlatTlb.MarkPhysProtects` | src/cpus/cpu_dyntrans.c:1298-1311 | a mark-only invalidation by physical page keeps every mapping, makes that page read-only in every slot and entry and changes nothing else |
| `FlatTlb.PageIsEntry` | src/cpus/cpu_dyntrans.c:1226-1232 | the 32-bit quick case for one virtual page equals the scan over all entries for that page |
| `Tables64.PutSlotShape` | src/cpus/cpu_dyntrans.c:1654-1659 | writing a slot of a live third-level table keeps counts, ownership and free lists, and changes the walk at that one address only |
| `Tables64.DropL3Shape` | src/cpus/cpu_dyntrans.c:1160-1177 | returning an empty third-level table to the free list keeps all tables well formed and every lookup the same |
| `Tables64.DropL2Shape` | src/cpus/cpu_dyntrans.c:1182-1187 | the same for an empty second-level table |
| `Tables64.TakeL2Shape` | src/cpus/cpu_dyntrans.c:1606-1627 | a second-level table from the free list or fresh is unused, clean and owned by one index, and no lookup changes |
| `Tables64.TakeL3Shape` | src/cpus/cpu_dyntrans.c:1632-1648 | the same for a third-level table, which is the head of the free list when there is one |
| `PageGeometry.JoinSplit` | src/cpus/cpu_dyntrans.c:1045-1047 | the three indices of an address give back its page |
| `PageGeometry.SlicedIsLawful` | src/cpus/cpu_dyntrans.c:1045-1047 | for level bits and page bits that add up to 64 the index slices are a bijection on pages |
| `Tlb64.DropPageInv` | src/cpus/cpu_dyntrans.c:1134-1188 | removing one page keeps the whole invariant: third-level counts equal used slots, second-level counts equal non-dummy tables, no table shared or both live and free, free tables clean, dummies never written |
| `Tlb64.InsertPageInv` | src/cpus/cpu_dyntrans.c:1606-1659 | adding one page keeps the same invariant and reuses the table that was just freed if there was one |
| `Tlb64.InvPassesChecks` | src/cpus/cpu_dyntrans.c:1062-1104 | the invariant with coherence makes every check of both BUGHUNT blocks pass for every live table |
| `Tlb64.NothingMapped` | src/cpus/cpu_dyntrans.c:1160-1187 | with nothing mapped every first-level entry is the dummy and every table ever allocated is on exactly one free list |
| `Tlb64.TranslationTables.constructor` | src/cpus/cpu_dyntrans.c:980-990 | tables in which every pointer leads to the dummies are well formed and mean no mapping |
| `Tlb64.TranslationTables.LookupSlot` | src/cpus/cpu_dyntrans.c:1558-1568 | the three-level walk returns what the flat table holds |
| `Tlb64.TranslationTables.WalkTo` | src/cpus/cpu_dyntrans.c:878-883 | the walk gives the slot of the flat table and the third-level table that serves the page |
| `Tlb64.TranslationTables.RemovePage` | src/cpus/cpu_dyntrans.c:1134-1188 | in-place removal of a page and of the tables that become empty |
| `Tlb64.TranslationTables.MarkEntry` | src/cpus/cpu_dyntrans.c:1057-1060 | in-place marking refines the flat operation and keeps the invariant |
| `Tlb64.TranslationTables.DropEntry` | src/cpus/cpu_dyntrans.c:1134-1188 | in-place removal refines the flat operation and keeps the invariant |
| `Tlb64.TranslationTables.InvalidateEntry` | src/cpus/cpu_dyntrans.c:1007-1190 | either of the two, with the early returns at the dummies, refines the flat operation |
| `Tlb64.TranslationTables.InsertSlot` | src/cpus/cpu_dyntrans.c:1606-1659 | in-place insertion with allocation or recycling of tables |
| `Tlb64.TranslationTables.LinkL3` | src/cpus/cpu_dyntrans.c:1632-1648 | a dummy third-level table is replaced by the head of the free list or a fresh one, and counted |
| `Tlb64.TranslationTables.EvictEntry` | src/cpus/cpu_dyntrans.c:1577-1582 | evicting the victim refines the flat eviction; a table held for another page survives or is the head of the free list |
| `Tlb64.TranslationTables.Install` | src/cpus/cpu_dyntrans.c:1584-1659 | a new entry refines the flat installation |
| `Tlb64.TranslationTables.Refresh` | src/cpus/cpu_dyntrans.c:1685-1736 | an update of a live page refines the flat update, remap branch included |
| `Tlb64.TranslationTables.Update` | src/cpus/cpu_dyntrans.c:1493-1770 | update_translation_table refines the flat update and keeps the invariant; a third-level table held for the page stays the table of that page |
| `Tlb64.TranslationTables.Invalidate` | src/cpus/cpu_dyntrans.c:1215-1312 | the scans refine the flat invalidation; after ALL every table is back on a free list |
| `Tlb64.TranslationTables.SetPhysPage` | src/cpus/cpu_dyntrans.c:815-818 | the code-page pointer is written through a table held from before, and only while that is safe |
| `Tlb64.TranslationTables.ClearPhysPages` | src/cpus/cpu_dyntrans.c:1447-1481 | the scan that clears code-page pointers refines the flat one |
| `Tlb64.TranslationTables.Perform` | src/cpus/cpu_dyntrans.c:1493-1770 | any sequence of operations keeps the tables well formed and ends in the state of the flat run |
| `Tlb32.TranslationTables.LookupSlot` | src/cpus/cpu_dyntrans.c:1550-1556 | the direct-mapped arrays return what the flat table holds |
| `Tlb32.TranslationTables.InvalidateEntry` | src/cpus/cpu_dyntrans.c:1015-1035 | refines the flat operation, the user-page bit included |
| `Tlb32.TranslationTables.Update` | src/cpus/cpu_dyntrans.c:1572-1718 | refines the flat update |
| `Tlb32.TranslationTables.Invalidate` | src/cpus/cpu_dyntrans.c:1215-1312 | refines the flat invalidation |
| `Tlb32.TranslationTables.SetPhysPage` | src/cpus/cpu_dyntrans.c:812-814 | refines the flat write of the code-page pointer |
| `Tlb32.TranslationTables.ClearPhysPages` | src/cpus/cpu_dyntrans.c:1447-1481 | refines the flat clearing of code-page pointers |
| `Tlb32.TranslationTables.Perform` | src/cpus/cpu_dyntrans.c:1493-1770 | any sequence of operations ends in the state of the flat run |
| `CodeCache.RoundsUp` | src/cpus/cpu_dyntrans.c:592-611 | the cache offset is rounded up to the next multiple of 64 |
| `CodeCache.SameChainIff` | src/cpus/cpu_dyntrans.c:755-775 | two pages are in the same hash chain iff they lie a multiple of 256 MB apart |
| `CodeCache.AllocateOk` | src/cpus/cpu_dyntrans.c:592-611 | a new page keeps the cache in order: offsets decrease along chains, chains hold their own table index, one page per physical address, pages disjoint and reachable |
| `CodeCache.ReplaceOk` | src/cpus/cpu_dyntrans.c:1395-1443 | rewriting a page's records keeps that order |
| `CodeCache.UpdateDanglingIff` | src/cpus/cpu_dyntrans.c:1720-1736 | an update leaves no dangling code-page pointer if and only if the page is new, the mode is 32-bit, the physical page stays, or there was no pointer |
| `CodeCache.RemapDangles` | src/cpus/cpu_dyntrans.c:1720-1736 | a page with a code page, given another physical page: the pointer dangles in 64-bit mode and not in 32-bit mode |
| `CodeCache.UpdateTlbOkIff` | src/cpus/cpu_dyntrans.c:1572-1736 | the updates that keep the tables and the code-page pointers in order are exactly those that keep coherence |
| `CodeCache.UpdateKeeps` | src/cpus/cpu_dyntrans.c:1572-1736 | a coherent update keeps all pointers valid and makes no other page writable |
| `CodeCache.MarkKeeps` | src/cpus/cpu_dyntrans.c:825-828 | marking a page non-writable protects every mapping of it and disturbs no pointer |
| `CodeCache.ClearFlat` | src/cpus/cpu_dyntrans.c:1447-1481 | in any linked tables it keeps entries, mappings, coherence and write permissions, and drops pointers only |
| `CodeCache.ClearHits` | src/cpus/cpu_dyntrans.c:1447-1481 | after ALL no slot has a pointer; in coherent tables none of the physical page is left |
| `CodeCache.ClearKeeps` | src/cpus/cpu_dyntrans.c:1447-1481 | clearing code-page pointers keeps tables and pointers in order |
| `CodeCache.EnteredKeeps` | src/cpus/cpu_dyntrans.c:810-828 | what the guarded pointer store and the write protection do to every slot; pointers stay valid and other pages read-only |
| `CodeCache.AccessMaps` | src/cpus/memory_rw.c:492-503 | an access to RAM leaves the tables in order exactly if it keeps coherence; in any case the page is mapped, writable as granted, and no other page becomes writable |
| `CodeCache.ClearRanges` | src/cpus/cpu_dyntrans.c:1395-1431 | the loops over the bitmap leave every record of the page to be translated, on ARM and elsewhere |
| `CodeCache.OwnPageStore` | src/cpus/cpu_dyntrans.c:820-828 | a run from an empty cache in which code writes to its own page, goes on being translated, and leaves a writable page with translations |
| `CodeCache.Cpu.PagesFit` | src/cpus/cpu.c:298-310 | every page fits the buffer when the margin covers one rounded page |
| `CodeCache.Cpu.Reset` | src/cpus/cpu.c:298-318 | after a reset the cache is empty and no code-page pointer is left |
| `CodeCache.Cpu.Find` | src/cpus/cpu_dyntrans.c:762-775 | the chain traversal ends and finds the page for a physical address exactly when there is one |
| `CodeCache.Cpu.FindOrCreate` | src/cpus/cpu_dyntrans.c:755-808 | an existing page is returned and nothing changes; otherwise one new page is put first in its chain |
| `CodeCache.Cpu.Insert` | src/cpus/cpu_dyntrans.c:783-807 | the bump allocation of a page, as a function of the old cache |
| `CodeCache.Cpu.EnterPage` | src/cpus/cpu_dyntrans.c:755-833 | after a possible reset the current page is the one for the physical address, pointers stay valid, a page with an empty bitmap is read-only, and every slot is as the reset, the pointer store and the protection leave it |
| `CodeCache.Cpu.PcToPointersGeneric` | src/cpus/cpu_dyntrans.c:622-833 | if the tables or the MMU translate the program counter, execution goes on there; otherwise at the handler if they translate that, and the page of the program counter is not mapped; whatever a reset on the way does, the current page is right and no pointer dangles; the resulting tables as a function of the old ones |
| `CodeCache.Cpu.MapForAccess` | src/cpus/cpu_dyntrans.c:741-753 | mapping a page keeps pointers valid and makes no other page writable |
| `CodeCache.Cpu.PcToPointers` | src/cpus/cpu_dyntrans.c:854-900 | the quick path leads to the page, the record and, on failure, the handler that the generic one leads to |
| `CodeCache.Cpu.Translate` | src/cpus/cpu_dyntrans.c:1824-1837 | a translated record lies in a range whose bit is set; pages with translations stay read-only exactly if this one is |
| `CodeCache.Cpu.TakeBack` | src/cpus/cpu_dyntrans.c:1371-1481 | taking back the code of a physical page works whatever the tables say of it: its records and pointers go, no other page changes |
| `CodeCache.Cpu.InvalidateCode` | src/cpus/cpu_dyntrans.c:1338-1481 | an invalidation by physical address leaves every record of that page to be translated and other pages alone; no invalidation of code changes what is writable |
| `CodeCache.Cpu.MemoryRw` | src/cpus/memory_rw.c:492-514 | an instruction fetch makes nothing writable, other accesses with permission do; translations are taken back on a write, or on a data access with permission, and otherwise no code page changes; the tables stay in order iff the page keeps its physical page, and its host page if it becomes writable; code pages stay read-only exactly in the stated cases |
| `CodeCache.Cpu.InvalidateTranslations` | src/cpus/cpu_dyntrans.c:1215-1312 | invalidation keeps code pages read-only and all pointers valid |
| `Cpu64.Cpu.constructor` | src/cpus/cpu_dyntrans.c:980-990 | the cache and the three-level tables start out meaning the same, for any level sizes with 4 KB pages |
| `Cpu64.Cpu.Locate` | src/cpus/cpu_dyntrans.c:636-739 | the address translation on the real tables is the one on the flat table, and gives the third-level table of the page |
| `Cpu64.Cpu.Enter` | src/cpus/cpu_dyntrans.c:741-833 | insertion, eviction, reset, pointer store through the table held from before, and write protection do to the real tables what they do to the flat one |
| `Cpu64.Cpu.PcToPointersGeneric` | src/cpus/cpu_dyntrans.c:622-833 | on the real tables, with the third-level table that the walk found before the insertion: execution goes on at the program counter or at the handler as in the flat case, the current page is right, no pointer dangles, and the pointer is stored iff that table was not the dummy |
| `Cpu64.Cpu.PcToPointers` | src/cpus/cpu_dyntrans.c:854-900 | on the real tables: the quick path leads where the generic one does |
| `Cpu64.Cpu.MemoryRw` | src/cpus/memory_rw.c:492-514 | on the real tables: an instruction fetch makes nothing writable, other accesses with permission do; translations are taken back on a write, or on a data access with permission, and otherwise no code page changes; they stay in step with the cache whatever the access, and in order iff the page keeps its physical page, and its host page if it becomes writable |
| `Cpu64.Cpu.InvalidateCode` | src/cpus/cpu_dyntrans.c:1338-1481 | code invalidation on the real tables keeps them in step with the cache and code pages read-only |
| `Cpu64.Cpu.InvalidateTranslations` | src/cpus/cpu_dyntrans.c:1215-1312 | so does invalidation of translations |
| `Cpu64.Cpu.Translate` | src/cpus/cpu_dyntrans.c:1824-1837 | so does the translation of an instruction, exactly if its page is read-only |
| `Cpu32.Cpu.constructor` | src/cpus/cpu_dyntrans.c:980-990 | in 32-bit mode the cache and the directly indexed arrays start out meaning the same |
| `Cpu32.Cpu.Locate` | src/cpus/cpu_dyntrans.c:636-739 | the address translation on the arrays is the one on the flat table |
| `Cpu32.Cpu.Enter` | src/cpus/cpu_dyntrans.c:741-833 | insertion, eviction, reset, pointer store and write protection do to the arrays what they do to the flat table |
| `Cpu32.Cpu.PcToPointersGeneric` | src/cpus/cpu_dyntrans.c:622-833 | on the arrays: execution goes on at the program counter or at the handler as in the flat case, the current page is right, no pointer dangles, and the pointer is always stored when the page is mapped |
| `Cpu32.Cpu.PcToPointers` | src/cpus/cpu_dyntrans.c:854-900 | on the arrays: the quick path leads where the generic one does |
| `Cpu32.Cpu.MemoryRw` | src/cpus/memory_rw.c:492-514 | on the arrays: an instruction fetch makes nothing writable, other accesses with permission do; translations are taken back on a write, or on a data access with permission, and otherwise no code page changes; they stay in step with the cache whatever the access, and in order iff the page keeps its physical page, and its host page if it becomes writable |
| `Cpu32.Cpu.InvalidateCode` | src/cpus/cpu_dyntrans.c:1338-1481 | code invalidation on the arrays keeps them in step with the cache and code pages read-only |
| `Cpu32.Cpu.InvalidateTranslations` | src/cpus/cpu_dyntrans.c:1215-1312 | so does invalidation of translations |
| `Cpu32.Cpu.Translate` | src/cpus/cpu_dyntrans.c:1824-1837 | so does the translation of an instruction, exactly if its page is read-only |
| `CodeRuns.Do` | src/cpus/cpu_dyntrans.c:622-900 | one operation of a guest: when it keeps write protection, which page it may make writable, which page runs after it |
| `CodeRuns.Perform` | src/cpus/cpu_dyntrans.c:820-828 | any run, up to the first operation that cannot go on, keeps the cache in order; translations are protected at every moment iff they are at first and each operation is safe in its time |
| `CodeRuns.GuardedIff` | src/cpus/cpu_dyntrans.c:820-828 | the same on the moments of a run |
| `CodeRuns.WritableMeansGranted` | src/cpus/cpu_dyntrans.c:820-828 | a page that was read-only and is writable later has been granted write permission by an access in between |
| `CodeRuns.ExposedMeansGranted` | src/cpus/cpu_dyntrans.c:820-828 | a translation exposes the page it is on only if an access has made it writable since it was entered |
| `CodeRuns.WriteProtection` | src/cpus/cpu_dyntrans.c:820-828 | if every translation is on a page entered and not made writable since, and no access makes a page writable and leaves translations on it, no page with translations is ever writable |
| `Arm.TablesMean` | src/cpus/cpu_arm_instr.c:128-130 | the 16-entry tables are the HI, GE and GT conditions on the flags |
| `Arm.ComparisonMeans` | src/cpus/cpu_arm_instr_dpi.c:243-298 | after a comparison the condition codes order the operands, unsigned and signed |
| `Arm.FlagsMean` | src/cpus/cpu_arm_instr_dpi.c:243-298 | the four flags of a comparison: top bit of the difference, equality, no borrow, signed overflow |
| `Arm.GateBits` | src/cpus/cpu_arm_instr.c:2455-2529 | and and exclusive or work bit by bit |
| `CompareBranch.BranchArrives` | src/cpus/cpu_arm_instr.c:3681-3719 | a branch, translated within its page or out of it, leads to its own address plus eight plus the sign-extended offset, and to the next instruction if not taken |
| `CompareBranch.CombinesIff` | src/cpus/cpu_arm_instr.c:2795-2889 | exactly these pairs of records are fused |
| `CompareBranch.FusedCompareBranch` | src/cpus/cpu_arm_instr.c:2183-2529 | for all operands each fused compare and branch equals the compare followed by the branch, in flags, next record or PC, and instruction count |
| `CompareBranch.FusedTestBranch` | src/cpus/cpu_arm_instr.c:2795-2889 | a fused teqs or tsts branch equals the two instructions in a state iff the immediate is at most 255 or the carry is already its top bit |
| `CompareBranch.FusedTestBranchAlways` | src/cpus/cpu_arm_instr.c:2795-2889 | and in every state iff the immediate is at most 255 |
| `FusedLoops.PutWordBytes` | src/cpus/cpu_arm_instr.c:2155-2177 | a word store changes four bytes, lowest first |
| `FusedLoops.CrossingIsSlow` | src/cpus/generate_arm_multi.c:114-140 | a store of two words that would cross a page goes the slow way |
| `FusedLoops.MatchedStore` | src/cpus/cpu_arm_instr.c:2566-2569 | the matched store names ip as base and the list r2, r3 |
| `FusedLoops.MemsetTurn` | src/cpus/cpu_arm_instr.c:1819-1865 | eighteen steps of the plain loop clear 128 bytes at the word offset of ip, whatever register counts |
| `FusedLoops.MemsetTurnIff` | src/cpus/cpu_arm_instr.c:1819-1865 | one turn of the fused loop equals the eighteen steps iff the bytes between ip and its word offset, at both ends of the 128, are zero; a word-aligned ip has none |
| `FusedLoops.MisalignedMemset` | src/cpus/cpu_arm_instr.c:1819-1865 | a state with ip at offset 1 in which the two differ: the fused loop leaves byte 0 |
| `FusedLoops.MemsetOwnCounter` | src/cpus/cpu_arm_instr.c:2566-2572 | the check lets ip be the counter: the plain instructions, with their stores on the fast path, then leave ip where it was, the fused function 128 above |
| `FusedLoops.MemsetClears` | src/cpus/cpu_arm_instr.c:1819-1865 | a turn of the fused function equals eighteen steps if it agrees, and what is left to count falls while the loop goes on |
| `FusedLoops.AlignedRun` | src/cpus/cpu_arm_instr.c:1819-1865 | from an aligned ip every turn of a run agrees |
| `FusedLoops.StrlenOneTurn` | src/cpus/cpu_arm_instr.c:2063-2090 | three steps of the plain loop are one turn of the fused one iff the base is not r3 or compares with zero as the byte does |
| `FusedLoops.StrlenOwnBase` | src/cpus/cpu_arm_instr.c:2693-2699 | a state with base r3, which the check lets through, in which the fused loop ends and the plain one goes on |
| `FusedLoops.Cpu.ClearTurn` | src/cpus/cpu_arm_instr.c:1824-1862 | one turn of the fused memset, with each of its exits |
| `FusedLoops.Cpu.NetbsdMemset` | src/cpus/cpu_arm_instr.c:1819-1865 | on every path, early exits too, the fused memset ends where its turns lead; if each agrees with the plain instructions, as from an aligned ip with another counter, that is a state of the plain loop: memory, registers, flags and next record; its count is short by one for each further turn |
| `FusedLoops.Cpu.StrlenFused` | src/cpus/cpu_arm_instr.c:2063-2090 | the fused strlen ends where its turns lead; if each agrees with the plain instructions, as for any base but r3, that is a state of the plain loop, with the exact instruction count |
| `FusedSequences.ExchangeIff` | src/cpus/cpu_arm_instr.c:2100-2107 | three eors exchange two registers iff the registers are different or the one register is zero |
| `FusedSequences.PutThenGet` | src/cpus/cpu_arm_instr.c:2120-2177 | a word load brings back what a word store put there |
| `FusedSequences.CopyinIff` | src/cpus/cpu_arm_instr.c:2120-2142 | on its fast path copyin equals the six loads iff the base is word-aligned |
| `FusedSequences.CopyoutIff` | src/cpus/cpu_arm_instr.c:2155-2177 | on its fast path copyout equals the six stores iff the base is word-aligned |
| `RegisterBanks.SaveKeeps` | src/cpus/cpu_arm.c:501-545 | saving the current bank changes no register that any mode sees |
| `RegisterBanks.LoadKeeps` | src/cpus/cpu_arm.c:548-589 | loading the bank of the next mode changes none either, once the current one is saved |
| `RegisterBanks.SwitchKeeps` | src/cpus/cpu_arm.c:501-589 | a switch of modes conserves the logical register file of all modes |
| `RegisterBanks.WriteSeen` | src/cpus/cpu_arm.c:501-589 | who sees a register written: r0 to r7 every mode, r8 to r12 all but fast interrupt, r13 and r14 user and system mode together, and otherwise the mode itself |
| `RegisterBanks.Vectors` | src/include/cpu_arm.h:116-130 | which mode, with which mode bits, each exception is taken in, and which two numbers have none |
| `RegisterBanks.Unprivileged` | src/include/cpu_arm.h:104-114 | user and system mode are the two without a saved status register |
| `RegisterBanks.MergeMasks` | src/cpus/cpu_arm_instr.c:835-840 | merging the selected fields is, on the status word, clearing the bits of the mask and putting those of the value |
| `RegisterBanks.Cpu.SaveRegisterBank` | src/cpus/cpu_arm.c:501-545 | the in-place save is the save on values |
| `RegisterBanks.Cpu.LoadRegisterBank` | src/cpus/cpu_arm.c:548-589 | the in-place load is the load on values |
| `RegisterBanks.Cpu.Exception` | src/cpus/cpu_arm.c:595-713 | an undefined instruction is taken in und, a software interrupt in svc, aborts in abt, interrupts in irq and fiq, each with its mode bits; an entry saves the full CPSR, NZCV included, sets mask bits and vector, writes the link register of the new mode and no other register of any mode |
| `RegisterBanks.Cpu.Arrive` | src/cpus/cpu_arm.c:644-712 | the bank switch with the saved status register, the link register and the vector |
| `RegisterBanks.Cpu.MsrCpsr` | src/cpus/cpu_arm_instr.c:822-848 | msr merges the selected fields, only the flags in user mode, and conserves every register of every mode |
| `RegisterBanks.Cpu.ReturnTo` | src/cpus/cpu_arm_instr_dpi.c:201-219 | an S-bit write to PC restores the saved CPSR and conserves every register of every mode |
| `RegisterBanks.Cpu.ReturnByBlock` | src/cpus/cpu_arm_instr.c:1468-1515 | the return at the end of a load multiple with S bit and PC: it stops in a mode without saved status register, restores the saved one otherwise, clears the low PC bits and conserves every register of every mode |
| `RegisterBanks.Cpu.ReturnEither` | src/cpus/cpu_arm_instr_dpi.c:201-219 | both returns restore the saved CPSR and conserve every register of every mode |
| `RegisterBanks.Cpu.EnterAndReturn` | src/cpus/cpu_arm.c:646-713 | entry into another mode and a return of either kind restore the full CPSR and all registers of the interrupted mode |
| `RegisterBanks.Cpu.Serve` | src/cpus/cpu_arm.c:595-713 | handlers interrupted in turn, to any depth and in modes not in use, with returns of either kind: CPSR, the saved status registers in use and all registers but the link registers of the modes entered are restored |
| `RegisterBanks.Cpu.Perform` | src/cpus/cpu_arm.c:501-713 | over any run of msr, entries and returns of both kinds every register of every mode is conserved but the link registers that entries write; the run completes iff no step meets an exception number or mode that does not exist, or a block return without saved status register |
| `RegisterBanks.Cpu.PerformOne` | src/cpus/cpu_arm.c:501-713 | one operation, with the mode it leads to and when it fails |
| `BlockTransfer.EncodeMeans` | src/cpus/cpu_arm_instr.c:1581-1591 | which byte of a word goes where in either byte order |
| `BlockTransfer.PathsAgree` | src/cpus/cpu_arm_instr.c:1566-1591 | the direct and the slow path store the same bytes in both byte orders, and a load reads back what was stored |
| `BlockTransfer.LoadsAgree` | src/cpus/cpu_arm_instr.c:1388-1418 | both paths load the same word from any bytes |
| `BlockTransfer.CountIs` | src/cpus/cpu_arm_instr.c:1528-1532 | the counts are the numbers of listed registers |
| `BlockTransfer.RankOrders` | src/cpus/cpu_arm_instr.c:1528-1532 | listed registers are transferred in register order, upwards or downwards |
| `BlockTransfer.RanksMirror` | src/cpus/cpu_arm_instr.c:1528-1532 | the mirrored mode meets the registers in the opposite order |
| `BlockTransfer.SlotsMirror` | src/cpus/cpu_arm_instr.c:1559-1609 | from the written-back base the mirrored mode visits the same addresses backwards and ends at the original base |
| `BlockTransfer.SlotsApart` | src/cpus/cpu_arm_instr.c:1559-1587 | no two registers share a word of memory, whatever the base |
| `BlockTransfer.HomeIs` | src/cpus/cpu_arm_instr.c:1559-1609 | the address of each register in each of the four modes: the lowest register lowest, from the base, or the word after it, or the base less the size of the transfer, or the word after that |
| `BlockTransfer.UserBank` | src/cpus/cpu_arm_instr.c:1536-1552 | the registers that the S bit selects are those that user mode sees |
| `BlockTransfer.LoadedSeen` | src/cpus/cpu_arm_instr.c:1430-1463 | loading changes the listed registers of the current mode, or with the S bit those of user mode, as every mode sees them, and no others |
| `BlockTransfer.StoredMore` | src/cpus/cpu_arm_instr.c:1528-1606 | one more register stored keeps the earlier ones and changes one word of memory |
| `BlockTransfer.FindsStored` | src/cpus/cpu_arm_instr.c:1373-1427 | the mirrored load finds in each register's slot what was stored from it |
| `BlockTransfer.PopRestores` | src/cpus/cpu_arm_instr.c:1430-1466 | loading those words gives every register its old value, the base too, listed or not |
| `BlockTransfer.Cpu.Push` | src/cpus/cpu_arm_instr.c:1521-1610 | in all four modes each listed word of memory gets its register, of user mode with the S bit, or PC plus 12, also from an unaligned base on direct pages, and nothing else changes; it succeeds iff every word can be stored, and a failing store leaves the base and the words before it |
| `BlockTransfer.Cpu.ValueOf` | src/cpus/cpu_arm_instr.c:1534-1557 | the word stored for a register: the current bank, the user bank with the S bit, or PC plus 12 |
| `BlockTransfer.Cpu.LoadWords` | src/cpus/cpu_arm_instr.c:1373-1427 | the first loop loads every listed word or reports the failing access |
| `BlockTransfer.Cpu.SetRegisters` | src/cpus/cpu_arm_instr.c:1430-1463 | the second loop changes exactly the listed registers, of the user bank with the S bit |
| `BlockTransfer.Cpu.Pop` | src/cpus/cpu_arm_instr.c:1353-1515 | it faults iff some listed word cannot be loaded, and then nothing has changed; each listed register of the current mode, or of user mode with the S bit, gets its word, and PC its word less the low bits; with S bit and PC it is an exception return, which restores the saved CPSR, keeps each mode's registers, or stops in a mode that has none |
| `BlockTransfer.Cpu.PopRegisters` | src/cpus/cpu_arm_instr.c:1362-1466 | both loops and the write-back change exactly the listed registers and the base |
| `BlockTransfer.Cpu.PushThenPop` | src/cpus/cpu_arm_instr.c:1353-1610 | push and mirrored pop with write-back restore all registers, and only the pushed words of memory change; they succeed iff every word can be stored and loaded |
| `BlockTransfer.BackRanks` | src/cpus/cpu_arm_instr.c:1371-1379 | pc in place of lr has the same place in the order of transfer |
| `BlockTransfer.HandlerLoads` | src/cpus/cpu_arm_instr.c:1371-1466 | the final load of a handler brings back every register it saved, and lr into pc, whatever the handler did to them |
| `BlockTransfer.Cpu.Handle` | src/cpus/cpu_arm_instr.c:1353-1515 | a whole handler, exception entry, store multiple with lr, any use of the saved registers, load multiple with pc and S bit: the interrupted program goes on at lr with its CPSR, and all modes have all registers but the handler's link register |
| `Reservations.SuccessReleases` | src/cpus/cpu_arm_instr.c:1774-1790 | a successful store takes every reservation on its word away, even one made under another virtual address |
| `Reservations.SuccessSpares` | src/cpus/cpu_arm_instr.c:1774-1794 | a successful ARM store takes away exactly the reservations at addresses that agree in the low eleven bits, and other processors' stores elsewhere still succeed; an Alpha store takes all; memory changes in one word |
| `Reservations.FailureKeeps` | src/cpus/cpu_arm_instr.c:1745-1772 | a store that does not succeed changes nothing but the state of its processor, in each of its three cases |
| `Reservations.StepCurrentIff` | src/cpus/cpu_arm_instr.c:1689-1794 | a step keeps the reservations on a word current iff it is not an ordinary store to the word of a value that some reservation does not have |
| `Reservations.RunCurrentIff` | src/cpus/cpu_arm_instr.c:1689-1794 | in any interleaving they are current throughout iff every operation is harmless in that sense |
| `Reservations.SparingRun` | src/cpus/cpu_arm_instr.c:1689-1794 | a run that writes the word by conditional stores only is harmless |
| `Reservations.RunCurrent` | src/cpus/cpu_arm_instr.c:1689-1794 | after any interleaving of harmless operations the reservations describe the word |
| `Reservations.SuccessSeesLast` | src/cpus/cpu_arm_instr.c:1759-1772 | at each success in a harmless run the word that was linked still holds what was read, and on the ARM that is the word stored to |
| `Reservations.GrantedSeesIff` | src/cpus/cpu_alpha_instr_loadstore.c:168-176 | whatever memory holds, the word stored to holds the value read iff it is the word that was linked; on the ARM it always is |
| `Reservations.NoUpdateLost` | src/cpus/cpu_alpha_instr_loadstore.c:161-177 | concurrent updates are never lost: the word ends as the update applied once per reported success, in both schemes |
| `Reservations.OthersFail` | src/cpus/cpu_arm_instr.c:1774-1790 | after a success no other processor can store to the word before it links again |
| `Reservations.AloneSucceeds` | src/cpus/cpu_arm_instr.c:1689-1794 | a linked load and a conditional store at the same address, with nothing between, succeed |
| `Reservations.PlainStoreIsLost` | src/cpus/cpu_alpha_instr_loadstore.c:161-177 | an ordinary store in between is overwritten, in both schemes |
| `Reservations.AlphaIgnoresAddress` | src/cpus/cpu_alpha_instr_loadstore.c:168-176 | the Alpha accepts a conditional store to a word that was never linked |
| `Reservations.Machine.LoadLinked` | src/cpus/cpu_arm_instr.c:1689-1724 | ldrex and ldx_l in place, with the misaligned and faulting cases of ldrex |
| `Reservations.Machine.StoreConditional` | src/cpus/cpu_arm_instr.c:1733-1794 | strex and stx_c in place, with the loop over all processors; success is reported exactly when the reservation is granted, and on the ARM spares the reservations on other lines |
| `Reservations.Machine.Perform` | src/cpus/cpu_arm_instr.c:1689-1794 | any interleaving run in place ends in the state of the run on values |
| `MipsUnaligned.FilledAt` | src/cpus/cpu_mips_instr_unaligned.c:134-150 | which bytes of the register a load replaces, from which addresses, and which it keeps |
| `MipsUnaligned.LoadMeans` | src/cpus/cpu_mips_instr_unaligned.c:128-156 | each byte of the register after one of the loads, in both byte orders, by address |
| `MipsUnaligned.StoreMeans` | src/cpus/cpu_mips_instr_unaligned.c:81-126 | each byte of memory after one of the stores, in both byte orders |
| `MipsUnaligned.HalvesMeet` | src/cpus/cpu_mips_instr_unaligned.c:61-74 | for every address, byte order and width the two halves cover each byte at its own address |
| `MipsUnaligned.PairLoads` | src/cpus/cpu_mips_instr_unaligned.c:128-156 | a left and a right load, in either order, give the unaligned word, sign-extended at four bytes, whatever the register held |
| `MipsUnaligned.PairStores` | src/cpus/cpu_mips_instr_unaligned.c:81-126 | a left and a right store, in either order, write exactly the bytes of the unaligned word |
| `MipsUnaligned.StoreThenLoad` | src/cpus/cpu_mips_instr_unaligned.c:48-157 | a load pair brings back what a store pair put there |
| `MipsUnaligned.LoadLoop` | src/cpus/cpu_mips_instr_unaligned.c:134-150 | the loop with its early exit at the end of the aligned word computes the filled register |
| `MipsUnaligned.StoreLoop` | src/cpus/cpu_mips_instr_unaligned.c:104-119 | the loop patches exactly the bytes within reach of the aligned word |
| `MipsUnaligned.Cpu.LoadStore` | src/cpus/cpu_mips_instr_unaligned.c:48-157 | one instruction in place; when an access fails neither register nor memory changes |
| `MipsUnaligned.Cpu.LoadPair` | src/cpus/cpu_mips_instr_unaligned.c:128-156 | the pair of loads in place; it succeeds iff both aligned words can be read |
| `MipsUnaligned.Cpu.StorePair` | src/cpus/cpu_mips_instr_unaligned.c:81-126 | the pair of stores in place; it succeeds iff both aligned words can be read and written |
| `AlphaBytes.ExtLowByte` | src/cpus/cpu_alpha_instr_alu.c:86-112 | EXTxL, byte by byte |
| `AlphaBytes.WidthsMean` | src/cpus/cpu_alpha_instr_alu.c:86-112 | at an aligned address the four widths extract one, two, four and eight bytes |
| `AlphaBytes.ExtHighByte` | src/cpus/cpu_alpha_instr_alu.c:86-112 | EXTxH, byte by byte, the aligned case included |
| `AlphaBytes.InsLowByte` | src/cpus/cpu_alpha_instr_alu.c:52-82 | INSxL, byte by byte |
| `AlphaBytes.InsHighByte` | src/cpus/cpu_alpha_instr_alu.c:52-82 | INSxH, byte by byte |
| `AlphaBytes.MskLowByte` | src/cpus/cpu_alpha_instr_alu.c:116-148 | MSKxL, byte by byte |
| `AlphaBytes.MskHighByte` | src/cpus/cpu_alpha_instr_alu.c:116-148 | MSKxH, byte by byte |
| `AlphaBytes.ExtractReads` | src/cpus/cpu_alpha_instr_alu.c:86-112 | two ldq_u, EXTxL, EXTxH and OR equal the unaligned load, for every address and width |
| `AlphaBytes.InsertStores` | src/cpus/cpu_alpha_instr_alu.c:52-148 | with the high quadword stored first the INS and MSK sequence changes exactly the addressed bytes, also when both quadwords coincide |
| `AlphaBytes.LowFirst` | src/cpus/cpu_alpha_instr_alu.c:52-148 | the other order is right iff the datum crosses into a second quadword, and otherwise undoes the store |
| `AlphaBytes.StoreThenLoad` | src/cpus/cpu_alpha_instr_alu.c:52-148 | the extract sequence brings back what the insert sequence stored |
| `AlphaBytes.AlignDown` | src/cpus/cpu_alpha_instr_loadstore.c:62-64 | the mask drops the offset in the quadword |
| `AlphaBytes.Cpu.SumBytes` | src/cpus/cpu_alpha_instr_loadstore.c:74-91 | adding the shifted bytes never carries out of 64 bits and gives the number with those bytes |
| `AlphaBytes.Cpu.LoadQuad` | src/cpus/cpu_alpha_instr_loadstore.c:58-92 | the masked address and the sum of eight shifted bytes, from the host page or through memory_rw, give the aligned quadword around the address |
| `AlphaBytes.Cpu.StoreQuad` | src/cpus/cpu_alpha_instr_loadstore.c:93-117 | storing the eight shifted bytes one by one replaces exactly that quadword |
| `AlphaBytes.Cpu.LoadUnaligned` | src/cpus/cpu_alpha_instr_loadstore.c:58-92 | the load sequence in place |
| `AlphaBytes.Cpu.StoreUnaligned` | src/cpus/cpu_alpha_instr_loadstore.c:93-117 | the store sequence in place |
| `Umulh.Consumed` | src/cpus/cpu_alpha_instr.c:634-636 | after i rounds the consumed bits are at most half of the operand, and all of it after 64 |
| `Umulh.AddCarries` | src/cpus/cpu_alpha_instr.c:639-644 | the comparison detects the carry of every addition that fits 128 bits |
| `Umulh.MultiplyHigh` | src/cpus/cpu_alpha_instr.c:628-654 | the 64-step loop returns floor(s1 * s2 / 2^64) for all operands |
| `FloatEmul.Unique` | src/core/float_emul.c:256-273 | the fraction in [1,2) and the exponent of a number are unique |
| `FloatEmul.SingleMeans` | src/core/float_emul.c:49-192 | the meaning of every single word in numbers: fields at bits 31, 23 and 0, bias 127 |
| `FloatEmul.DoubleMeans` | src/core/float_emul.c:49-192 | the meaning of every double word in numbers: fields at bits 63, 52 and 0, bias 1023 |
| `FloatEmul.Fraction` | src/core/float_emul.c:142-150 | the loop over the bits gives 1 plus the fraction field over its range |
| `FloatEmul.TimesPower` | src/core/float_emul.c:166-184 | the loops multiply by the power of two |
| `FloatEmul.Interpret` | src/core/float_emul.c:49-192 | every word is read as its IEEE meaning; a subnormal is read as if it had an implicit one |
| `FloatEmul.Normalise` | src/core/float_emul.c:265-273 | the loops find the fraction and exponent of every normal host number |
| `FloatEmul.PutFraction` | src/core/float_emul.c:275-283 | the loop sets exactly the bits of the fraction, cut off |
| `FloatEmul.InsertExponent` | src/core/float_emul.c:285-292 | inserting the exponent keeps sign and fraction |
| `FloatEmul.Store` | src/core/float_emul.c:204-315 | what is stored for a NaN, an infinity, a zero, a subnormal and every normal host number |
| `FloatEmul.RoundTripIff` | src/core/float_emul.c:133-297 | a word survives reading and writing iff it is a zero, an infinity, a normal number or the one NaN that writing produces |
| `FloatEmul.RoundTrip` | src/core/float_emul.c:133-297 | the same for the two procedures run one after the other, single and double |
| `FloatEmul.WritingTruncates` | src/core/float_emul.c:253-296 | within the exponent range of the format writing truncates toward zero by less than one unit in the last place |
| `FloatEmul.OverflowIsNaN` | src/core/float_emul.c:285-292 | above that range the word is an infinity iff the fraction bits are zero, and else a NaN |
| `FloatEmul.UnderflowIsZero` | src/core/float_emul.c:285-296 | below that range it is a positive zero |
| `DeviceMap.SortedMeansDisjoint` | src/core/memory.c:345-377 | at most one device answers to an address |
| `DeviceMap.CollidingMeans` | src/core/memory.c:368-377 | a registration collides iff some address would have two devices |
| `DeviceMap.InsertSorted` | src/core/memory.c:410-428 | an insertion at the index found keeps the table sorted and disjoint |
| `DeviceMap.InsertUnsorted` | src/core/memory.c:410-428 | a device of no length, or one that wraps, answers to no address and breaks the order |
| `DeviceMap.Memory.constructor` | src/core/memory.c:166-178 | an empty table is in order |
| `DeviceMap.Memory.Place` | src/core/memory.c:345-377 | the scan reports a collision iff there is one, and otherwise the one index that keeps the order, also for an end that has wrapped |
| `DeviceMap.Memory.DataInUse` | src/core/memory.c:397-408 | the scan for a data pointer that is already taken |
| `DeviceMap.Memory.Register` | src/core/memory.c:345-455 | exactly the colliding registrations are rejected, the internal error does not happen, the table stays sorted iff the device has a length and does not wrap, the address bounds are rounded to pages of 4096, and cover every device iff the rounded end does not wrap |
| `DeviceMap.Memory.Remove` | src/core/memory.c:463-482 | a removal keeps order and cover; the last access still names the same device if that one stays, and is in range iff it is not the final device going while it was the last one accessed |
| `DeviceMap.Memory.Find` | src/cpus/memory_rw.c:238-388 | from any last access: a device that answers is always found; records that removals left behind answer, too, up to a last access outside the table, and beyond the array nothing can be said |
| `DeviceMap.Memory.FindLive` | src/cpus/memory_rw.c:238-388 | with the last access inside the table a device is found iff one answers, and it is that one |
| `DeviceMap.RemovedAnswers` | src/core/memory.c:470-473 | a run in which a removed device goes on answering |
| `DeviceMap.RemoveOrdered` | src/core/memory.c:475-476 | a removal keeps the records of the array in order, left-over ones included |

## Left out

- Host pointers: tables, code pages and host pages are numbers into sequences and maps, so layout and alignment of the C structures are not part of this model.
- Guest features of the translation tables: M88K user access, PowerPC invalidation by segment, and machines that switch between 32 and 64 bits are not modelled.
- `update_translation_table`'s choice of a victim: the static counter is a parameter.
- CodeRuns.Perform: stops before an access that gives a live page another physical page, or another host page to write to, and before a translation when no page has been entered; CodeCache.Cpu.MemoryRw says what such an access leaves.
- Code outside the core: `translate_v2p`, `memory_paddr_to_hostaddr` and the slow path of `memory_rw` are parameters; exceptions that they raise while running are not modelled.
- CodeCache: it has 4 KB pages and four-byte instructions; the list of translation ranges, which nothing reads, is left out.
- Tlb64.TranslationTables.SetPhysPage: requires that a third-level table held across an update is still that page's table or the dummy, which Cpu64.Cpu.Enter establishes.
- CompareBranch and FusedSequences: states are values and not objects, so update in place and aliasing of argument pointers are not captured; copyin and copyout are for a little-endian guest.
- Cpu32.Cpu.PcToPointersGeneric: requires program counters and translated addresses of 32 bits, as the C types have them.
- FusedLoops.Cpu.StrlenFused: needs a bound within which the string ends or leaves the mapped pages; without one the loop does not end.
- BlockTransfer.Cpu.Push: an unaligned word on a page without a direct host address is not modelled; `memory_rw` would copy its bytes across words, and across physical pages. The base is aligned or all words are on direct pages.
- BlockTransfer.Cpu.LoadWords: the same, and with it BlockTransfer.Cpu.Pop, PopRegisters, PushThenPop and Handle.
- BlockTransfer.Cpu.PushThenPop: is for lists without PC, since a load of PC is a jump; BlockTransfer.Cpu.Handle has the pair with lr and pc.
- Reservations: an Alpha access that fails ends the program and an unaligned one is not modelled; changes of address translation between the two instructions are not modelled.
- MipsUnaligned: the 64-bit forms on a 32-bit processor are reserved instructions; the exception code that a failing store reports is not modelled.
- FloatEmul: integer formats, and the rounding of the host when it reads a subnormal double, are not modelled; a NaN has no sign.
- DeviceMap.Memory.Find: what is read beyond the end of the array is not modelled; the outcome is then only named.
- The ARM Thumb interpreter, netbsd_memcpy, netbsd_cacheclean, netbsd_idle and netbsd_scanc: the first is incomplete in the source, the next three drop effects on purpose, the last would add little.
- ARM adc, sbc and rsc flags, and Alpha cmpbge: the source does not compute them as the processors do.
- Console, X11, settings, configuration files, disassemblers, devices, and the M88K and i960 processors.
