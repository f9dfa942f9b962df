/**
 The 64-bit translation tables, updated in place.  Every method computes exactly the flat
 operation of the same name, and keeps the tables well formed.
 */
module Tlb64 {
  import opened FlatTlb
  import opened Arena
  import opened Tables64

  /** Every walk finds what the flat table holds, and only whole pages are mapped. */
  ghost predicate Mirrors(g: Geometry, t: Tables, slots: map<Addr, Slot>) {
    && Sized(g, t)
    && (forall c {:trigger Walk(g, t, c)} :: InRange(g, c) ==>
          Walk(g, t, c) == if g.join(c) in slots then slots[g.join(c)] else EMPTY_SLOT)
    && (forall v :: v in slots ==> Aligned(g, v) && slots[v].tlbIndex != 0 && !slots[v].userPage)
  }

  lemma MirrorsSame(g: Geometry, t: Tables, t': Tables, slots: map<Addr, Slot>)
    requires Mirrors(g, t, slots) && SameWalk(g, t, t')
    ensures Mirrors(g, t', slots)
  {
  }

  /** Writing the slot of `v` is mirrored by writing, or forgetting, `v` in the flat table. */
  lemma MirrorsPut(g: Geometry, t: Tables, t': Tables, slots: map<Addr, Slot>, slots': map<Addr, Slot>, v: Addr, s: Slot)
    requires Lawful(g) && Mirrors(g, t, slots) && Sized(g, t') && Aligned(g, v)
    requires forall c {:trigger Walk(g, t', c)} :: InRange(g, c) ==> Walk(g, t', c) == if c == g.split(v) then s else Walk(g, t, c)
    requires s == EMPTY_SLOT || (s.tlbIndex != 0 && !s.userPage)
    requires slots' == if s == EMPTY_SLOT then slots - {v} else slots[v := s]
    ensures Mirrors(g, t', slots')
  {
    hide Walk, Sized;
    forall c | InRange(g, c)
      ensures Walk(g, t', c) == if g.join(c) in slots' then slots'[g.join(c)] else EMPTY_SLOT
    {
      assert g.split(g.join(c)) == c;
      assert Walk(g, t, c) == if g.join(c) in slots then slots[g.join(c)] else EMPTY_SLOT;
    }
  }

  /** Which third-level tables serve which indices, before and after one page is invalidated. */
  ghost predicate HandlesKept(g: Geometry, t: Tables, t': Tables, x1: nat, x2: nat) {
    && Sized(g, t) && Sized(g, t') && x1 < g.n1 && x2 < g.n2
    && (forall a, b :: 0 <= a < g.n1 && 0 <= b < g.n2 && !(a == x1 && b == x2) ==>
          Handle(g, t', a, b) == Handle(g, t, a, b))
    && (Handle(g, t', x1, x2) == Handle(g, t, x1, x2) ||
        (Handle(g, t', x1, x2) == 0 && t'.freeL3 == Handle(g, t, x1, x2)))
  }

  /** An unused live table is blank. */
  lemma UnusedIsBlank(g: Geometry, t: Tables, o: Owners, slots: map<Addr, Slot>, x1: nat, x2: nat)
    requires Shape(g, t, o) && Mirrors(g, t, slots) && x1 < g.n1 && x2 < g.n2
    requires t.l3s[Handle(g, t, x1, x2)].refcount == 0
    ensures Blank(K3(g), t.l3s[Handle(g, t, x1, x2)])
  {
    var l3 := t.l3s[Handle(g, t, x1, x2)];
    assert Counted(K3(g), l3);
    CountZero(l3.items, K3(g).used);
    forall x | 0 <= x < g.n3 ensures l3.items[x] == EMPTY_SLOT {
      assert Walk(g, t, Coord(x1, x2, x)) == l3.items[x];
      assert !K3(g).used(l3.items[x]);
    }
  }

  // ----- dropping and inserting one page, on values

  /** The tables are well formed and mirror `slots`; live tables but the two named ones are in use. */
  ghost predicate Inv(g: Geometry, t: Tables, o: Owners, slots: map<Addr, Slot>, except2: nat, except3: nat) {
    Lawful(g) && Shape(g, t, o) && Mirrors(g, t, slots) && Busy(t, o, except2, except3)
  }

  lemma PutBusy(g: Geometry, t: Tables, t': Tables, o: Owners, h: nat, e3: nat)
    requires Busy(t, o, 0, e3) && (e3 == 0 || e3 == h) && Ok3(g, t', o) && h in o.own3
    requires t'.l2s == t.l2s && |t'.l3s| == |t.l3s| && forall i :: 0 <= i < |t.l3s| && i != h ==> t'.l3s[i] == t.l3s[i]
    ensures h < |t'.l3s| && Busy(t', o, 0, if t'.l3s[h].refcount == 0 then h else 0)
  {
    assert Counted(K3(g), t'.l3s[h]);
  }

  lemma PutInv(g: Geometry, t: Tables, o: Owners, slots: map<Addr, Slot>, slots': map<Addr, Slot>, v: Addr, s: Slot, e3: nat)
    requires Inv(g, t, o, slots, 0, e3) && Aligned(g, v)
    requires s == EMPTY_SLOT || (s.tlbIndex != 0 && !s.userPage)
    requires slots' == if s == EMPTY_SLOT then slots - {v} else slots[v := s]
    requires Handle(g, t, g.split(v).x1, g.split(v).x2) != 0
    requires e3 == 0 || e3 == Handle(g, t, g.split(v).x1, g.split(v).x2)
    ensures
      var h := Handle(g, t, g.split(v).x1, g.split(v).x2);
      var t' := PutSlot(g, t, h, g.split(v).x3, s);
      && Inv(g, t', o, slots', 0, if t'.l3s[h].refcount == 0 then h else 0)
      && forall a, b :: 0 <= a < g.n1 && 0 <= b < g.n2 ==> Handle(g, t', a, b) == Handle(g, t, a, b)
  {
    hide Mirrors, Walk, Busy, Ok2;
    var c := g.split(v);
    var h := Handle(g, t, c.x1, c.x2);
    OwnedHandle(g, t, o, c.x1, c.x2);
    PutSlotShape(g, t, o, h, c.x3, s);
    var t' := PutSlot(g, t, h, c.x3, s);
    assert Coord(o.own3[h].0, o.own3[h].1, c.x3) == c;
    MirrorsPut(g, t, t', slots, slots', v, s);
    PutBusy(g, t, t', o, h, e3);
  }

  lemma DropL3Busy(g: Geometry, t: Tables, t': Tables, o: Owners, o': Owners, h2: nat, h3: nat)
    requires Busy(t, o, 0, h3) && Ok2(g, t', o') && o' == DropL3Owners(o, h3) && h2 in o.own2
    requires |t'.l2s| == |t.l2s| && forall i :: 0 <= i < |t.l2s| && i != h2 ==> t'.l2s[i] == t.l2s[i]
    requires |t'.l3s| == |t.l3s| && forall i :: 0 <= i < |t.l3s| && i != h3 ==> t'.l3s[i] == t.l3s[i]
    ensures h2 < |t'.l2s| && Busy(t', o', if t'.l2s[h2].refcount == 0 then h2 else 0, 0)
  {
    assert Counted(K2(g), t'.l2s[h2]);
  }

  lemma DropL3Inv(g: Geometry, t: Tables, o: Owners, slots: map<Addr, Slot>, x1: nat, x2: nat)
    requires Sized(g, t) && x1 < g.n1 && x2 < g.n2 && Handle(g, t, x1, x2) != 0
    requires Inv(g, t, o, slots, 0, Handle(g, t, x1, x2))
    requires t.l3s[Handle(g, t, x1, x2)].refcount == 0
    ensures
      var t' := DropL3(g, t, x1, x2);
      && t'.l1[x1] != 0
      && Inv(g, t', DropL3Owners(o, Handle(g, t, x1, x2)), slots, if t'.l2s[t'.l1[x1]].refcount == 0 then t'.l1[x1] else 0, 0)
      && HandlesKept(g, t, t', x1, x2)
  {
    var t', o' := DropL3(g, t, x1, x2), DropL3Owners(o, Handle(g, t, x1, x2));
    OwnedHandle(g, t, o, x1, x2);
    UnusedIsBlank(g, t, o, slots, x1, x2);
    DropL3Shape(g, t, o, x1, x2);
    MirrorsSame(g, t, t', slots);
    DropL3Busy(g, t, t', o, o', t.l1[x1], Handle(g, t, x1, x2));
  }

  lemma DropL2Inv(g: Geometry, t: Tables, o: Owners, slots: map<Addr, Slot>, x1: nat)
    requires Sized(g, t) && x1 < g.n1 && t.l1[x1] != 0 && t.l2s[t.l1[x1]].refcount == 0
    requires Inv(g, t, o, slots, t.l1[x1], 0)
    ensures Inv(g, DropL2(g, t, x1), DropL2Owners(o, t.l1[x1]), slots, 0, 0)
    ensures DropL2(g, t, x1).freeL3 == t.freeL3
    ensures forall a, b :: 0 <= a < g.n1 && 0 <= b < g.n2 ==>
              Handle(g, DropL2(g, t, x1), a, b) == Handle(g, t, a, b)
  {
    DropL2Shape(g, t, o, x1);
    MirrorsSame(g, t, DropL2(g, t, x1), slots);
  }

  /** Forget one slot, and return the tables that this leaves unused. */
  function DropPage(g: Geometry, t: Tables, c: Coord): Tables
    requires Sized(g, t) && InRange(g, c) && Handle(g, t, c.x1, c.x2) < |t.l3s|
  {
    var h3 := Handle(g, t, c.x1, c.x2);
    var t1 := PutSlot(g, t, h3, c.x3, EMPTY_SLOT);
    if t1.l3s[h3].refcount != 0 then t1
    else
      var t2 := DropL3(g, t1, c.x1, c.x2);
      if t2.l2s[t2.l1[c.x1]].refcount != 0 then t2 else DropL2(g, t2, c.x1)
  }

  lemma DropPageInv(g: Geometry, t: Tables, o: Owners, slots: map<Addr, Slot>, v: Addr) returns (o': Owners)
    requires Inv(g, t, o, slots, 0, 0) && Aligned(g, v) && Handle(g, t, g.split(v).x1, g.split(v).x2) != 0
    ensures Inv(g, DropPage(g, t, g.split(v)), o', slots - {v}, 0, 0)
    ensures HandlesKept(g, t, DropPage(g, t, g.split(v)), g.split(v).x1, g.split(v).x2)
  {
    var c := g.split(v);
    var h3 := Handle(g, t, c.x1, c.x2);
    PutInv(g, t, o, slots, slots - {v}, v, EMPTY_SLOT, 0);
    var t1 := PutSlot(g, t, h3, c.x3, EMPTY_SLOT);
    o' := o;
    if t1.l3s[h3].refcount == 0 {
      DropL3Inv(g, t1, o, slots - {v}, c.x1, c.x2);
      var t2 := DropL3(g, t1, c.x1, c.x2);
      o' := DropL3Owners(o, h3);
      if t2.l2s[t2.l1[c.x1]].refcount == 0 {
        DropL2Inv(g, t2, o', slots - {v}, c.x1);
        o' := DropL2Owners(o', t2.l1[c.x1]);
      }
    }
  }

  /** Link the tables that serve one slot, as far as they are missing. */
  function LinkTables(g: Geometry, t: Tables, c: Coord): Tables
    requires Sized(g, t) && InRange(g, c) && t.freeL2 < |t.l2s| && t.freeL3 < |t.l3s|
    requires t.l1[c.x1] == 0 ==> Sized(g, TakeL2(g, t, c.x1))
  {
    var t1 := if t.l1[c.x1] == 0 then TakeL2(g, t, c.x1) else t;
    if Handle(g, t1, c.x1, c.x2) == 0 then TakeL3(g, t1, c.x1, c.x2) else t1
  }

  lemma TakeL2Inv(g: Geometry, t: Tables, o: Owners, slots: map<Addr, Slot>, x1: nat)
    requires Inv(g, t, o, slots, 0, 0) && x1 < g.n1 && t.l1[x1] == 0
    ensures t.freeL2 < |t.l2s|
    ensures var t' := TakeL2(g, t, x1);
            && t'.l1[x1] != 0 && t'.freeL3 == t.freeL3
            && Inv(g, t', TakeL2Owners(t, o, x1), slots, t'.l1[x1], 0)
            && forall a, b :: 0 <= a < g.n1 && 0 <= b < g.n2 ==> Handle(g, t', a, b) == Handle(g, t, a, b)
  {
    TakeL2Shape(g, t, o, x1);
    TakeL2Arena(g, t, o, x1);
    MirrorsSame(g, t, TakeL2(g, t, x1), slots);
  }

  lemma TakeL3Busy(g: Geometry, t: Tables, o: Owners, x1: nat, x2: nat)
    requires Shape(g, t, o) && x1 < g.n1 && x2 < g.n2 && t.l1[x1] != 0 && Handle(g, t, x1, x2) == 0
    requires Busy(t, o, 0, 0) || Busy(t, o, t.l1[x1], 0)
    ensures t.freeL3 < |t.l3s|
    ensures Busy(TakeL3(g, t, x1, x2), TakeL3Owners(t, o, x1, x2), 0, if t.freeL3 != 0 then t.freeL3 else |t.l3s|)
  {
    TakeL3Arena(g, t, o, x1, x2);
    OwnedHandle(g, t, o, x1, x2);
    assert Counted(K2(g), t.l2s[t.l1[x1]]);
    var t' := TakeL3(g, t, x1, x2);
    assert t'.l2s[t.l1[x1]].refcount > t.l2s[t.l1[x1]].refcount;
  }

  lemma TakeL3Inv(g: Geometry, t: Tables, o: Owners, slots: map<Addr, Slot>, x1: nat, x2: nat)
    requires Sized(g, t) && x1 < g.n1 && x2 < g.n2 && t.l1[x1] != 0 && Handle(g, t, x1, x2) == 0
    requires Inv(g, t, o, slots, 0, 0) || Inv(g, t, o, slots, t.l1[x1], 0)
    ensures t.freeL3 < |t.l3s|
    ensures var t' := TakeL3(g, t, x1, x2);
            && Sized(g, t') && Handle(g, t', x1, x2) != 0
            && (t.freeL3 != 0 ==> Handle(g, t', x1, x2) == t.freeL3)
            && Inv(g, t', TakeL3Owners(t, o, x1, x2), slots, 0, Handle(g, t', x1, x2))
  {
    TakeL3Shape(g, t, o, x1, x2);
    var t' := TakeL3(g, t, x1, x2);
    MirrorsSame(g, t, t', slots);
    TakeL3Busy(g, t, o, x1, x2);
  }

  /** The lemma returns the table that may still be unused, 0 if there is none. */
  lemma LinkTablesInv(g: Geometry, t: Tables, o: Owners, slots: map<Addr, Slot>, c: Coord) returns (o': Owners, e3: nat)
    requires Inv(g, t, o, slots, 0, 0) && InRange(g, c)
    ensures t.freeL2 < |t.l2s| && t.freeL3 < |t.l3s|
    ensures t.l1[c.x1] == 0 ==> Sized(g, TakeL2(g, t, c.x1))
    ensures var t' := LinkTables(g, t, c);
            && Inv(g, t', o', slots, 0, e3)
            && var h, h' := Handle(g, t, c.x1, c.x2), Handle(g, t', c.x1, c.x2);
            && h' != 0 && (e3 == 0 || e3 == h')
            && (h != 0 ==> h' == h) && (h == 0 && t.freeL3 != 0 ==> h' == t.freeL3)
  {
    ChainFacts(K2(g), t.l2s, t.freeL2, o.free2, o.own2.Keys);
    ChainFacts(K3(g), t.l3s, t.freeL3, o.free3, o.own3.Keys);
    OwnedHandle(g, t, o, c.x1, c.x2);
    var t1 := t;
    o', e3 := o, 0;
    if t.l1[c.x1] == 0 {
      TakeL2Inv(g, t, o, slots, c.x1);
      t1, o' := TakeL2(g, t, c.x1), TakeL2Owners(t, o, c.x1);
    }
    if Handle(g, t1, c.x1, c.x2) == 0 {
      TakeL3Inv(g, t1, o', slots, c.x1, c.x2);
      o', e3 := TakeL3Owners(t1, o', c.x1, c.x2), Handle(g, LinkTables(g, t, c), c.x1, c.x2);
    }
  }

  /** Fill one slot, first linking the tables that serve it. */
  function InsertPage(g: Geometry, t: Tables, c: Coord, s: Slot): Tables
    requires Sized(g, t) && InRange(g, c) && t.freeL2 < |t.l2s| && t.freeL3 < |t.l3s|
    requires t.l1[c.x1] == 0 ==> Sized(g, TakeL2(g, t, c.x1))
    requires Sized(g, LinkTables(g, t, c))
  {
    var t' := LinkTables(g, t, c);
    PutSlot(g, t', Handle(g, t', c.x1, c.x2), c.x3, s)
  }

  /** A table that has just received a used slot is in use. */
  lemma InsertedInUse(g: Geometry, t: Tables, o: Owners, h: nat, c: Coord, s: Slot)
    requires Shape(g, t, o) && h in o.own3 && InRange(g, c) && s.tlbIndex != 0
    ensures h < |t.l3s| && PutSlot(g, t, h, c.x3, s).l3s[h].refcount != 0
  {
    var t' := PutSlot(g, t, h, c.x3, s);
    PutOk(K3(g), t.l3s, t.freeL3, o.free3, o.own3.Keys, h, c.x3, s);
    assert Counted(K3(g), t'.l3s[h]);
    CountZero(t'.l3s[h].items, K3(g).used);
    assert K3(g).used(t'.l3s[h].items[c.x3]);
  }

  lemma PutUsedInv(g: Geometry, t: Tables, o: Owners, slots: map<Addr, Slot>, v: Addr, s: Slot, e3: nat)
    requires Inv(g, t, o, slots, 0, e3) && Aligned(g, v) && s.tlbIndex != 0 && !s.userPage
    requires Handle(g, t, g.split(v).x1, g.split(v).x2) != 0
    requires e3 == 0 || e3 == Handle(g, t, g.split(v).x1, g.split(v).x2)
    ensures
      var h := Handle(g, t, g.split(v).x1, g.split(v).x2);
      var t' := PutSlot(g, t, h, g.split(v).x3, s);
      && Inv(g, t', o, slots[v := s], 0, 0)
      && forall a, b :: 0 <= a < g.n1 && 0 <= b < g.n2 ==> Handle(g, t', a, b) == Handle(g, t, a, b)
  {
    var c := g.split(v);
    OwnedHandle(g, t, o, c.x1, c.x2);
    InsertedInUse(g, t, o, Handle(g, t, c.x1, c.x2), c, s);
    PutInv(g, t, o, slots, slots[v := s], v, s, e3);
  }

  lemma InsertPageInv(g: Geometry, t: Tables, o: Owners, slots: map<Addr, Slot>, v: Addr, s: Slot) returns (o': Owners)
    requires Inv(g, t, o, slots, 0, 0) && Aligned(g, v) && s.tlbIndex != 0 && !s.userPage
    ensures t.freeL2 < |t.l2s| && t.freeL3 < |t.l3s|
    ensures t.l1[g.split(v).x1] == 0 ==> Sized(g, TakeL2(g, t, g.split(v).x1))
    ensures Sized(g, LinkTables(g, t, g.split(v)))
    ensures Inv(g, InsertPage(g, t, g.split(v), s), o', slots[v := s], 0, 0)
    ensures var h, h' := Handle(g, t, g.split(v).x1, g.split(v).x2),
                         Handle(g, InsertPage(g, t, g.split(v), s), g.split(v).x1, g.split(v).x2);
            (h != 0 ==> h' == h) && (h == 0 && t.freeL3 != 0 ==> h' == t.freeL3)
  {
    var c := g.split(v);
    var e3;
    o', e3 := LinkTablesInv(g, t, o, slots, c);
    var t' := LinkTables(g, t, c);
    var h := Handle(g, t', c.x1, c.x2);
    PutUsedInv(g, t', o', slots, v, s, e3);
  }

  /** What a walk to a page finds, step by step. */
  lemma FoundSlot(g: Geometry, t: Tables, o: Owners, slots: map<Addr, Slot>, v: Addr)
    requires Inv(g, t, o, slots, 0, 0) && Aligned(g, v)
    ensures
      var c := g.split(v);
      && Sized(g, t) && InRange(g, c)
      && (t.l1[c.x1] == 0 ==> Handle(g, t, c.x1, c.x2) == 0)
      && (Handle(g, t, c.x1, c.x2) == 0 ==> v !in slots)
      && Walk(g, t, c) == (if v in slots then slots[v] else EMPTY_SLOT)
      && (v in slots <==> Walk(g, t, c).tlbIndex != 0) && !Walk(g, t, c).userPage
  {
    var c := g.split(v);
    OwnedHandle(g, t, o, c.x1, c.x2);
    assert Walk(g, t, c) == if v in slots then slots[v] else EMPTY_SLOT;
  }

  lemma AlignedKeys(g: Geometry, t: Tables, slots: map<Addr, Slot>)
    requires Mirrors(g, t, slots)
    ensures forall v :: v in slots ==> Aligned(g, v)
  {
  }

  lemma AlignedKeysInv(g: Geometry, t: Tables, o: Owners, slots: map<Addr, Slot>)
    requires Inv(g, t, o, slots, 0, 0)
    ensures forall v :: v in slots ==> Aligned(g, v)
  {
  }

  lemma UseDummy(g: Geometry, t: Tables, o: Owners, slots: map<Addr, Slot>)
    requires Inv(g, t, o, slots, 0, 0)
    ensures |t.l3s| > 0 && |t.l3s[0].items| == g.n3 && forall x :: 0 <= x < g.n3 ==> t.l3s[0].items[x] == EMPTY_SLOT
  {
    assert Blank(K3(g), t.l3s[0]);
  }

  lemma NothingKept(g: Geometry, t: Tables, c: Coord)
    requires Sized(g, t) && InRange(g, c)
    ensures HandlesKept(g, t, t, c.x1, c.x2)
  {
  }

  /** Changing a slot in place, without touching its index, when it is in use. */
  lemma MarkPageInv(g: Geometry, t: Tables, o: Owners, slots: map<Addr, Slot>, slots': map<Addr, Slot>, v: Addr, s: Slot)
    requires Inv(g, t, o, slots, 0, 0) && Aligned(g, v) && Handle(g, t, g.split(v).x1, g.split(v).x2) != 0
    requires if v in slots then s.tlbIndex == slots[v].tlbIndex && !s.userPage && slots' == slots[v := s]
             else s == EMPTY_SLOT && slots' == slots
    ensures
      var c := g.split(v);
      var h := Handle(g, t, c.x1, c.x2);
      var t' := t.(l3s := t.l3s[h := t.l3s[h].(items := t.l3s[h].items[c.x3 := s])]);
      Inv(g, t', o, slots', 0, 0) && HandlesKept(g, t, t', c.x1, c.x2)
  {
    var c := g.split(v);
    var h := Handle(g, t, c.x1, c.x2);
    FoundSlot(g, t, o, slots, v);
    var t' := t.(l3s := t.l3s[h := t.l3s[h].(items := t.l3s[h].items[c.x3 := s])]);
    if v in slots {
      PutUsedInv(g, t, o, slots, v, s, 0);
      assert t' == PutSlot(g, t, h, c.x3, s);
    } else {
      assert t.l3s[h].items[c.x3 := s] == t.l3s[h].items;
      assert t'.l3s == t.l3s;
      assert t' == t;
    }
  }

  // ----- what the invariant says of a state

  /** No table is shared, and every reference count is exact: the checks of the BUGHUNT blocks. */
  ghost predicate ChecksPass(g: Geometry, t: Tables)
    requires Sized(g, t)
  {
    && (forall x, y :: 0 <= x < y < g.n1 && t.l1[x] != 0 ==> t.l1[x] != t.l1[y])
    && (forall x1, x2, y1, y2 ::
          (0 <= x1 < g.n1 && 0 <= y1 < g.n1 && 0 <= x2 < g.n2 && 0 <= y2 < g.n2 &&
           Handle(g, t, x1, x2) != 0 && Handle(g, t, x1, x2) == Handle(g, t, y1, y2)) ==> x1 == y1 && x2 == y2)
    && (forall x :: 0 <= x < g.n1 && t.l1[x] != 0 ==>
          0 < t.l2s[t.l1[x]].refcount == Count(t.l2s[t.l1[x]].items, (h: nat) => h != 0))
    && (forall x1, x2 :: 0 <= x1 < g.n1 && 0 <= x2 < g.n2 && Handle(g, t, x1, x2) != 0 ==>
          && 0 < t.l3s[Handle(g, t, x1, x2)].refcount
          && t.l3s[Handle(g, t, x1, x2)].refcount == Count(t.l3s[Handle(g, t, x1, x2)].items, (s: Slot) => s.tlbIndex != 0)
          && t.l3s[Handle(g, t, x1, x2)].refcount == Count(t.l3s[Handle(g, t, x1, x2)].items, (s: Slot) => s.hostLoad != NULL))
    && |t.l2s| > 0 && t.l2s[0].items == seq(g.n2, _ => 0)
    && |t.l3s| > 0 && t.l3s[0].items == seq(g.n3, _ => EMPTY_SLOT)
  }

  lemma {:induction false} SameCount<T>(s: seq<T>, p: T -> bool, q: T -> bool)
    requires forall i :: 0 <= i < |s| ==> p(s[i]) == q(s[i])
    ensures Count(s, p) == Count(s, q)
  {
    if |s| > 0 {
      var n := |s| - 1;
      assert forall i :: 0 <= i < n ==> s[..n][i] == s[i];
      SameCount(s[..n], p, q);
    }
  }

  /** The consistency checks that the code can be compiled with never fire. */
  lemma InvPassesChecks(g: Geometry, f: Tlb, t: Tables, o: Owners)
    requires Inv(g, t, o, f.slots, 0, 0) && Linked(f) && Coherent(f)
    ensures Sized(g, t) && ChecksPass(g, t)
  {
    forall x1, x2 | 0 <= x1 < g.n1 && 0 <= x2 < g.n2 && Handle(g, t, x1, x2) != 0
      ensures 0 < t.l3s[Handle(g, t, x1, x2)].refcount == Count(t.l3s[Handle(g, t, x1, x2)].items, K3(g).used)
      ensures t.l3s[Handle(g, t, x1, x2)].refcount == Count(t.l3s[Handle(g, t, x1, x2)].items, (s: Slot) => s.hostLoad != NULL)
    {
      OwnedHandle(g, t, o, x1, x2);
      LiveCount(g, f, t, o, x1, x2);
    }
    forall x | 0 <= x < g.n1 && t.l1[x] != 0
      ensures 0 < t.l2s[t.l1[x]].refcount == Count(t.l2s[t.l1[x]].items, K2(g).used)
    {
      assert t.l1[x] in o.own2 && Counted(K2(g), t.l2s[t.l1[x]]);
    }
    assert Blank(K2(g), t.l2s[0]) && Blank(K3(g), t.l3s[0]);
  }

  lemma LiveCount(g: Geometry, f: Tlb, t: Tables, o: Owners, x1: nat, x2: nat)
    requires Inv(g, t, o, f.slots, 0, 0) && Linked(f) && Coherent(f)
    requires x1 < g.n1 && x2 < g.n2 && Handle(g, t, x1, x2) in o.own3
    ensures
      var l3 := t.l3s[Handle(g, t, x1, x2)];
      0 < l3.refcount == Count(l3.items, K3(g).used) == Count(l3.items, (s: Slot) => s.hostLoad != NULL)
  {
    var l3 := t.l3s[Handle(g, t, x1, x2)];
    assert Counted(K3(g), l3);
    forall i | 0 <= i < |l3.items| ensures l3.items[i].tlbIndex != 0 <==> l3.items[i].hostLoad != NULL {
      var c := Coord(x1, x2, i);
      assert Walk(g, t, c) == l3.items[i];
      if g.join(c) in f.slots { assert SlotLinked(f, g.join(c)) && SlotCoherent(f, g.join(c)); }
    }
    SameCount(l3.items, K3(g).used, (s: Slot) => s.hostLoad != NULL);
  }

  /** Every pointer leads to a dummy, and every table is blank and on its free list, once. */
  ghost predicate AllReturned(g: Geometry, t: Tables, o: Owners)
    requires Sized(g, t)
  {
    && (forall x :: 0 <= x < g.n1 ==> t.l1[x] == 0)
    && (forall h :: 0 < h < |t.l2s| ==> h in o.free2 && Blank(K2(g), t.l2s[h]))
    && (forall h :: 0 < h < |t.l3s| ==> h in o.free3 && Blank(K3(g), t.l3s[h]))
    && (forall i, j :: 0 <= i < j < |o.free2| ==> o.free2[i] != o.free2[j])
    && (forall i, j :: 0 <= i < j < |o.free3| ==> o.free3[i] != o.free3[j])
  }

  lemma NothingMapped(g: Geometry, t: Tables, o: Owners, slots: map<Addr, Slot>)
    requires Inv(g, t, o, slots, 0, 0)
    ensures Sized(g, t) && (slots == map[] ==> AllReturned(g, t, o))
  {
    if slots == map[] { NothingMappedAux(g, t, o); }
  }

  lemma NothingMappedAux(g: Geometry, t: Tables, o: Owners)
    requires Inv(g, t, o, map[], 0, 0)
    ensures Sized(g, t) && AllReturned(g, t, o)
  {
    NoneLive3(g, t, o);
    NoneLive2(g, t, o);
    ChainFacts(K2(g), t.l2s, t.freeL2, o.free2, o.own2.Keys);
    ChainFacts(K3(g), t.l3s, t.freeL3, o.free3, o.own3.Keys);
  }

  lemma NoneLive3(g: Geometry, t: Tables, o: Owners)
    requires Inv(g, t, o, map[], 0, 0)
    ensures o.own3 == map[]
  {
    forall h | h in o.own3 ensures false {
      var l3 := t.l3s[h];
      assert Counted(K3(g), l3);
      CountZero(l3.items, K3(g).used);
      forall x | 0 <= x < g.n3 ensures !K3(g).used(l3.items[x]) {
        assert Walk(g, t, Coord(o.own3[h].0, o.own3[h].1, x)) == l3.items[x];
      }
    }
  }

  lemma NoneLive2(g: Geometry, t: Tables, o: Owners)
    requires Inv(g, t, o, map[], 0, 0) && o.own3 == map[]
    ensures o.own2 == map[]
  {
    forall h | h in o.own2 ensures false {
      var l2 := t.l2s[h];
      assert Counted(K2(g), l2);
      CountZero(l2.items, K2(g).used);
      forall x | 0 <= x < g.n2 ensures !K2(g).used(l2.items[x]) {
        assert Handle(g, t, o.own2[h], x) == l2.items[x];
      }
    }
  }

  /** The operations that a run may consist of name whole pages. */
  predicate OpAligned(g: Geometry, op: Op) {
    match op
    case DoUpdate(v, _, _, _, _) => Aligned(g, v)
    case DoSetPhysPage(v, _) => Aligned(g, v)
    case _ => true
  }

  // ----- the tables in place

  class TranslationTables {
    const g: Geometry
    var entries: seq<Entry>
    var l1: seq<nat>
    var l2s: seq<L2>
    var l3s: seq<L3>
    var freeL2: nat
    var freeL3: nat
    ghost var o: Owners
    ghost var slots: map<Addr, Slot>

    function Tabs(): Tables
      reads this
    {
      Tables(l1, l2s, l3s, freeL2, freeL3)
    }

    ghost function Flat(): Tlb
      reads this
    {
      Tlb(entries, slots)
    }

    ghost predicate Valid()
      reads this
    {
      |entries| > 0 && Inv(g, Tabs(), o, slots, 0, 0) && Linked(Flat())
    }

    /** The third-level table that serves a page; 0 if only the dummy does. */
    ghost function HandleOf(v: Addr): nat
      requires Valid()
      reads this
    {
      Handle(g, Tabs(), g.split(v).x1, g.split(v).x2)
    }

    /** init_tables: every first-level pointer leads to the dummy tables. */
    constructor (geometry: Geometry, n: nat)
      requires Lawful(geometry) && n > 0
      ensures Valid() && g == geometry && Flat() == Initial(n)
    {
      g := geometry;
      entries := seq(n, _ => EMPTY_ENTRY);
      l1 := seq(geometry.n1, _ => 0);
      l2s := [BlankL2(geometry)];
      l3s := [BlankL3(geometry)];
      freeL2 := 0;
      freeL3 := 0;
      o := Owners(map[], map[], [], []);
      slots := map[];
      new;
      CountZero(l2s[0].items, K2(g).used);
      CountZero(l3s[0].items, K3(g).used);
    }

    /** The three-level walk of the fast path. */
    method LookupSlot(v: Addr) returns (s: Slot)
      requires Valid() && Aligned(g, v)
      ensures s == Lookup(Flat(), v)
    {
      var c := g.split(v);
      s := l3s[l2s[l1[c.x1]].items[c.x2]].items[c.x3];
      assert s == Walk(g, Tabs(), c);
    }

    /** The same walk, for callers that go on using the third-level table. */
    method WalkTo(v: Addr) returns (held: nat, s: Slot)
      requires Valid() && Aligned(g, v)
      ensures held == HandleOf(v) && s == Lookup(Flat(), v)
    {
      hide Inv, Linked;
      FoundSlot(g, Tabs(), o, slots, v);
      var c := g.split(v);
      held := l2s[l1[c.x1]].items[c.x2];
      s := l3s[held].items[c.x3];
    }

    /** The table half of invalidate_tlb_entry. */
    method RemovePage(c: Coord)
      requires Sized(g, Tabs()) && InRange(g, c) && Handle(g, Tabs(), c.x1, c.x2) < |l3s|
      modifies `l1, `l2s, `l3s, `freeL2, `freeL3
      ensures Tabs() == DropPage(g, old(Tabs()), c)
    {
      var h2 := l1[c.x1];
      var h3 := l2s[h2].items[c.x2];
      var l3 := l3s[h3].(items := l3s[h3].items[c.x3 := EMPTY_SLOT]);
      if l3s[h3].items[c.x3].tlbIndex != 0 {
        l3 := l3.(refcount := l3.refcount - 1);
      }
      l3s := l3s[h3 := l3];
      if l3.refcount == 0 {
        l3s := l3s[h3 := l3.(next := freeL3)];
        freeL3 := h3;
        var l2 := l2s[h2];
        l2s := l2s[h2 := l2.(items := l2.items[c.x2 := 0],
                             refcount := if l2.items[c.x2] != 0 then l2.refcount - 1 else l2.refcount)];
        if l2s[h2].refcount == 0 {
          l2s := l2s[h2 := l2s[h2].(next := freeL2)];
          freeL2 := h2;
          l1 := l1[c.x1 := 0];
        }
      }
    }

    /** The JUST_MARK_AS_NON_WRITABLE case of invalidate_tlb_entry, past the dummies. */
    method MarkEntry(v: Addr)
      requires Valid() && Aligned(g, v) && HandleOf(v) != 0
      modifies `l3s, `slots
      ensures Valid() && Flat() == FlatTlb.InvalidateEntry(old(Flat()), v, true)
      ensures HandlesKept(g, old(Tabs()), Tabs(), g.split(v).x1, g.split(v).x2)
    {
      hide Inv, Linked, HandlesKept;
      FoundSlot(g, Tabs(), o, slots, v);
      InvalidateEntryLinked(Flat(), v, true);
      var c := g.split(v);
      var h3 := l2s[l1[c.x1]].items[c.x2];
      var marked := l3s[h3].items[c.x3].(hostStore := NULL);
      ghost var slots' := if v in slots then slots[v := marked] else slots;
      MarkPageInv(g, Tabs(), o, slots, slots', v, marked);
      l3s := l3s[h3 := l3s[h3].(items := l3s[h3].items[c.x3 := marked])];
      slots := slots';
    }

    /** The removal of a translation by invalidate_tlb_entry, past the dummies. */
    method DropEntry(v: Addr)
      requires Valid() && Aligned(g, v) && HandleOf(v) != 0
      modifies this
      ensures Valid() && Flat() == FlatTlb.InvalidateEntry(old(Flat()), v, false)
      ensures HandlesKept(g, old(Tabs()), Tabs(), g.split(v).x1, g.split(v).x2)
    {
      hide Inv, Linked, HandlesKept, DropPage;
      FoundSlot(g, Tabs(), o, slots, v);
      InvalidateEntryLinked(Flat(), v, false);
      UseLink(Flat(), v);
      var c := g.split(v);
      var i := l3s[l2s[l1[c.x1]].items[c.x2]].items[c.x3].tlbIndex;
      ghost var o' := DropPageInv(g, Tabs(), o, slots, v);
      RemovePage(c);
      o, slots := o', slots - {v};
      assert v !in old(slots) ==> slots == old(slots);
      if i != 0 {
        entries := entries[i - 1 := entries[i - 1].(valid := false)];
      }
    }

    /** invalidate_tlb_entry. */
    method InvalidateEntry(v: Addr, mark: bool)
      requires Valid() && Aligned(g, v)
      modifies this
      ensures Valid() && Flat() == FlatTlb.InvalidateEntry(old(Flat()), v, mark)
      ensures HandlesKept(g, old(Tabs()), Tabs(), g.split(v).x1, g.split(v).x2)
    {
      hide Inv, Linked, HandlesKept;
      FoundSlot(g, Tabs(), o, slots, v);
      NothingKept(g, Tabs(), g.split(v));
      var c := g.split(v);
      if l1[c.x1] == 0 || l2s[l1[c.x1]].items[c.x2] == 0 {
        return;
      }
      if mark {
        MarkEntry(v);
      } else {
        DropEntry(v);
      }
    }

    /** The table half of a miss in update_translation_table. */
    method InsertSlot(c: Coord, s: Slot)
      requires Sized(g, Tabs()) && InRange(g, c) && freeL2 < |l2s| && freeL3 < |l3s| && s.tlbIndex != 0
      requires l1[c.x1] == 0 ==> Sized(g, TakeL2(g, Tabs(), c.x1))
      requires Sized(g, LinkTables(g, Tabs(), c))
      modifies `l1, `l2s, `l3s, `freeL2, `freeL3
      ensures Tabs() == InsertPage(g, old(Tabs()), c, s)
    {
      LinkL2(c);
      LinkL3(c);
      var h3 := l2s[l1[c.x1]].items[c.x2];
      var old3 := l3s[h3];
      l3s := l3s[h3 := old3.(items := old3.items[c.x3 := s],
                             refcount := if old3.items[c.x3].tlbIndex == 0 then old3.refcount + 1 else old3.refcount)];
    }

    method LinkL2(c: Coord)
      requires Sized(g, Tabs()) && InRange(g, c) && freeL2 < |l2s|
      modifies `l1, `l2s, `freeL2
      ensures Tabs() == if old(l1[c.x1]) == 0 then TakeL2(g, old(Tabs()), c.x1) else old(Tabs())
    {
      if l1[c.x1] == 0 {
        if freeL2 != 0 {
          l1 := l1[c.x1 := freeL2];
          freeL2 := l2s[freeL2].next;
        } else {
          l1, l2s := l1[c.x1 := |l2s|], l2s + [BlankL2(g)];
        }
      }
    }

    method LinkL3(c: Coord)
      requires Sized(g, Tabs()) && InRange(g, c) && freeL3 < |l3s|
      modifies `l2s, `l3s, `freeL3
      ensures Tabs() == if Handle(g, old(Tabs()), c.x1, c.x2) == 0 then TakeL3(g, old(Tabs()), c.x1, c.x2) else old(Tabs())
    {
      var h2 := l1[c.x1];
      var l2 := l2s[h2];
      if l2.items[c.x2] == 0 {
        var h3 := |l3s|;
        if freeL3 != 0 {
          h3 := freeL3;
          freeL3 := l3s[h3].next;
        } else {
          l3s := l3s + [BlankL3(g)];
        }
        l2s := l2s[h2 := l2.(items := l2.items[c.x2 := h3], refcount := l2.refcount + 1)];
      }
    }

    /** update_translation_table. Whatever table already serves the page goes on serving it. */
    method Update(v: Addr, host: Ptr, a: Access, p: Addr, tick: nat)
      requires Valid() && Aligned(g, v)
      modifies this
      ensures Valid() && Flat() == FlatTlb.Update(Bits64, old(Flat()), v, host, a, p, tick)
      ensures old(HandleOf(v)) != 0 ==> HandleOf(v) == old(HandleOf(v))
    {
      hide Inv, Linked;
      FoundSlot(g, Tabs(), o, slots, v);
      var c := g.split(v);
      var found := l3s[l2s[l1[c.x1]].items[c.x2]].items[c.x3].tlbIndex;
      if found == 0 {
        var r := tick % |entries|;
        EvictEntry(v, r);
        Install(v, host, a, p, r);
      } else {
        Refresh(v, host, a, p, found - 1);
      }
    }

    /** A hit: change the slot and its entry in place. */
    method Refresh(v: Addr, host: Ptr, a: Access, p: Addr, r: nat)
      requires Valid() && Aligned(g, v) && v in slots && slots[v].tlbIndex == r + 1
      modifies `l3s, `entries, `slots
      ensures Valid() && Flat() == FlatTlb.Update(Bits64, old(Flat()), v, host, a, p, 0)
      ensures HandleOf(v) == old(HandleOf(v))
    {
      hide Inv, Linked;
      FoundSlot(g, Tabs(), o, slots, v);
      UpdateLinked(Bits64, Flat(), v, host, a, p, 0);
      UseLink(Flat(), v);
      var c := g.split(v);
      var h3 := l2s[l1[c.x1]].items[c.x2];
      entries := entries[r := UpdatedEntry(entries[r], a)];
      var s := UpdatedSlot(Bits64, l3s[h3].items[c.x3], host, a, p);
      ghost var slots' := slots[v := s];
      MarkPageInv(g, Tabs(), o, slots, slots', v, s);
      l3s := l3s[h3 := l3s[h3].(items := l3s[h3].items[c.x3 := s])];
      slots := slots';
    }

    /** A miss, once entry `r` is free. */
    method Install(v: Addr, host: Ptr, a: Access, p: Addr, r: nat)
      requires Valid() && Aligned(g, v) && v !in slots && r < |entries| && !entries[r].valid
      modifies this
      ensures Valid() && Flat() == FlatTlb.Install(Bits64, old(Flat()), v, host, a, p, r)
      ensures var h, h' := old(HandleOf(v)), HandleOf(v);
              (h != 0 ==> h' == h) && (h == 0 && old(freeL3) != 0 ==> h' == old(freeL3))
    {
      hide Inv, Linked, InsertPage, LinkTables;
      InstallLinked(Bits64, Flat(), v, host, a, p, r);
      entries := entries[r := Entry(true, a.write, v, p, host)];
      var s := FreshSlot(Bits64, host, a, p, r);
      FoundSlot(g, Tabs(), o, slots, v);
      ghost var o' := InsertPageInv(g, Tabs(), o, slots, v, s);
      InsertSlot(g.split(v), s);
      o, slots := o', slots[v := s];
    }

    /** Make entry `r` free for the page `v`, which is not mapped. */
    method EvictEntry(v: Addr, r: nat)
      requires Valid() && Aligned(g, v) && v !in slots && r < |entries|
      modifies this
      ensures Valid() && Flat() == Evict(old(Flat()), r) && v !in slots
      ensures |entries| == old(|entries|) && !entries[r].valid
      ensures var h, h' := old(HandleOf(v)), HandleOf(v); h' == h || (h' == 0 && freeL3 == h)
    {
      UseEntryLink(Flat(), r);
      EvictLinked(Flat(), r);
      FoundSlot(g, Tabs(), o, slots, v);
      AlignedKeys(g, Tabs(), slots);
      hide Inv, Linked;
      if entries[r].valid {
        InvalidateEntry(entries[r].vaddr, false);
      }
    }

    /** invalidate_translation_caches: scan the linear array for the entries that are hit. */
    method Invalidate(target: Target, mark: bool)
      requires Valid()
      modifies this
      ensures Valid() && Flat() == FlatTlb.Invalidate(old(Flat()), target, mark)
      ensures target.All? ==> Sized(g, Tabs()) && AllReturned(g, Tabs(), o)
    {
      hide Inv, Linked, AllReturned, Hits, SlotHit, FlatTlb.InvalidateEntry, InvalidateFirst;
      ghost var f := Flat();
      var only := mark && !target.All?;
      InvalidateFirstNone(f, target, only);
      var r := 0;
      while r < |entries|
        invariant 0 <= r <= |entries| == |f.entries| && Valid()
        invariant Flat() == InvalidateFirst(f, target, only, r)
      {
        ScanAt(f, target, only, r);
        AlignedKeysInv(g, Tabs(), o, slots);
        if Hits(target, entries[r]) {
          ScanHit(f, target, only, r);
          InvalidateFirstLinked(f, target, only, r + 1);
          HitsValid(target, entries[r]);
          var e := entries[r];
          InvalidateEntry(e.vaddr, only);
          if target.Phys? {
            entries := entries[r := if only then entries[r].(writable := false) else entries[r].(valid := false)];
          }
          UntouchedEntry(InvalidateFirst(f, target, only, r), e.vaddr, only, r, target);
        } else {
          ScanMiss(f, target, only, r);
        }
        r := r + 1;
      }
      NothingMapped(g, Tabs(), o, slots);
      InvalidateRemoves(f, target);
    }

    /**
     The store of a code-page pointer at the end of pc_to_pointers_generic. `held` is the
     third-level table that was looked up before the page was inserted.
     */
    method SetPhysPage(v: Addr, held: nat, page: Ptr)
      requires Valid() && Aligned(g, v) && (held == 0 || held == HandleOf(v))
      modifies `l3s, `slots
      ensures Valid()
      ensures Flat() == if held == 0 then old(Flat()) else FlatTlb.SetPhysPage(old(Flat()), v, page)
      ensures HandleOf(v) == old(HandleOf(v))
    {
      hide Inv, Linked;
      FoundSlot(g, Tabs(), o, slots, v);
      UseDummy(g, Tabs(), o, slots);
      SetPhysPageLinked(Flat(), v, page);
      var x3 := g.split(v).x3;
      if l3s[held].items[x3].hostLoad != NULL {
        var s := l3s[held].items[x3].(physPage := page);
        ghost var slots' := slots[v := s];
        MarkPageInv(g, Tabs(), o, slots, slots', v, s);
        l3s := l3s[held := l3s[held].(items := l3s[held].items[x3 := s])];
        slots := slots';
      }
    }

    /** The second half of invalidate_code_translation. */
    method ClearPhysPages(target: Target)
      requires Valid()
      modifies `l3s, `slots
      ensures Valid() && Flat() == FlatTlb.ClearPhysPages(old(Flat()), target)
      ensures forall v :: HandleOf(v) == old(HandleOf(v))
    {
      hide Inv, Linked, Hits, SlotHit, ClearFirst;
      ghost var f := Flat();
      ClearFirstNone(f, target);
      var r := 0;
      while r < |entries|
        invariant 0 <= r <= |entries| == |f.entries| && Valid()
        invariant Flat() == ClearFirst(f, target, r)
      {
        ClearFirstStep(f, target, r);
        ClearFirstLinked(f, target, r + 1);
        AlignedKeysInv(g, Tabs(), o, slots);
        ClearFirstEntries(f, target, r);
        if Hits(target, entries[r]) {
          var v := entries[r].vaddr;
          FoundSlot(g, Tabs(), o, slots, v);
          var c := g.split(v);
          var h3 := l2s[l1[c.x1]].items[c.x2];
          var s := l3s[h3].items[c.x3].(physPage := NULL);
          ghost var slots' := slots[v := s];
          MarkPageInv(g, Tabs(), o, slots, slots', v, s);
          l3s := l3s[h3 := l3s[h3].(items := l3s[h3].items[c.x3 := s])];
          slots := slots';
        }
        r := r + 1;
      }
    }

    /** Any sequence of operations, each applied to the tables that the ones before it left. */
    method Perform(ops: seq<Op>)
      requires Valid() && forall i :: 0 <= i < |ops| ==> OpAligned(g, ops[i])
      modifies this
      ensures Valid() && Flat() == Run(Bits64, old(Flat()), ops)
      decreases |ops|
    {
      hide Inv, Linked, Step, FlatTlb.Update, FlatTlb.Invalidate, FlatTlb.SetPhysPage, FlatTlb.ClearPhysPages;
      if ops != [] {
        ghost var f := Flat();
        PerformOne(ops[0]);
        Perform(ops[1..]);
        RunStep(Bits64, f, ops);
      }
    }

    method PerformOne(op: Op)
      requires Valid() && OpAligned(g, op)
      modifies this
      ensures Valid() && Flat() == Step(Bits64, old(Flat()), op)
    {
      hide Inv, Linked, FlatTlb.Update, FlatTlb.Invalidate, FlatTlb.ClearPhysPages;
      match op
      case DoUpdate(v, host, a, p, tick) =>
        Update(v, host, a, p, tick);
      case DoInvalidate(target, mark) =>
        Invalidate(target, mark);
      case DoSetPhysPage(v, code) =>
        FoundSlot(g, Tabs(), o, slots, v);
        var c := g.split(v);
        SetPhysPage(v, l2s[l1[c.x1]].items[c.x2], code);
      case DoClearPhysPages(target) =>
        ClearPhysPages(target);
    }
  }
}
