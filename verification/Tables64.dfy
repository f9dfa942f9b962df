/**
 The three-level translation tables of a 64-bit guest, as values: an array of second-level
 tables, each an array of third-level tables, each an array of slots.  The tables of a level live
 in an `Arena`; index 0 of each arena is the dummy table that every unused pointer points to.
 */
module Tables64 {
  import opened FlatTlb
  import opened Arena

  /** A virtual page, as the three indices that select its slot. */
  datatype Coord = Coord(x1: nat, x2: nat, x3: nat)

  /** Table sizes, and how an address is taken apart and put together. */
  datatype Geometry = Geometry(n1: nat, n2: nat, n3: nat, split: Addr -> Coord, join: Coord -> Addr)

  predicate InRange(g: Geometry, c: Coord) {
    c.x1 < g.n1 && c.x2 < g.n2 && c.x3 < g.n3
  }

  predicate Aligned(g: Geometry, v: Addr) {
    g.join(g.split(v)) == v
  }

  ghost predicate Lawful(g: Geometry) {
    && (forall v :: InRange(g, g.split(v)))
    && (forall c {:trigger g.join(c)} :: InRange(g, c) ==> g.split(g.join(c)) == c)
  }

  type L2 = Table<nat>
  type L3 = Table<Slot>

  function K2(g: Geometry): Kind<nat> { Kind(g.n2, 0, (h: nat) => h != 0) }
  function K3(g: Geometry): Kind<Slot> { Kind(g.n3, EMPTY_SLOT, (s: Slot) => s.tlbIndex != 0) }

  datatype Tables = Tables(l1: seq<nat>, l2s: seq<L2>, l3s: seq<L3>, freeL2: nat, freeL3: nat)

  /** Where each table is: linked at one place, or on a free list. */
  datatype Owners = Owners(own2: map<nat, nat>, own3: map<nat, (nat, nat)>, free2: seq<nat>, free3: seq<nat>)

  // ----- the invariant

  predicate Sized(g: Geometry, t: Tables) {
    && |t.l1| == g.n1
    && (forall x :: 0 <= x < g.n1 ==> t.l1[x] < |t.l2s|)
    && (forall h :: 0 <= h < |t.l2s| ==> |t.l2s[h].items| == g.n2)
    && (forall h, x :: 0 <= h < |t.l2s| && 0 <= x < g.n2 ==> t.l2s[h].items[x] < |t.l3s|)
    && (forall h :: 0 <= h < |t.l3s| ==> |t.l3s[h].items| == g.n3)
  }

  /** The third-level table that serves a pair of indices; 0 if only the dummy does. */
  function Handle(g: Geometry, t: Tables, x1: nat, x2: nat): nat
    requires Sized(g, t) && x1 < g.n1 && x2 < g.n2
  {
    t.l2s[t.l1[x1]].items[x2]
  }

  /** The three-level walk. */
  function Walk(g: Geometry, t: Tables, c: Coord): Slot
    requires Sized(g, t) && InRange(g, c)
  {
    t.l3s[Handle(g, t, c.x1, c.x2)].items[c.x3]
  }

  /** A live second-level table is linked from exactly one first-level index. */
  ghost predicate Owned2(g: Geometry, t: Tables, own2: map<nat, nat>)
    requires Sized(g, t)
  {
    && (forall x :: 0 <= x < g.n1 && t.l1[x] != 0 ==> t.l1[x] in own2 && own2[t.l1[x]] == x)
    && (forall h :: h in own2 ==> own2[h] < g.n1 && t.l1[own2[h]] == h)
  }

  /** A live third-level table serves exactly one pair of indices. */
  ghost predicate Owned3(g: Geometry, t: Tables, own3: map<nat, (nat, nat)>)
    requires Sized(g, t)
  {
    && (forall x1, x2 :: 0 <= x1 < g.n1 && 0 <= x2 < g.n2 && Handle(g, t, x1, x2) != 0 ==>
          Handle(g, t, x1, x2) in own3 && own3[Handle(g, t, x1, x2)] == (x1, x2))
    && (forall h :: h in own3 ==>
          own3[h].0 < g.n1 && own3[h].1 < g.n2 && Handle(g, t, own3[h].0, own3[h].1) == h)
  }

  ghost predicate Ok2(g: Geometry, t: Tables, o: Owners) {
    Ok(K2(g), t.l2s, t.freeL2, o.free2, o.own2.Keys)
  }

  ghost predicate Ok3(g: Geometry, t: Tables, o: Owners) {
    Ok(K3(g), t.l3s, t.freeL3, o.free3, o.own3.Keys)
  }

  ghost predicate Shape(g: Geometry, t: Tables, o: Owners) {
    Sized(g, t) && Owned2(g, t, o.own2) && Owned3(g, t, o.own3) && Ok2(g, t, o) && Ok3(g, t, o)
  }

  /** Live tables other than the two named ones are in use. */
  ghost predicate Busy(t: Tables, o: Owners, except2: nat, except3: nat) {
    && (forall h :: h in o.own2 && h < |t.l2s| && h != except2 ==> t.l2s[h].refcount > 0)
    && (forall h :: h in o.own3 && h < |t.l3s| && h != except3 ==> t.l3s[h].refcount > 0)
  }

  /** Two tables are indistinguishable to every walk. */
  ghost predicate SameWalk(g: Geometry, t: Tables, t': Tables) {
    Sized(g, t) && Sized(g, t') &&
    forall c {:trigger Walk(g, t', c)} :: InRange(g, c) ==> Walk(g, t', c) == Walk(g, t, c)
  }

  lemma OwnedHandle(g: Geometry, t: Tables, o: Owners, x1: nat, x2: nat)
    requires Shape(g, t, o) && x1 < g.n1 && x2 < g.n2
    ensures t.l1[x1] != 0 ==> t.l1[x1] in o.own2 && 0 < t.l1[x1] < |t.l2s| && o.own2[t.l1[x1]] == x1
    ensures t.l1[x1] == 0 ==> Handle(g, t, x1, x2) == 0
    ensures Handle(g, t, x1, x2) != 0 ==>
              t.l1[x1] != 0 && Handle(g, t, x1, x2) in o.own3 && 0 < Handle(g, t, x1, x2) < |t.l3s|
    ensures forall x3 :: 0 <= x3 < g.n3 ==> t.l3s[0].items[x3] == EMPTY_SLOT
  {
    assert Blank(K2(g), t.l2s[0]) && t.l2s[0].items[x2] == K2(g).blank == 0;
    assert Blank(K3(g), t.l3s[0]);
  }

  lemma SameHandles(g: Geometry, t: Tables, t': Tables, own3: map<nat, (nat, nat)>)
    requires Sized(g, t) && Sized(g, t') && t'.l3s == t.l3s
    requires forall a, b :: 0 <= a < g.n1 && 0 <= b < g.n2 ==> Handle(g, t', a, b) == Handle(g, t, a, b)
    ensures SameWalk(g, t, t')
    ensures Owned3(g, t, own3) ==> Owned3(g, t', own3)
  {
  }

  /** A blank table put in place of the dummy changes nothing that a walk can see. */
  lemma AttachBlank(g: Geometry, t: Tables, t': Tables, own3: map<nat, (nat, nat)>, x1: nat, x2: nat, h3: nat)
    requires Sized(g, t) && Sized(g, t') && Owned3(g, t, own3)
    requires x1 < g.n1 && x2 < g.n2 && Handle(g, t, x1, x2) == 0
    requires 0 < h3 && h3 !in own3 && 0 !in own3 && h3 < |t'.l3s| && Blank(K3(g), t'.l3s[h3])
    requires |t.l3s| > 0 && Blank(K3(g), t.l3s[0]) && t.l3s <= t'.l3s
    requires forall a, b :: 0 <= a < g.n1 && 0 <= b < g.n2 ==>
               Handle(g, t', a, b) == if a == x1 && b == x2 then h3 else Handle(g, t, a, b)
    ensures SameWalk(g, t, t')
    ensures Owned3(g, t', own3[h3 := (x1, x2)])
  {
    forall c | InRange(g, c) ensures Walk(g, t', c) == Walk(g, t, c) {
      if c.x1 == x1 && c.x2 == x2 {
        assert t'.l3s[h3].items[c.x3] == K3(g).blank == t.l3s[0].items[c.x3];
      }
    }
  }

  /** Nor does the dummy put in place of a blank table. */
  lemma DetachBlank(g: Geometry, t: Tables, t': Tables, own3: map<nat, (nat, nat)>, x1: nat, x2: nat, h3: nat)
    requires Sized(g, t) && Sized(g, t') && Owned3(g, t, own3) && 0 !in own3
    requires x1 < g.n1 && x2 < g.n2 && Handle(g, t, x1, x2) == h3 != 0 && Blank(K3(g), t.l3s[h3])
    requires |t'.l3s| == |t.l3s| && forall h :: 0 <= h < |t.l3s| ==> t'.l3s[h].items == t.l3s[h].items
    requires Blank(K3(g), t.l3s[0])
    requires forall a, b :: 0 <= a < g.n1 && 0 <= b < g.n2 ==>
               Handle(g, t', a, b) == if a == x1 && b == x2 then 0 else Handle(g, t, a, b)
    ensures SameWalk(g, t, t')
    ensures Owned3(g, t', own3 - {h3})
  {
    forall c | InRange(g, c) ensures Walk(g, t', c) == Walk(g, t, c) {
      if c.x1 == x1 && c.x2 == x2 {
        assert t.l3s[h3].items[c.x3] == K3(g).blank == t.l3s[0].items[c.x3];
      }
    }
  }

  // ----- write one slot

  function PutSlot(g: Geometry, t: Tables, h: nat, x3: nat, s: Slot): Tables
    requires h < |t.l3s| && x3 < |t.l3s[h].items|
  {
    t.(l3s := t.l3s[h := Put(K3(g), t.l3s[h], x3, s)])
  }

  lemma PutSlotShape(g: Geometry, t: Tables, o: Owners, h: nat, x3: nat, s: Slot)
    requires Shape(g, t, o) && h in o.own3 && x3 < g.n3
    ensures h < |t.l3s| && Shape(g, PutSlot(g, t, h, x3, s), o)
    ensures forall x1, x2 :: 0 <= x1 < g.n1 && 0 <= x2 < g.n2 ==>
              Handle(g, PutSlot(g, t, h, x3, s), x1, x2) == Handle(g, t, x1, x2)
    ensures forall c {:trigger Walk(g, PutSlot(g, t, h, x3, s), c)} :: InRange(g, c) ==>
              Walk(g, PutSlot(g, t, h, x3, s), c) ==
              if c == Coord(o.own3[h].0, o.own3[h].1, x3) then s else Walk(g, t, c)
  {
    var t' := PutSlot(g, t, h, x3, s);
    PutOk(K3(g), t.l3s, t.freeL3, o.free3, o.own3.Keys, h, x3, s);
    assert Sized(g, t');
    assert forall x1, x2 :: 0 <= x1 < g.n1 && 0 <= x2 < g.n2 ==> Handle(g, t', x1, x2) == Handle(g, t, x1, x2);
  }

  // ----- change one pointer to a third-level table

  /** Point (x1, x2) at another third-level table; the second-level reference count follows. */
  function Redirect(g: Geometry, t: Tables, x1: nat, x2: nat, h3: nat): Tables
    requires Sized(g, t) && x1 < g.n1 && x2 < g.n2
  {
    t.(l2s := t.l2s[t.l1[x1] := Put(K2(g), t.l2s[t.l1[x1]], x2, h3)])
  }

  lemma RedirectHandles(g: Geometry, t: Tables, o: Owners, x1: nat, x2: nat, h3: nat)
    requires Sized(g, t) && Owned2(g, t, o.own2) && Ok2(g, t, o)
    requires x1 < g.n1 && x2 < g.n2 && t.l1[x1] != 0 && h3 < |t.l3s|
    ensures Sized(g, Redirect(g, t, x1, x2, h3)) && Owned2(g, Redirect(g, t, x1, x2, h3), o.own2)
    ensures Ok2(g, Redirect(g, t, x1, x2, h3), o)
    ensures forall a, b :: 0 <= a < g.n1 && 0 <= b < g.n2 ==>
              Handle(g, Redirect(g, t, x1, x2, h3), a, b) == if a == x1 && b == x2 then h3 else Handle(g, t, a, b)
  {
    var t' := Redirect(g, t, x1, x2, h3);
    var h2 := t.l1[x1];
    PutOk(K2(g), t.l2s, t.freeL2, o.free2, o.own2.Keys, h2, x2, h3);
    assert Sized(g, t');
    forall a, b | 0 <= a < g.n1 && 0 <= b < g.n2
      ensures Handle(g, t', a, b) == if a == x1 && b == x2 then h3 else Handle(g, t, a, b)
    {
      if t.l1[a] == h2 { assert o.own2[h2] == a && o.own2[h2] == x1; }
    }
  }

  // ----- return an unused third-level table

  function DropL3(g: Geometry, t: Tables, x1: nat, x2: nat): Tables
    requires Sized(g, t) && x1 < g.n1 && x2 < g.n2
  {
    var h3 := Handle(g, t, x1, x2);
    Redirect(g, t, x1, x2, 0).(l3s := t.l3s[h3 := t.l3s[h3].(next := t.freeL3)], freeL3 := h3)
  }

  function DropL3Owners(o: Owners, h3: nat): Owners {
    o.(own3 := o.own3 - {h3}, free3 := [h3] + o.free3)
  }

  lemma DropL3Shape(g: Geometry, t: Tables, o: Owners, x1: nat, x2: nat)
    requires Shape(g, t, o) && x1 < g.n1 && x2 < g.n2 && Handle(g, t, x1, x2) != 0
    requires Blank(K3(g), t.l3s[Handle(g, t, x1, x2)])
    ensures Shape(g, DropL3(g, t, x1, x2), DropL3Owners(o, Handle(g, t, x1, x2)))
    ensures forall a, b :: 0 <= a < g.n1 && 0 <= b < g.n2 ==>
              Handle(g, DropL3(g, t, x1, x2), a, b) == if a == x1 && b == x2 then 0 else Handle(g, t, a, b)
    ensures SameWalk(g, t, DropL3(g, t, x1, x2))
  {
    var t', h3 := DropL3(g, t, x1, x2), Handle(g, t, x1, x2);
    OwnedHandle(g, t, o, x1, x2);
    RedirectHandles(g, t, o, x1, x2, 0);
    var r := Redirect(g, t, x1, x2, 0);
    assert Sized(g, t');
    assert forall a, b :: 0 <= a < g.n1 && 0 <= b < g.n2 ==> Handle(g, t', a, b) == Handle(g, r, a, b);
    PushOk(K3(g), t.l3s, t.freeL3, o.free3, o.own3.Keys, h3);
    assert (o.own3 - {h3}).Keys == o.own3.Keys - {h3};
    DetachBlank(g, t, t', o.own3, x1, x2, h3);
  }

  // ----- return an unused second-level table

  function DropL2(g: Geometry, t: Tables, x1: nat): Tables
    requires Sized(g, t) && x1 < g.n1
  {
    var h2 := t.l1[x1];
    t.(l2s := t.l2s[h2 := t.l2s[h2].(next := t.freeL2)], freeL2 := h2, l1 := t.l1[x1 := 0])
  }

  function DropL2Owners(o: Owners, h2: nat): Owners {
    o.(own2 := o.own2 - {h2}, free2 := [h2] + o.free2)
  }

  lemma DropL2Shape(g: Geometry, t: Tables, o: Owners, x1: nat)
    requires Shape(g, t, o) && x1 < g.n1 && t.l1[x1] != 0 && t.l2s[t.l1[x1]].refcount == 0
    ensures Shape(g, DropL2(g, t, x1), DropL2Owners(o, t.l1[x1]))
    ensures forall a, b :: 0 <= a < g.n1 && 0 <= b < g.n2 ==>
              Handle(g, DropL2(g, t, x1), a, b) == Handle(g, t, a, b)
    ensures SameWalk(g, t, DropL2(g, t, x1))
  {
    var t', h2 := DropL2(g, t, x1), t.l1[x1];
    assert Counted(K2(g), t.l2s[h2]);
    CountZero(t.l2s[h2].items, K2(g).used);
    assert Blank(K2(g), t.l2s[h2]);
    PushOk(K2(g), t.l2s, t.freeL2, o.free2, o.own2.Keys, h2);
    assert (o.own2 - {h2}).Keys == o.own2.Keys - {h2};
    assert Sized(g, t');
    forall a, b | 0 <= a < g.n1 && 0 <= b < g.n2 ensures Handle(g, t', a, b) == Handle(g, t, a, b) {
      if a == x1 {
        assert Blank(K2(g), t.l2s[0]);
        assert t.l2s[h2].items[b] == K2(g).blank == t.l2s[0].items[b];
      }
    }
    SameHandles(g, t, t', o.own3);
  }

  // ----- obtain a second-level table

  function BlankL2(g: Geometry): L2 { Table(seq(g.n2, _ => 0), 0, 0) }
  function BlankL3(g: Geometry): L3 { Table(seq(g.n3, _ => EMPTY_SLOT), 0, 0) }

  function TakeL2(g: Geometry, t: Tables, x1: nat): Tables
    requires x1 < |t.l1| && t.freeL2 < |t.l2s|
  {
    if t.freeL2 != 0 then t.(l1 := t.l1[x1 := t.freeL2], freeL2 := t.l2s[t.freeL2].next)
    else t.(l1 := t.l1[x1 := |t.l2s|], l2s := t.l2s + [BlankL2(g)])
  }

  function TakeL2Owners(t: Tables, o: Owners, x1: nat): Owners {
    if t.freeL2 != 0 && o.free2 != [] then o.(own2 := o.own2[t.freeL2 := x1], free2 := o.free2[1..])
    else o.(own2 := o.own2[|t.l2s| := x1])
  }

  lemma TakeL2Arena(g: Geometry, t: Tables, o: Owners, x1: nat)
    requires Shape(g, t, o) && x1 < g.n1
    ensures t.freeL2 < |t.l2s| && Ok2(g, TakeL2(g, t, x1), TakeL2Owners(t, o, x1))
    ensures var h2 := TakeL2(g, t, x1).l1[x1];
            0 < h2 < |TakeL2(g, t, x1).l2s| && h2 !in o.own2 && Blank(K2(g), TakeL2(g, t, x1).l2s[h2])
            && TakeL2Owners(t, o, x1).own2 == o.own2[h2 := x1]
  {
    ChainFacts(K2(g), t.l2s, t.freeL2, o.free2, o.own2.Keys);
    if t.freeL2 != 0 {
      PopOk(K2(g), t.l2s, t.freeL2, o.free2, o.own2.Keys);
      assert o.own2.Keys + {t.freeL2} == o.own2[t.freeL2 := x1].Keys;
    } else {
      GrowOk(K2(g), t.l2s, o.free2, o.own2.Keys, BlankL2(g));
      assert o.own2.Keys + {|t.l2s|} == o.own2[|t.l2s| := x1].Keys;
    }
  }

  /** A blank second-level table put in place of the dummy leaves every pair of indices as it was. */
  lemma LinkBlankL2(g: Geometry, t: Tables, t': Tables, own2: map<nat, nat>, x1: nat, h2: nat)
    requires Sized(g, t) && Owned2(g, t, own2) && 0 !in own2 && x1 < g.n1 && t.l1[x1] == 0
    requires |t.l2s| > 0 && Blank(K2(g), t.l2s[0]) && |t.l3s| > 0 && t'.l3s == t.l3s
    requires 0 < h2 < |t'.l2s| && h2 !in own2 && Blank(K2(g), t'.l2s[h2])
    requires t'.l1 == t.l1[x1 := h2] && t.l2s <= t'.l2s
    requires |t'.l2s| == |t.l2s| || (|t'.l2s| == |t.l2s| + 1 && h2 == |t.l2s|)
    ensures Sized(g, t') && Owned2(g, t', own2[h2 := x1])
    ensures forall a, b :: 0 <= a < g.n1 && 0 <= b < g.n2 ==> Handle(g, t', a, b) == Handle(g, t, a, b)
  {
    forall h | 0 <= h < |t'.l2s|
      ensures |t'.l2s[h].items| == g.n2 && forall x :: 0 <= x < g.n2 ==> t'.l2s[h].items[x] < |t'.l3s|
    {
      assert h == h2 || t'.l2s[h] == t.l2s[h];
    }
    forall a, b | 0 <= a < g.n1 && 0 <= b < g.n2
      ensures t'.l2s[t'.l1[a]].items[b] == t.l2s[t.l1[a]].items[b]
    {
      if a == x1 { assert t'.l2s[h2].items[b] == K2(g).blank == t.l2s[0].items[b]; }
    }
  }

  lemma TakeL2Shape(g: Geometry, t: Tables, o: Owners, x1: nat)
    requires Shape(g, t, o) && x1 < g.n1 && t.l1[x1] == 0
    ensures t.freeL2 < |t.l2s|
    ensures Shape(g, TakeL2(g, t, x1), TakeL2Owners(t, o, x1))
    ensures TakeL2(g, t, x1).l1[x1] != 0
    ensures TakeL2(g, t, x1).l2s[TakeL2(g, t, x1).l1[x1]].refcount == 0
    ensures forall a, b :: 0 <= a < g.n1 && 0 <= b < g.n2 ==>
              Handle(g, TakeL2(g, t, x1), a, b) == Handle(g, t, a, b)
    ensures SameWalk(g, t, TakeL2(g, t, x1))
  {
    TakeL2Arena(g, t, o, x1);
    LinkBlankL2(g, t, TakeL2(g, t, x1), o.own2, x1, TakeL2(g, t, x1).l1[x1]);
    SameHandles(g, t, TakeL2(g, t, x1), o.own3);
  }

  // ----- obtain a third-level table

  function TakeL3(g: Geometry, t: Tables, x1: nat, x2: nat): Tables
    requires Sized(g, t) && x1 < g.n1 && x2 < g.n2 && t.freeL3 < |t.l3s|
  {
    if t.freeL3 != 0 then
      Redirect(g, t, x1, x2, t.freeL3).(freeL3 := t.l3s[t.freeL3].next)
    else
      Redirect(g, t, x1, x2, |t.l3s|).(l3s := t.l3s + [BlankL3(g)])
  }

  function TakeL3Owners(t: Tables, o: Owners, x1: nat, x2: nat): Owners {
    if t.freeL3 != 0 && o.free3 != [] then o.(own3 := o.own3[t.freeL3 := (x1, x2)], free3 := o.free3[1..])
    else o.(own3 := o.own3[|t.l3s| := (x1, x2)])
  }

  lemma TakeL3Arena(g: Geometry, t: Tables, o: Owners, x1: nat, x2: nat)
    requires Shape(g, t, o) && x1 < g.n1 && x2 < g.n2
    ensures t.freeL3 < |t.l3s| && Ok3(g, TakeL3(g, t, x1, x2), TakeL3Owners(t, o, x1, x2))
    ensures var h3, l3s := (if t.freeL3 != 0 then t.freeL3 else |t.l3s|), TakeL3(g, t, x1, x2).l3s;
            && 0 < h3 < |l3s| && h3 !in o.own3 && Blank(K3(g), l3s[h3])
            && t.l3s <= l3s
            && TakeL3Owners(t, o, x1, x2).own3 == o.own3[h3 := (x1, x2)]
  {
    ChainFacts(K3(g), t.l3s, t.freeL3, o.free3, o.own3.Keys);
    if t.freeL3 != 0 {
      PopOk(K3(g), t.l3s, t.freeL3, o.free3, o.own3.Keys);
      assert o.own3.Keys + {t.freeL3} == o.own3[t.freeL3 := (x1, x2)].Keys;
    } else {
      GrowOk(K3(g), t.l3s, o.free3, o.own3.Keys, BlankL3(g));
      assert o.own3.Keys + {|t.l3s|} == o.own3[|t.l3s| := (x1, x2)].Keys;
    }
  }

  lemma TakeL3Handles(g: Geometry, t: Tables, o: Owners, x1: nat, x2: nat, h3: nat)
    requires Shape(g, t, o) && x1 < g.n1 && x2 < g.n2 && t.l1[x1] != 0
    requires h3 == if t.freeL3 != 0 then t.freeL3 else |t.l3s|
    ensures t.freeL3 < |t.l3s| && Sized(g, TakeL3(g, t, x1, x2))
    ensures Owned2(g, TakeL3(g, t, x1, x2), o.own2) && Ok2(g, TakeL3(g, t, x1, x2), o)
    ensures forall a, b :: 0 <= a < g.n1 && 0 <= b < g.n2 ==>
              Handle(g, TakeL3(g, t, x1, x2), a, b) == if a == x1 && b == x2 then h3 else Handle(g, t, a, b)
  {
    TakeL3Arena(g, t, o, x1, x2);
    var t' := TakeL3(g, t, x1, x2);
    var grown := t.(l3s := t'.l3s);
    assert forall h :: 0 <= h < |t'.l3s| ==> |t'.l3s[h].items| == g.n3;
    assert Sized(g, grown) && Owned2(g, grown, o.own2) && Ok2(g, grown, o);
    RedirectHandles(g, grown, o, x1, x2, h3);
    var r := Redirect(g, grown, x1, x2, h3);
    assert t' == r.(freeL3 := t'.freeL3);
    assert Sized(g, t');
    forall a, b | 0 <= a < g.n1 && 0 <= b < g.n2
      ensures Handle(g, t', a, b) == if a == x1 && b == x2 then h3 else Handle(g, t, a, b)
    {
      assert Handle(g, t', a, b) == Handle(g, r, a, b);
      assert Handle(g, grown, a, b) == Handle(g, t, a, b);
    }
  }

  lemma TakeL3Shape(g: Geometry, t: Tables, o: Owners, x1: nat, x2: nat)
    requires Shape(g, t, o) && x1 < g.n1 && x2 < g.n2 && t.l1[x1] != 0 && Handle(g, t, x1, x2) == 0
    ensures t.freeL3 < |t.l3s|
    ensures Shape(g, TakeL3(g, t, x1, x2), TakeL3Owners(t, o, x1, x2))
    ensures forall a, b :: 0 <= a < g.n1 && 0 <= b < g.n2 && !(a == x1 && b == x2) ==>
              Handle(g, TakeL3(g, t, x1, x2), a, b) == Handle(g, t, a, b)
    ensures var h := Handle(g, TakeL3(g, t, x1, x2), x1, x2);
            h != 0 && Blank(K3(g), TakeL3(g, t, x1, x2).l3s[h]) && (t.freeL3 != 0 ==> h == t.freeL3)
    ensures SameWalk(g, t, TakeL3(g, t, x1, x2))
  {
    TakeL3Arena(g, t, o, x1, x2);
    var h3 := if t.freeL3 != 0 then t.freeL3 else |t.l3s|;
    TakeL3Handles(g, t, o, x1, x2, h3);
    AttachBlank(g, t, TakeL3(g, t, x1, x2), o.own3, x1, x2, h3);
  }
}
