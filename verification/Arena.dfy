/**
 Reference-counted tables with a free list, as one level of the 64-bit translation tables keeps them.

 A pointer to a table is its index in the arena, so that two places holding the same index share
 one table.  Index 0 is the shared dummy table and doubles as the null pointer of the free list.
 */
module Arena {

  datatype Table<T> = Table(items: seq<T>, next: nat, refcount: int)

  /** What the tables of an arena have in common: size, contents when blank, and what is counted. */
  datatype Kind<!T> = Kind(size: nat, blank: T, used: T -> bool)

  ghost predicate Proper<T>(k: Kind<T>) {
    !k.used(k.blank)
  }

  // ----- counting

  function Count<T>(s: seq<T>, p: T -> bool): nat {
    if |s| == 0 then 0 else Count(s[..|s| - 1], p) + (if p(s[|s| - 1]) then 1 else 0)
  }

  lemma {:induction false} CountUpdate<T>(s: seq<T>, p: T -> bool, i: nat, x: T)
    requires i < |s|
    ensures Count(s[i := x], p) == Count(s, p) - (if p(s[i]) then 1 else 0) + (if p(x) then 1 else 0)
  {
    var n := |s| - 1;
    if i < n {
      CountUpdate(s[..n], p, i, x);
      assert s[i := x][..n] == s[..n][i := x];
    } else {
      assert s[i := x][..n] == s[..n];
    }
  }

  lemma {:induction false} CountZero<T>(s: seq<T>, p: T -> bool)
    ensures Count(s, p) == 0 <==> forall i :: 0 <= i < |s| ==> !p(s[i])
  {
    if |s| > 0 {
      var n := |s| - 1;
      CountZero(s[..n], p);
      assert forall i :: 0 <= i < n ==> s[..n][i] == s[i];
    }
  }

  // ----- the invariant of one arena

  ghost predicate Blank<T>(k: Kind<T>, t: Table<T>) {
    t.refcount == 0 && |t.items| == k.size && forall x :: 0 <= x < k.size ==> t.items[x] == k.blank
  }

  ghost predicate Counted<T>(k: Kind<T>, t: Table<T>) {
    |t.items| == k.size && t.refcount == Count(t.items, k.used)
  }

  /** `free` is the list of tables reached from `head` through `next`; each is blank and not live. */
  ghost predicate Chain<T>(k: Kind<T>, a: seq<Table<T>>, head: nat, free: seq<nat>, live: set<nat>)
    decreases |free|
  {
    if free == [] then head == 0
    else
      && head == free[0] && 0 < head < |a| && head !in live && head !in free[1..]
      && Blank(k, a[head]) && Chain(k, a, a[head].next, free[1..], live)
  }

  ghost predicate Ok<T>(k: Kind<T>, a: seq<Table<T>>, head: nat, free: seq<nat>, live: set<nat>) {
    && |a| > 0 && Blank(k, a[0])
    && (forall h :: 0 <= h < |a| ==> Counted(k, a[h]))
    && (forall h :: h in live ==> 0 < h < |a|)
    && Chain(k, a, head, free, live)
    && (forall h :: 0 < h < |a| ==> h in live || h in free)
  }

  // ----- the operations on one arena

  lemma {:induction false} ChainFrame<T>(k: Kind<T>, a: seq<Table<T>>, b: seq<Table<T>>, head: nat, free: seq<nat>,
                                         live: set<nat>, live': set<nat>)
    requires Chain(k, a, head, free, live) && |a| <= |b|
    requires forall h :: h in free && h < |a| ==> a[h] == b[h]
    requires forall h :: h in free ==> h !in live'
    ensures Chain(k, b, head, free, live')
    decreases |free|
  {
    if free != [] {
      ChainFrame(k, a, b, a[head].next, free[1..], live, live');
    }
  }

  lemma {:induction false} ChainFacts<T>(k: Kind<T>, a: seq<Table<T>>, head: nat, free: seq<nat>, live: set<nat>)
    requires Chain(k, a, head, free, live)
    ensures forall h :: h in free ==> 0 < h < |a| && h !in live && Blank(k, a[h])
    ensures forall i, j :: 0 <= i < j < |free| ==> free[i] != free[j]
    ensures head == 0 <==> free == []
    decreases |free|
  {
    if free != [] {
      ChainFacts(k, a, a[head].next, free[1..], live);
      forall h | h in free ensures 0 < h < |a| && h !in live && Blank(k, a[h]) {
        assert h == head || h in free[1..];
      }
      forall i, j | 0 <= i < j < |free| ensures free[i] != free[j] {
        assert free[j] == free[1..][j - 1];
        if i > 0 { assert free[i] == free[1..][i - 1]; }
      }
    }
  }

  /** Write one item of a live table; the reference count follows. */
  function Put<T>(k: Kind<T>, t: Table<T>, x: nat, item: T): Table<T>
    requires x < |t.items|
  {
    var d := (if k.used(item) then 1 else 0) - (if k.used(t.items[x]) then 1 else 0);
    t.(items := t.items[x := item], refcount := t.refcount + d)
  }

  lemma PutOk<T>(k: Kind<T>, a: seq<Table<T>>, head: nat, free: seq<nat>, live: set<nat>, h: nat, x: nat, item: T)
    requires Ok(k, a, head, free, live) && h in live && x < k.size
    ensures Ok(k, a[h := Put(k, a[h], x, item)], head, free, live)
  {
    var b := a[h := Put(k, a[h], x, item)];
    assert Counted(k, a[h]);
    CountUpdate(a[h].items, k.used, x, item);
    assert Counted(k, b[h]);
    ChainFacts(k, a, head, free, live);
    ChainFrame(k, a, b, head, free, live, live);
  }

  /** Return a blank table to the free list. */
  lemma PushOk<T>(k: Kind<T>, a: seq<Table<T>>, head: nat, free: seq<nat>, live: set<nat>, h: nat)
    requires Ok(k, a, head, free, live) && h in live && Blank(k, a[h])
    ensures Ok(k, a[h := a[h].(next := head)], h, [h] + free, live - {h})
  {
    var b := a[h := a[h].(next := head)];
    assert Counted(k, a[h]);
    ChainFacts(k, a, head, free, live);
    ChainFrame(k, a, b, head, free, live, live - {h});
    assert ([h] + free)[1..] == free;
    assert Chain(k, b, h, [h] + free, live - {h});
    forall i | 0 < i < |b| ensures i in live - {h} || i in [h] + free {
      assert i in live || i in free;
    }
  }

  /** Take a table off the free list. */
  lemma PopOk<T>(k: Kind<T>, a: seq<Table<T>>, head: nat, free: seq<nat>, live: set<nat>)
    requires Ok(k, a, head, free, live) && head != 0
    ensures free != [] && 0 < head < |a| && head !in live && Blank(k, a[head])
    ensures Ok(k, a, a[head].next, free[1..], live + {head})
  {
    ChainFacts(k, a, head, free, live);
    ChainFrame(k, a, a, a[head].next, free[1..], live, live + {head});
  }

  /** Allocate a new blank table when the free list is empty. */
  lemma GrowOk<T>(k: Kind<T>, a: seq<Table<T>>, free: seq<nat>, live: set<nat>, t: Table<T>)
    requires Ok(k, a, 0, free, live) && Proper(k) && Blank(k, t)
    ensures Ok(k, a + [t], 0, free, live + {|a|}) && |a| !in live
  {
    ChainFacts(k, a, 0, free, live);
    CountZero(t.items, k.used);
    assert Counted(k, t);
    ChainFrame(k, a, a + [t], 0, free, live, live + {|a|});
  }
}
