/**
 The table of memory-mapped devices: registration, removal, and the search that a physical access
 makes.  Addresses are 64-bit unsigned numbers.
 */
module DeviceMap {
  import opened Wrappers

  const TWO64 := 0x1_0000_0000_0000_0000

  /** dev_dyntrans_alignment is one less than this. */
  const GRANULE := 4096

  type Addr = x: nat | x < TWO64

  datatype Device = Device(base: Addr, end: Addr, length: Addr, dyntrans: bool, emulatedRam: bool, data: nat)

  datatype Outcome = Registered(at: nat) | Collides(other: nat) | InternalError | DataTaken | NoData | DataMisaligned

  predicate Covers(d: Device, a: Addr) { d.base <= a < d.end }

  predicate Apart(d: Device, base: int, end: int) { end <= d.base || d.end <= base }

  ghost predicate Colliding(ds: seq<Device>, base: int, end: int) {
    exists i :: 0 <= i < |ds| && !Apart(ds[i], base, end)
  }

  /** A registration collides when some address would have two devices. */
  lemma CollidingMeans(ds: seq<Device>, base: Addr, end: Addr)
    requires Sorted(ds) && base < end
    ensures Colliding(ds, base, end) <==> exists i, a: Addr :: 0 <= i < |ds| && base <= a < end && Covers(ds[i], a)
  {
    if Colliding(ds, base, end) {
      var i :| 0 <= i < |ds| && !Apart(ds[i], base, end);
      var a: Addr := if base < ds[i].base then ds[i].base else base;
      assert Covers(ds[i], a);
    }
  }

  /** A data pointer for direct access that is already another device's. */
  ghost predicate InUse(ds: seq<Device>, dyntrans: bool, data: nat) {
    dyntrans && exists i :: 0 <= i < |ds| && ds[i].dyntrans && ds[i].data == data
  }

  ghost predicate Sorted(ds: seq<Device>) {
    && (forall i :: 0 <= i < |ds| ==> ds[i].base < ds[i].end && ds[i].length == ds[i].end - ds[i].base)
    && (forall i, j :: 0 <= i < j < |ds| ==> ds[i].end <= ds[j].base)
  }

  /** No two devices answer to one address. */
  lemma SortedMeansDisjoint(ds: seq<Device>, i: nat, j: nat, a: Addr)
    requires Sorted(ds) && i < |ds| && j < |ds| && Covers(ds[i], a) && Covers(ds[j], a)
    ensures i == j
  {
    if i < j {
      assert false;
    } else if j < i {
      assert false;
    }
  }

  /** The records of the array, those that removals have left behind included: in order, with repetitions. */
  ghost predicate Ordered(ds: seq<Device>) {
    && (forall i :: 0 <= i < |ds| ==> ds[i].base < ds[i].end)
    && (forall i, j :: 0 <= i < j < |ds| ==> ds[i] == ds[j] || ds[i].end <= ds[j].base)
  }

  lemma SortedOrdered(ds: seq<Device>)
    requires Sorted(ds)
    ensures Ordered(ds)
  {
  }

  /** Two records that answer to one address are the same. */
  lemma OrderedUnique(ds: seq<Device>, i: nat, j: nat, a: Addr)
    requires Ordered(ds) && i < |ds| && j < |ds| && Covers(ds[i], a) && Covers(ds[j], a)
    ensures ds[i] == ds[j]
  {
  }

  /** A removal moves the records above down by one; the last one stays where it was, too. */
  lemma RemoveOrdered(ds: seq<Device>, stale: seq<Device>, i: nat)
    requires Ordered(ds + stale) && i < |ds|
    ensures Ordered(ds[..i] + ds[i + 1..] + ([ds[|ds| - 1]] + stale))
  {
    var s, n := ds + stale, |ds|;
    var t := ds[..i] + ds[i + 1..] + ([ds[n - 1]] + stale);
    forall k | 0 <= k < |t| ensures t[k] == s[if i <= k < n - 1 then k + 1 else k] {
    }
    forall j, k | 0 <= j < k < |t| ensures t[j] == t[k] || t[j].end <= t[k].base {
      var a, b := if i <= j < n - 1 then j + 1 else j, if i <= k < n - 1 then k + 1 else k;
      assert t[j] == s[a] && t[k] == s[b];
    }
  }

  lemma RemoveSorted(ds: seq<Device>, i: nat)
    requires Sorted(ds) && i < |ds|
    ensures Sorted(ds[..i] + ds[i + 1..])
  {
    var t := ds[..i] + ds[i + 1..];
    assert forall k :: 0 <= k < |t| ==> t[k] == ds[if k < i then k else k + 1];
  }

  lemma RemoveBounded(ds: seq<Device>, i: nat, lo: Addr, hi: Addr)
    requires Bounded(ds, lo, hi) && i < |ds|
    ensures Bounded(ds[..i] + ds[i + 1..], lo, hi)
  {
  }

  /** What a search of the device table comes to. `Wild` reads outside the array. */
  datatype Search = Hit(index: nat) | Miss | Wild

  ghost predicate Bounded(ds: seq<Device>, lo: Addr, hi: Addr) {
    forall i :: 0 <= i < |ds| ==> lo <= ds[i].base && ds[i].end <= hi
  }

  function RoundDown(a: Addr): Addr { a - a % GRANULE }

  /** `((end - 1) | (GRANULE - 1)) + 1`, in 64 bits. */
  function RoundUp(end: Addr): (r: Addr)
    requires end > 0
    ensures end <= TWO64 - GRANULE ==> end <= r < end + GRANULE
    ensures end > TWO64 - GRANULE ==> r == 0
  {
    (RoundDown(end - 1) + GRANULE) % TWO64
  }

  lemma Granules(base: Addr, end: Addr)
    requires end > 0
    ensures RoundDown(base) == base / 0x1000 * 0x1000
    ensures RoundUp(end) == ((end - 1) / 0x1000 * 0x1000 + 0x1000) % 0x1_0000_0000_0000_0000
  {
  }

  function Insert(ds: seq<Device>, at: nat, d: Device): seq<Device>
    requires at <= |ds|
  {
    ds[..at] + [d] + ds[at..]
  }

  lemma InsertAt(ds: seq<Device>, at: nat, d: Device)
    requires at <= |ds|
    ensures |Insert(ds, at, d)| == |ds| + 1
    ensures forall k :: 0 <= k <= |ds| ==>
      Insert(ds, at, d)[k] == if k < at then ds[k] else if k == at then d else ds[k - 1]
  {
  }

  lemma InsertSorted(ds: seq<Device>, at: nat, d: Device)
    requires Sorted(ds) && at <= |ds| && d.base < d.end && d.length == d.end - d.base
    requires forall k :: 0 <= k < at ==> ds[k].end <= d.base
    requires forall k :: at <= k < |ds| ==> d.end <= ds[k].base
    ensures Sorted(Insert(ds, at, d))
  {
    var r := Insert(ds, at, d);
    forall i, j | 0 <= i < j < |r| ensures r[i].end <= r[j].base {
      InsertAt(ds, at, d);
    }
    assert forall k :: 0 <= k < |r| ==> r[k] == if k < at then ds[k] else if k == at then d else ds[k - 1];
  }

  /** `base + len`, in 64 bits. */
  function End(base: Addr, len: Addr): Addr { (base + len) % TWO64 }

  lemma NoWrap(base: Addr, len: Addr)
    ensures base < End(base, len) <==> len > 0 && base + len < TWO64
    ensures base < End(base, len) ==> End(base, len) == base + len
  {
  }

  lemma InsertUnsorted(ds: seq<Device>, at: nat, d: Device)
    requires at <= |ds| && d.end <= d.base
    ensures !Sorted(Insert(ds, at, d)) && forall a :: !Covers(d, a)
  {
    InsertAt(ds, at, d);
    assert Insert(ds, at, d)[at] == d;
  }

  lemma InsertBounded(ds: seq<Device>, at: nat, d: Device, lo: Addr, hi: Addr)
    requires at <= |ds|
    ensures Bounded(Insert(ds, at, d), lo, hi) <==> Bounded(ds, lo, hi) && lo <= d.base && d.end <= hi
  {
    var r := Insert(ds, at, d);
    assert forall k :: 0 <= k < |ds| ==> ds[k] == r[if k < at then k else k + 1];
    assert r[at] == d;
  }

  lemma Widen(ds: seq<Device>, lo: Addr, hi: Addr, lo': Addr, hi': Addr)
    requires Bounded(ds, lo, hi) && lo' <= lo && hi <= hi'
    ensures Bounded(ds, lo', hi')
  {
  }

  class Memory {
    var devices: seq<Device>
    var stale: seq<Device>     // what removals have left in the array after the devices
    var lastAccessed: nat
    var minAddr: Addr
    var maxAddr: Addr

    ghost predicate Valid()
      reads this
    {
      Sorted(devices) && Ordered(Storage())
    }

    /** The records of the array. */
    function Storage(): seq<Device>
      reads this
    {
      devices + stale
    }

    predicate InBounds(paddr: Addr)
      reads this
    {
      minAddr <= paddr < maxAddr
    }

    /** The quick test before a search lets every device through. */
    ghost predicate Covered()
      reads this
    {
      Bounded(devices, minAddr, maxAddr)
    }

    constructor ()
      ensures Valid() && Covered() && devices == [] && stale == [] && lastAccessed == 0
    {
      devices, stale := [], [];
      lastAccessed := 0;
      minAddr := TWO64 - 1;
      maxAddr := 0;
    }

    /**
     The scan for an index and for collisions: one is found exactly when the other is not. The end may
     have wrapped around.
     */
    method Place(base: Addr, end: Addr) returns (at: Option<nat>, collision: Option<nat>)
      requires Valid()
      ensures collision.Some? <==> Colliding(devices, base, end)
      ensures collision.Some? ==> collision.value < |devices| && !Apart(devices[collision.value], base, end)
      ensures collision.None? ==> at.Some? && at.value <= |devices|
      ensures collision.None? ==> forall i :: 0 <= i < at.value ==> devices[i].end <= base
      ensures collision.None? ==> forall i :: at.value <= i < |devices| ==> end <= devices[i].base && base < devices[i].end
    {
      at, collision := None, None;
      for i := 0 to |devices|
        invariant forall j :: 0 <= j < i ==> Apart(devices[j], base, end)
        invariant i > 0 && base < devices[i - 1].end ==> at.Some? && at.value < i
        invariant i > 0 && base < devices[i - 1].end ==> forall j :: 0 <= j < at.value ==> devices[j].end <= base
        invariant i > 0 && base < devices[i - 1].end ==> forall j :: at.value <= j < i ==> base < devices[j].end
        invariant i > 0 && i == |devices| && devices[i - 1].end <= base ==> at == Some(i)
      {
        var d := devices[i];
        if i == 0 && end <= d.base { at := Some(i); }
        if i > 0 && end <= d.base && base >= devices[i - 1].end { at := Some(i); }
        if i == |devices| - 1 && base >= d.end { at := Some(i + 1); }
        if end <= d.base { continue; }
        if base >= d.end { continue; }
        return at, Some(i);
      }
      if |devices| == 0 { at := Some(0); }
    }

    method DataInUse(dyntrans: bool, data: nat) returns (used: bool)
      ensures used <==> InUse(devices, dyntrans, data)
    {
      for i := 0 to |devices|
        invariant dyntrans ==> forall j :: 0 <= j < i ==> !(devices[j].dyntrans && devices[j].data == data)
      {
        if data == devices[i].data && devices[i].dyntrans && dyntrans { return true; }
      }
      return false;
    }

    /**
     Every outcome but Registered ends the program; a colliding device never gets into the table, and
     the internal error does not happen. A device of no length, or one that wraps around the address
     space, is let in when it collides with none: it answers to no address, and the order of the table
     is gone.
     */
    method Register(base: Addr, len: Addr, dyntrans: bool, emulatedRam: bool, data: nat) returns (out: Outcome)
      requires Valid()
      modifies this
      ensures Valid() <==> base < End(base, len) || out.Collides? || out.DataTaken?
      ensures out.Collides? <==> Colliding(old(devices), base, End(base, len))
      ensures !out.InternalError?
      ensures out.Registered? <==>
        && !Colliding(old(devices), base, End(base, len))
        && !InUse(old(devices), dyntrans, data)
        && !(dyntrans && !emulatedRam && data == 0)
        && data % 8 == 0
      ensures out.Collides? || out.DataTaken? ==> unchanged(this)
      ensures out.Registered? ==>
        && out.at <= |old(devices)|
        && devices == Insert(old(devices), out.at, Device(base, End(base, len), len, dyntrans, emulatedRam, data))
        && (forall i :: 0 <= i < out.at ==> old(devices)[i].end <= base)
        && (forall i :: out.at <= i < |old(devices)| ==> End(base, len) <= old(devices)[i].base)
      ensures out.Registered? ==> stale == []
      ensures out.Registered? && old(Covered()) ==>
        (Covered() <==> End(base, len) <= old(maxAddr) || End(base, len) <= 0xffff_ffff_ffff_f000)
      ensures out.Registered? ==> minAddr == if base < old(minAddr) then base / 0x1000 * 0x1000 else old(minAddr)
      ensures out.Registered? ==>
        var end := (base + len) % 0x1_0000_0000_0000_0000;
        maxAddr == if end > old(maxAddr) then ((end - 1) / 0x1000 * 0x1000 + 0x1000) % 0x1_0000_0000_0000_0000 else old(maxAddr)
      ensures out.Registered? ==> lastAccessed == old(lastAccessed) + if out.at < old(lastAccessed) then 1 else 0
    {
      hide Insert, Bounded, Sorted, Ordered, RoundUp, Colliding, InUse;
      var end := End(base, len);
      var at, collision := Place(base, end);
      if collision.Some? { return Collides(collision.value); }
      if at.None? { return InternalError; }
      var newi := at.value;
      var used := DataInUse(dyntrans, data);
      if used { return DataTaken; }
      ghost var before, lo, hi := devices, minAddr, maxAddr;
      var d := Device(base, end, len, dyntrans, emulatedRam, data);
      devices, stale := Insert(devices, newi, d), [];
      if base < end {
        NoWrap(base, len);
        InsertSorted(before, newi, d);
        SortedOrdered(devices);
      } else {
        InsertUnsorted(before, newi, d);
      }
      assert Storage() == devices;
      if dyntrans && !emulatedRam && data == 0 { return NoData; }
      if data % 8 != 0 { return DataMisaligned; }
      if base < minAddr { minAddr := RoundDown(base); }
      if end > maxAddr {
        Granules(base, end);
        maxAddr := RoundUp(end);
      }
      InsertBounded(before, newi, d, minAddr, maxAddr);
      if Bounded(before, lo, hi) && (end <= hi || end <= TWO64 - GRANULE) {
        Widen(before, lo, hi, minAddr, maxAddr);
      }
      if newi < lastAccessed { lastAccessed := lastAccessed + 1; }
      return Registered(newi);
    }

    /**
     The index of the last access stays inside the table unless it is the final device that goes while
     it was the last one accessed.
     */
    method Remove(i: int) returns (ok: bool)
      requires Valid()
      modifies `devices, `stale, `lastAccessed
      ensures Valid() && (old(Covered()) ==> Covered())
      ensures ok <==> 0 <= i < |old(devices)|
      ensures !ok ==> unchanged(this)
      ensures ok ==>
        && devices == old(devices)[..i] + old(devices)[i + 1..]
        && stale == [old(devices)[|old(devices)| - 1]] + old(stale)
      ensures ok && i == |devices| ==> lastAccessed == old(lastAccessed)
      ensures ok && old(lastAccessed) < |old(devices)| && i != old(lastAccessed) ==>
        lastAccessed < |devices| && devices[lastAccessed] == old(devices)[old(lastAccessed)]
      ensures ok && old(lastAccessed) < |old(devices)| && devices != [] ==>
        (lastAccessed < |devices| <==> !(i == old(lastAccessed) == |devices|))
    {
      hide Sorted, Ordered, Bounded;
      if i < 0 || i >= |devices| { return false; }
      ghost var before := devices;
      RemoveOrdered(devices, stale, i);
      RemoveSorted(devices, i);
      if Bounded(devices, minAddr, maxAddr) { RemoveBounded(devices, i, minAddr, maxAddr); }
      devices, stale := devices[..i] + devices[i + 1..], [devices[|devices| - 1]] + stale;
      assert forall k :: 0 <= k < |devices| ==> devices[k] == before[if k < i then k else k + 1];
      if i == |devices| { return true; }
      if i <= lastAccessed { lastAccessed := if lastAccessed > 0 then lastAccessed - 1 else 0; }
      return true;
    }

    /**
     The search of a physical access, from the device accessed last. A device that answers to the
     address is always found. If the last access is to a device of the table, nothing else is; if its
     index is left over from a device that was removed, the records left behind up to it answer, too.
     */
    method Find(paddr: Addr) returns (r: Search)
      requires Valid()
      modifies `lastAccessed
      ensures r.Wild? <==> minAddr <= paddr < maxAddr && old(lastAccessed) >= |Storage()|
      ensures r.Hit? ==>
        && r.index < |Storage()| && Covers(Storage()[r.index], paddr) && minAddr <= paddr < maxAddr
        && (r.index < |devices| || r.index <= old(lastAccessed))
      ensures r.Miss? && minAddr <= paddr < maxAddr ==>
        forall k :: 0 <= k < |Storage()| && (k < |devices| || k <= old(lastAccessed)) ==> !Covers(Storage()[k], paddr)
      ensures r.Hit? ==> forall k :: 0 <= k < |devices| && Covers(devices[k], paddr) ==> Storage()[r.index] == devices[k]
      ensures lastAccessed == if r.Hit? then r.index else old(lastAccessed)
    {
      if !(paddr >= minAddr && paddr < maxAddr) { return Miss; }
      var s := Storage();
      if lastAccessed >= |s| { return Wild; }
      var start, end, i := 0, |devices| - 1, lastAccessed as int;
      ghost var limit := if lastAccessed < |devices| then |devices| else lastAccessed + 1;
      var first := true;
      while first || start <= end
        invariant first ==> start == 0 && end == |devices| - 1 && i == lastAccessed
        invariant !first ==> start <= end ==> start <= i <= end
        invariant 0 <= start <= limit && -1 <= end < limit
        invariant forall k :: 0 <= k < start ==> s[k].end <= paddr
        invariant !first ==> forall k :: end < k < limit && k >= start ==> paddr < s[k].base
        invariant lastAccessed == old(lastAccessed)
        decreases first, end - start + 1
      {
        var d := s[i];
        if paddr >= d.base && paddr < d.end {
          lastAccessed := i;
          forall k | 0 <= k < |devices| && Covers(devices[k], paddr) ensures s[i] == devices[k] {
            OrderedUnique(s, i, k, paddr);
          }
          return Hit(i);
        }
        if paddr < d.base { end := i - 1; }
        if paddr >= d.end { start := i + 1; }
        i := (start + end) / 2;
        first := false;
      }
      return Miss;
    }

    /** In a run that leaves the last access inside the table, the search is exact. */
    method FindLive(paddr: Addr) returns (r: Search)
      requires Valid() && Covered() && lastAccessed < |devices|
      modifies `lastAccessed
      ensures !r.Wild? && lastAccessed < |devices|
      ensures r.Hit? <==> exists k :: 0 <= k < |devices| && Covers(devices[k], paddr)
      ensures r.Hit? ==> r.index < |devices| && Covers(devices[r.index], paddr)
    {
      r := Find(paddr);
      if r.Hit? {
        assert Covers(devices[r.index], paddr);
      } else {
        forall k | 0 <= k < |devices| ensures !Covers(devices[k], paddr) {
          assert Storage()[k] == devices[k];
        }
      }
    }
  }

  /** A device that was removed from the end of the table goes on answering. */
  method RemovedAnswers() returns (m: Memory, r: Search)
    ensures fresh(m) && m.devices == [] && r == Hit(0) && m.Storage() != [] && Covers(m.Storage()[0], 0x1800)
  {
    hide Sorted, Ordered, Colliding, InUse, Insert;
    var d := Device(0x1000, 0x2000, 0x1000, false, false, 0);
    FirstDevice(d, 0x1000, 0x2000);
    m := new Memory();
    var out := m.Register(0x1000, 0x1000, false, false, 0);
    assert m.devices == [d] && m.devices[0] == d;
    assert m.InBounds(0x1800);
    var ok := m.Remove(0);
    assert m.Storage() == [d];
    r := m.Find(0x1800);
  }

  lemma FirstDevice(d: Device, base: int, end: int)
    ensures !Colliding([], base, end) && !InUse([], d.dyntrans, d.data) && Insert([], 0, d) == [d]
  {
  }
}
