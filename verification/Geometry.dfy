/**
 How the 64-bit code slices a virtual address into three table indices, for any number of level
 bits that add up, together with the page bits, to 64.
 */
module PageGeometry {
  import opened Bits
  import opened FlatTlb
  import opened Tables64

  /** The bits given to each level, and to the offset within a page. */
  datatype LevelBits = LevelBits(b1: nat, b2: nat, b3: nat, page: nat)

  predicate Complete(b: LevelBits) {
    b.b1 + b.b2 + b.b3 + b.page == 64
  }

  /** The shifts and masks that select the three indices. */
  function Split(b: LevelBits, v: Addr): Coord
    requires Complete(b)
  {
    Coord(Low(Shr(v, 64 - b.b1), b.b1),
          Low(Shr(v, 64 - b.b1 - b.b2), b.b2),
          Low(Shr(v, 64 - b.b1 - b.b2 - b.b3), b.b3))
  }

  function Join(b: LevelBits, c: Coord): Addr {
    var v := Cat(Cat(Cat(c.x1, c.x2, b.b2), c.x3, b.b3), 0, b.page);
    if v < 0x1_0000_0000_0000_0000 then v else 0
  }

  function Sliced(b: LevelBits): Geometry
    requires Complete(b)
  {
    Geometry(Pow2(b.b1), Pow2(b.b2), Pow2(b.b3), (v: Addr) => Split(b, v), (c: Coord) => Join(b, c))
  }

  /** The three indices are the page number cut into pieces. */
  lemma SplitByPage(b: LevelBits, v: Addr)
    requires Complete(b)
    ensures var q := Shr(v, b.page);
            Split(b, v) == Coord(Shr(Shr(q, b.b3), b.b2), Low(Shr(q, b.b3), b.b2), Low(q, b.b3))
  {
    hide Pow2, Shr, Low;
    ShrShr(v, b.page, b.b3);
    ShrShr(v, b.page + b.b3, b.b2);
    Powers();
    ShrBound(v, 64 - b.b1, b.b1);
    LowSmall(Shr(v, 64 - b.b1), b.b1);
  }

  /** Putting an address together again drops the offset within the page. */
  lemma JoinSplit(b: LevelBits, v: Addr)
    requires Complete(b)
    ensures Join(b, Split(b, v)) == Cat(Shr(v, b.page), 0, b.page) <= v
    ensures Join(b, Split(b, v)) == v <==> Low(v, b.page) == 0
  {
    SplitByPage(b, v);
    var q := Shr(v, b.page);
    CatShrLow(Shr(q, b.b3), b.b2);
    CatShrLow(q, b.b3);
    CatShrLow(v, b.page);
    CatMono(q, Low(v, b.page), b.page);
    LowCat(q, 0, b.page);
  }

  lemma {:induction false} CatMono(hi: nat, lo: nat, k: nat)
    ensures Cat(hi, 0, k) <= Cat(hi, lo, k)
  {
    if k > 0 { CatMono(hi, lo / 2, k - 1); }
  }

  lemma SplitJoin(b: LevelBits, c: Coord)
    requires Complete(b) && c.x1 < Pow2(b.b1) && c.x2 < Pow2(b.b2) && c.x3 < Pow2(b.b3)
    ensures Split(b, Join(b, c)) == c
  {
    var hi := Cat(c.x1, c.x2, b.b2);
    var q := Cat(hi, c.x3, b.b3);
    CatBound(c.x1, c.x2, b.b1, b.b2);
    CatBound(hi, c.x3, b.b1 + b.b2, b.b3);
    CatBound(q, 0, b.b1 + b.b2 + b.b3, b.page);
    Powers();
    SplitByPage(b, Join(b, c));
    ShrCat(q, 0, b.page);
    ShrCat(hi, c.x3, b.b3);
    LowCat(hi, c.x3, b.b3);
    ShrCat(c.x1, c.x2, b.b2);
    LowCat(c.x1, c.x2, b.b2);
  }

  /** The shifts and masks of the code satisfy what the tables need, whatever the level sizes. */
  lemma SlicedIsLawful(b: LevelBits)
    requires Complete(b)
    ensures Lawful(Sliced(b))
    ensures forall v: Addr :: Aligned(Sliced(b), v) <==> Low(v, b.page) == 0
  {
    var g := Sliced(b);
    forall c {:trigger g.join(c)} | InRange(g, c) ensures g.split(g.join(c)) == c {
      SplitJoin(b, c);
    }
    forall v: Addr ensures Aligned(g, v) <==> Low(v, b.page) == 0 {
      JoinSplit(b, v);
    }
  }
}
