/**
 Conversion between IEEE single and double words and host floating point, done bit by bit.  A host
 double is a sign with an exact magnitude, an infinity or a NaN: the steps multiply and divide by two
 and add or subtract one, which are exact on the values that occur.
 */
module FloatEmul {
  import opened Bits

  datatype Format = Single | Double

  function FracBits(f: Format): nat { if f == Single then 23 else 52 }

  function ExpBits(f: Format): nat { if f == Single then 8 else 11 }

  function Bias(f: Format): int { if f == Single then 127 else 1023 }

  function MaxExp(f: Format): nat { if f == Single then 255 else 2047 }

  function WordBits(f: Format): nat { if f == Single then 32 else 64 }

  datatype Float = NaN | Infinite(neg: bool) | Number(neg: bool, mag: real)

  // ----- powers of two

  /** `v` times two to the power `e`. */
  function Scale(v: real, e: int): real
    decreases if e >= 0 then e else -e
  {
    if e > 0 then 2.0 * Scale(v, e - 1) else if e < 0 then Scale(v, e + 1) / 2.0 else v
  }

  lemma ScaleNext(v: real, e: int)
    ensures Scale(v, e + 1) == 2.0 * Scale(v, e)
  {
  }

  lemma {:induction false} ScaleAdds(v: real, w: real, e: int)
    ensures Scale(v + w, e) == Scale(v, e) + Scale(w, e)
    decreases if e >= 0 then e else -e
  {
    if e > 0 {
      ScaleAdds(v, w, e - 1);
    } else if e < 0 {
      ScaleAdds(v, w, e + 1);
    }
  }

  lemma {:induction false} ScaleOrders(v: real, w: real, e: int)
    requires v < w
    ensures Scale(v, e) < Scale(w, e)
    decreases if e >= 0 then e else -e
  {
    if e > 0 {
      ScaleOrders(v, w, e - 1);
    } else if e < 0 {
      ScaleOrders(v, w, e + 1);
    }
  }

  lemma {:induction false} ScaleTwice(v: real, a: int, b: int)
    ensures Scale(Scale(v, a), b) == Scale(v, a + b)
    decreases if b >= 0 then b else -b
  {
    if b > 0 {
      ScaleTwice(v, a, b - 1);
      ScaleNext(v, a + b - 1);
    } else if b < 0 {
      ScaleTwice(v, a, b + 1);
      ScaleNext(v, a + b);
    }
  }

  lemma ScaleDouble(v: real, e: int)
    ensures Scale(2.0 * v, e) == Scale(v, e + 1) && Scale(v / 2.0, e) == Scale(v, e - 1)
  {
    ScaleTwice(v, 1, e);
    ScaleTwice(v, -1, e);
    assert Scale(v, 1) == 2.0 * v && Scale(v, -1) == v / 2.0;
  }

  lemma {:induction false} ScaleGrows(v: real, a: int, b: int)
    requires v > 0.0 && a <= b
    ensures 0.0 < Scale(v, a) <= Scale(v, b)
    decreases b - a
  {
    if a < b {
      ScaleGrows(v, a, b - 1);
      ScaleNext(v, b - 1);
    } else {
      ScaleOrders(0.0, v, a);
      ScaleZero(a);
    }
  }

  lemma {:induction false} ScaleZero(e: int)
    ensures Scale(0.0, e) == 0.0
    decreases if e >= 0 then e else -e
  {
    if e > 0 {
      ScaleZero(e - 1);
    } else if e < 0 {
      ScaleZero(e + 1);
    }
  }

  lemma {:induction false} ScalePow2(k: nat)
    ensures Scale(1.0, k) == Pow2(k) as real
  {
    if k > 0 { ScalePow2(k - 1); }
  }

  /** There is one way to write a number as a fraction in [1,2) and an exponent. */
  lemma Unique(m: real, e: int, m': real, e': int)
    requires 1.0 <= m < 2.0 && 1.0 <= m' < 2.0 && Scale(m, e) == Scale(m', e')
    ensures m == m' && e == e'
  {
    if e < e' {
      Below(m, e, m', e');
    } else if e' < e {
      Below(m', e', m, e);
    } else if m < m' {
      ScaleOrders(m, m', e);
    } else if m' < m {
      ScaleOrders(m', m, e);
    }
  }

  lemma Below(m: real, e: int, m': real, e': int)
    requires 1.0 <= m < 2.0 && 1.0 <= m' && e < e'
    ensures Scale(m, e) < Scale(m', e')
  {
    ScaleOrders(m, 2.0, e);
    ScaleDouble(1.0, e);
    ScaleGrows(1.0, e + 1, e');
    if 1.0 < m' { ScaleOrders(1.0, m', e'); }
  }

  // ----- fields of a word

  function Frac(f: Format, x: nat): nat { Low(x, FracBits(f)) }

  function Exp(f: Format, x: nat): nat { Low(Shr(x, FracBits(f)), ExpBits(f)) }

  function Sign(f: Format, x: nat): bool { Shr(Shr(x, FracBits(f)), ExpBits(f)) == 1 }

  function Word(f: Format, neg: bool, exp: nat, frac: nat): nat {
    Cat(Cat(if neg then 1 else 0, exp, ExpBits(f)), frac, FracBits(f))
  }

  lemma WordFields(f: Format, neg: bool, exp: nat, frac: nat)
    requires exp < Pow2(ExpBits(f)) && frac < Pow2(FracBits(f))
    ensures
      var x := Word(f, neg, exp, frac);
      Frac(f, x) == frac && Exp(f, x) == exp && Sign(f, x) == neg
  {
    hide Shr, Low, Cat;
    var high := Cat(if neg then 1 else 0, exp, ExpBits(f));
    LowCat(high, frac, FracBits(f));
    ShrCat(high, frac, FracBits(f));
    LowCat(if neg then 1 else 0, exp, ExpBits(f));
    ShrCat(if neg then 1 else 0, exp, ExpBits(f));
  }

  lemma FieldsWord(f: Format, x: nat)
    requires x < Pow2(WordBits(f))
    ensures Word(f, Sign(f, x), Exp(f, x), Frac(f, x)) == x
    ensures Exp(f, x) <= MaxExp(f)
  {
    hide Shr, Low, Cat, Pow2;
    var high := Shr(x, FracBits(f));
    CatShrLow(x, FracBits(f));
    CatShrLow(high, ExpBits(f));
    ShrBound(x, FracBits(f), ExpBits(f) + 1);
    ShrBound(high, ExpBits(f), 1);
    PowersSmall();
  }

  lemma PowersSmall()
    ensures Pow2(1) == 2 && Pow2(8) == 256 && Pow2(11) == 2048
  {
    assert Pow2(3) == 8;
    assert Pow2(6) == 64;
  }

  // ----- what the words mean

  /** The fraction of a normal number, 1.xxx. */
  function Mantissa(f: Format, frac: nat): real { 1.0 + Scale(frac as real, 0 - FracBits(f)) }

  /** The meaning that the interpreter gives to a word; a subnormal one is read as if it were normal. */
  function Meaning(f: Format, x: nat): Float {
    var exp, frac := Exp(f, x), Frac(f, x);
    if exp == MaxExp(f) then if frac == 0 then Infinite(Sign(f, x)) else NaN
    else if exp == 0 && frac == 0 then Number(Sign(f, x), 0.0)
    else Number(Sign(f, x), Scale(Mantissa(f, frac), exp - Bias(f)))
  }

  lemma MantissaRange(f: Format, frac: nat)
    requires frac < Pow2(FracBits(f))
    ensures 1.0 <= Mantissa(f, frac) < 2.0
    ensures Scale(Mantissa(f, frac) - 1.0, FracBits(f)) == frac as real
  {
    var n: int := FracBits(f);
    ScaleTwice(frac as real, 0 - n, n);
    ScaleZero(0 - n);
    if frac > 0 { ScaleOrders(0.0, frac as real, 0 - n); }
    ScalePow2(n);
    ScaleTwice(1.0, n, 0 - n);
    ScaleOrders(frac as real, Pow2(n) as real, 0 - n);
  }

  lemma FieldSum(f: Format, x: nat)
    requires x < Pow2(WordBits(f))
    ensures x == Pow2(FracBits(f)) * (Pow2(ExpBits(f)) * (if Sign(f, x) then 1 else 0) + Exp(f, x)) + Frac(f, x)
    ensures Exp(f, x) < Pow2(ExpBits(f)) && Frac(f, x) < Pow2(FracBits(f))
  {
    hide Low, Shr, Cat, Pow2;
    FieldsWord(f, x);
    CatSum(if Sign(f, x) then 1 else 0, Exp(f, x), ExpBits(f));
    CatSum(Cat(if Sign(f, x) then 1 else 0, Exp(f, x), ExpBits(f)), Frac(f, x), FracBits(f));
  }

  /** A normal number has its leading one above the fraction. */
  lemma Leading(f: Format, frac: nat, e: int)
    ensures Scale(Mantissa(f, frac), e) == Scale((Pow2(FracBits(f)) + frac) as real, e - FracBits(f))
  {
    hide Scale, Pow2;
    var n: int := FracBits(f);
    ScaleAdds(Pow2(n) as real, frac as real, 0 - n);
    ScalePow2(n);
    ScaleTwice(1.0, n, 0 - n);
    ScaleNone(1.0);
    ScaleTwice((Pow2(n) + frac) as real, 0 - n, e);
  }

  lemma FormatPowers()
    ensures Pow2(8) == 0x100 && Pow2(11) == 0x800 && Pow2(23) == 0x80_0000 && Pow2(32) == 0x1_0000_0000
    ensures Pow2(52) == 0x10_0000_0000_0000 && Pow2(64) == 0x1_0000_0000_0000_0000
  {
    Powers();
    assert Pow2(11) == 8 * Pow2(8);
    assert Pow2(16) == 0x1_0000 && Pow2(23) == 0x80_0000;
    assert Pow2(40) == 0x100_0000_0000 && Pow2(48) == 0x1_0000_0000_0000;
  }

  /** The single format in numbers. */
  lemma SingleMeans(x: nat)
    requires x < 0x1_0000_0000
    ensures
      var e, m, neg := x / 0x80_0000 % 0x100, x % 0x80_0000, x >= 0x8000_0000;
      Meaning(Single, x) ==
        if e == 0xff then (if m == 0 then Infinite(neg) else NaN)
        else Number(neg, if e == 0 && m == 0 then 0.0 else Scale((0x80_0000 + m) as real, e - 150))
  {
    hide Scale, Pow2, Mantissa, Frac, Exp, Sign;
    FormatPowers();
    FieldSum(Single, x);
    Leading(Single, Frac(Single, x), Exp(Single, x) - 127);
  }

  /** The double format in numbers. */
  lemma DoubleMeans(x: nat)
    requires x < 0x1_0000_0000_0000_0000
    ensures
      var e, m, neg := x / 0x10_0000_0000_0000 % 0x800, x % 0x10_0000_0000_0000, x >= 0x8000_0000_0000_0000;
      Meaning(Double, x) ==
        if e == 0x7ff then (if m == 0 then Infinite(neg) else NaN)
        else Number(neg, if e == 0 && m == 0 then 0.0 else Scale((0x10_0000_0000_0000 + m) as real, e - 1075))
  {
    hide Scale, Pow2, Mantissa, Frac, Exp, Sign;
    FormatPowers();
    FieldSum(Double, x);
    Leading(Double, Frac(Double, x), Exp(Double, x) - 1023);
  }

  // ----- reading

  lemma {:induction false} LowGrows(x: nat, i: nat)
    ensures Low(x, i + 1) == Low(x, i) + if Bit(x, i) then Pow2(i) else 0
    decreases i
  {
    if i > 0 { LowGrows(x / 2, i - 1); }
  }

  lemma FractionStep(x: nat, i: nat)
    ensures 2.0 * Scale(Low(x, i + 1) as real, 0 - i - 1) ==
      Scale(Low(x, i) as real, 0 - i) + if Bit(x, i) then 1.0 else 0.0
  {
    LowGrows(x, i);
    var low, more := Low(x, i) as real, if Bit(x, i) then Pow2(i) as real else 0.0;
    assert Low(x, i + 1) as real == low + more;
    ScaleAdds(low, more, 0 - i - 1);
    ScaleNext(low, 0 - i - 1);
    ScaleNext(more, 0 - i - 1);
    ScalePow2(i);
    ScaleTwice(1.0, i, 0 - i);
    ScaleZero(0 - i);
  }

  method Fraction(f: Format, x: nat) returns (fraction: real)
    ensures fraction == Mantissa(f, Frac(f, x))
  {
    hide Scale, Low, Bit;
    var n := FracBits(f);
    fraction := 0.0;
    NoBits(x);
    for i := 0 to n
      invariant fraction == 2.0 * Scale(Low(x, i) as real, 0 - i)
    {
      FractionStep(x, i);
      fraction := fraction / 2.0;
      if Bit(x, i) { fraction := fraction + 1.0; }
    }
    fraction := fraction / 2.0 + 1.0;
  }

  lemma NoBits(x: nat)
    ensures Scale(Low(x, 0) as real, 0) == 0.0
  {
  }

  method TimesPower(v: real, e: int) returns (r: real)
    ensures r == Scale(v, e)
  {
    hide Scale;
    r := v;
    var exponent := e;
    if exponent > 0 {
      while exponent > 0
        invariant exponent >= 0 && Scale(r, exponent) == Scale(v, e)
      {
        ScaleDouble(r, exponent - 1);
        r := r * 2.0;
        exponent := exponent - 1;
      }
    } else if exponent < 0 {
      while exponent < 0
        invariant exponent <= 0 && Scale(r, exponent) == Scale(v, e)
      {
        ScaleDouble(r, exponent + 1);
        r := r / 2.0;
        exponent := exponent + 1;
      }
    }
    assert Scale(r, 0) == r by { ScaleNone(r); }
  }

  lemma ScaleNone(v: real)
    ensures Scale(v, 0) == v
  {
  }

  /** ieee_interpret_float_value. */
  method Interpret(f: Format, word: nat) returns (v: Float)
    requires word < Pow2(64)
    ensures v == Meaning(f, Low(word, WordBits(f)))
  {
    hide Low, Scale, Shr, Pow2;
    var x := word;
    if f == Single { x := Low(x, 32); }
    LowSmall(word, 64);
    var exponent := Exp(f, x) - Bias(f);
    var sign := Sign(f, x);
    if Exp(f, x) == MaxExp(f) && Frac(f, x) == 0 { return Infinite(sign); }
    if Exp(f, x) == MaxExp(f) { return NaN; }
    if Exp(f, x) == 0 && Frac(f, x) == 0 { return Number(sign, 0.0); }
    var fraction := Fraction(f, x);
    var mag := TimesPower(fraction, exponent);
    return Number(sign, mag);
  }

  // ----- writing

  /** The word for the number with fraction `m` and exponent `e`: what does not fit is cut off. */
  function Packed(f: Format, neg: bool, m: real, e: int): nat
    requires 1.0 <= m < 2.0
  {
    var exp := e + Bias(f);
    var scaled := Scale(m - 1.0, FracBits(f)).Floor;
    if exp <= 0 || scaled < 0 then 0 else Word(f, neg, if exp > MaxExp(f) then MaxExp(f) else exp, scaled)
  }

  predicate HostNormal(mag: real) { Scale(1.0, -1022) <= mag < Scale(1.0, 1024) }

  /** The two loops that look for the exponent. */
  method Normalise(mag: real) returns (m: real, e: int)
    requires HostNormal(mag)
    ensures 1.0 <= m < 2.0 && Scale(m, e) == mag
  {
    hide Scale;
    m, e := mag, 0;
    ScaleNone(mag);
    while m < 1.0 && e > -1023
      invariant -1023 <= e <= 0 && Scale(m, e) == mag && (e < 0 ==> m < 2.0)
      decreases e + 1023
    {
      ScaleDouble(m, e - 1);
      m := m * 2.0;
      e := e - 1;
    }
    if m < 1.0 {
      ScaleOrders(m, 1.0, -1023);
      ScaleGrows(1.0, -1023, -1022);
    }
    while m >= 2.0 && e < 1023
      invariant e <= 1023 && Scale(m, e) == mag && m >= 1.0 && (e < 0 ==> m < 2.0)
      decreases 1023 - e
    {
      ScaleDouble(m, e + 1);
      m := m / 2.0;
      e := e + 1;
    }
    if m >= 2.0 {
      ScaleDouble(1.0, 1023);
      if m > 2.0 { ScaleOrders(2.0, m, 1023); }
    }
  }

  lemma {:induction false} CatShift(h: nat, i: nat)
    ensures Cat(h, 0, i + 1) == Cat(2 * h, 0, i)
  {
    if i > 0 { CatShift(h, i - 1); }
  }

  lemma {:induction false} SetBitCat(h: nat, i: nat)
    ensures SetBit(Cat(h, 0, i + 1), i) == Cat(2 * h + 1, 0, i)
  {
    CatNext(h, i);
    if i > 0 {
      CatNext(2 * h + 1, i - 1);
      SetBitCat(h, i - 1);
      SetBitTwice(Cat(h, 0, i), i - 1);
    } else {
      CatNone(h, 0);
    }
  }

  /** One halving step of `Cat` over zeros, and of `SetBit`. */
  lemma CatNext(h: nat, i: nat)
    ensures Cat(h, 0, i + 1) == 2 * Cat(h, 0, i)
  {
  }

  lemma SetBitTwice(x: nat, k: nat)
    ensures SetBit(2 * x, k + 1) == 2 * SetBit(x, k)
  {
    assert 2 * x / 2 == x && 2 * x % 2 == 0;
  }

  lemma CatNone(h: nat, l: nat)
    ensures Cat(h, l, 0) == h
  {
  }

  lemma CatMore(s: nat, q: nat, p: nat, bit: bool)
    ensures Cat(s, 2 * q + if bit then 1 else 0, p + 1) == 2 * Cat(s, q, p) + if bit then 1 else 0
  {
    var l := 2 * q + if bit then 1 else 0;
    assert l / 2 == q;
  }

  /** The loop over the fraction bits, from the top: `high` is what stands above them already. */
  method PutFraction(f: Format, high: nat, m: real) returns (r: nat)
    requires 1.0 <= m < 2.0
    ensures var q := Scale(m - 1.0, FracBits(f)).Floor;
      0 <= q < Pow2(FracBits(f)) && r == Cat(high, q, FracBits(f))
  {
    hide Scale, Cat, SetBit, Pow2;
    var n := FracBits(f);
    r := Cat(high, 0, n);
    var nf := m - 1.0;
    ghost var q := 0;
    ScaleNone(nf);
    CatNone(high, 0);
    assert Pow2(0) == 1 by { PowNone(); }
    for i := n downto 0
      invariant 0.0 <= nf < 1.0 && 0 <= q < Pow2(n - i)
      invariant Scale(m - 1.0, n - i) == q as real + nf
      invariant r == Cat(Cat(high, q, n - i), 0, i)
    {
      ghost var p := n - i - 1;
      ScaleNext(m - 1.0, p);
      PowNext(p);
      CatShift(Cat(high, q, p), i);
      SetBitCat(Cat(high, q, p), i);
      nf := nf * 2.0;
      CatMore(high, q, p, nf >= 1.0);
      if nf >= 1.0 {
        r := SetBit(r, i);
        nf := nf - 1.0;
        q := 2 * q + 1;
      } else {
        q := 2 * q;
      }
    }
    CatNone(Cat(high, q, n), 0);
  }

  lemma PowNone()
    ensures Pow2(0) == 1
  {
  }

  lemma PowNext(k: nat)
    ensures Pow2(k + 1) == 2 * Pow2(k)
  {
  }

  /** Inserting the exponent field between the sign and the fraction. */
  lemma InsertExponent(f: Format, neg: bool, q: nat, exp: nat)
    requires q < Pow2(FracBits(f)) && exp <= MaxExp(f)
    ensures Bitwise(Or, Cat(Cat(if neg then 1 else 0, 0, ExpBits(f)), q, FracBits(f)), Cat(exp, 0, FracBits(f)))
      == Word(f, neg, exp, q)
  {
    hide Cat, Bitwise, Pow2;
    var sign := if neg then 1 else 0;
    PowersSmall();
    PowerPositive(FracBits(f));
    GateCat(Or, Cat(sign, 0, ExpBits(f)), q, exp, 0, FracBits(f));
    Gates(q, FracBits(f));
    GateCat(Or, sign, 0, 0, exp, ExpBits(f));
    CatZero(exp, ExpBits(f));
    Gates(exp, ExpBits(f));
    Gates(sign, 1);
  }

  lemma PowerPositive(k: nat)
    ensures Pow2(k) > 0
  {
  }

  lemma {:induction false} CatZero(x: nat, k: nat)
    requires x < Pow2(k)
    ensures Cat(0, x, k) == x
  {
    if k > 0 { CatZero(x / 2, k - 1); }
  }

  /** What ieee_store_float_value gives, by class of value. */
  ghost predicate StoredAs(f: Format, v: Float, r: nat) {
    match v
    case NaN => r == Word(f, false, MaxExp(f), Pow2(FracBits(f)) - 1)
    case Infinite(neg) => r == Word(f, neg, MaxExp(f), 0)
    case Number(neg, mag) =>
      if mag < Scale(1.0, -1022) then r == Word(f, neg, 0, 0) else
        forall m, e :: 1.0 <= m < 2.0 && mag == Scale(m, e) ==> r == Packed(f, neg, m, e)
  }

  /** ieee_store_float_value, on any host double. */
  method Store(f: Format, v: Float) returns (r: nat)
    requires v.Number? ==> 0.0 <= v.mag < Scale(1.0, 1024)
    ensures StoredAs(f, v, r)
  {
    hide Scale, Cat, Pow2, Bitwise;
    var n := FracBits(f);
    var neg := !v.NaN? && v.neg;
    var high := Cat(if neg then 1 else 0, 0, ExpBits(f));
    PowerPositive(n);
    if v.Infinite? {
      InsertExponent(f, neg, 0, MaxExp(f));
      return Bitwise(Or, Cat(high, 0, n), Cat(MaxExp(f), 0, n));
    }
    if v.NaN? {
      return Word(f, false, MaxExp(f), Pow2(n) - 1);
    }
    if v.mag < Scale(1.0, -1022) { return Cat(high, 0, n); }
    var m, exponent := Normalise(v.mag);
    r := PutFraction(f, high, m);
    ghost var e := exponent;
    exponent := exponent + Bias(f);
    if exponent < 0 { exponent := 0; }
    if exponent >= MaxExp(f) + 1 { exponent := MaxExp(f); }
    InsertExponent(f, neg, Scale(m - 1.0, n).Floor, exponent);
    r := Bitwise(Or, r, Cat(exponent, 0, n));
    if exponent == 0 { r := 0; }
    assert r == Packed(f, neg, m, e);
    forall m', e' | 1.0 <= m' < 2.0 && v.mag == Scale(m', e') ensures r == Packed(f, neg, m', e') {
      Unique(m, e, m', e');
    }
  }

  // ----- what the two are for

  /** Words that come back from a trip through a host double: all but subnormals and all NaNs but one. */
  predicate Survives(f: Format, x: nat) {
    if Exp(f, x) == MaxExp(f) then Frac(f, x) == 0 || (Frac(f, x) == Pow2(FracBits(f)) - 1 && !Sign(f, x))
    else Exp(f, x) == 0 ==> Frac(f, x) == 0
  }

  /** A normal word packs to itself again. */
  lemma PackedMeaning(f: Format, x: nat)
    requires x < Pow2(WordBits(f)) && 0 < Exp(f, x) < MaxExp(f)
    ensures
      var m := Mantissa(f, Frac(f, x));
      1.0 <= m < 2.0 && Packed(f, Sign(f, x), m, Exp(f, x) - Bias(f)) == x
  {
    hide Scale, Cat, Pow2, Low, Shr;
    MantissaRange(f, Frac(f, x));
    FieldsWord(f, x);
    FloorOf(Frac(f, x));
  }

  lemma FloorOf(q: nat)
    ensures (q as real).Floor == q
  {
  }

  lemma WordInjective(f: Format, neg: bool, exp: nat, frac: nat, neg': bool, exp': nat, frac': nat)
    requires exp <= MaxExp(f) && frac < Pow2(FracBits(f)) && exp' <= MaxExp(f) && frac' < Pow2(FracBits(f))
    requires Word(f, neg, exp, frac) == Word(f, neg', exp', frac')
    ensures neg == neg' && exp == exp' && frac == frac'
  {
    hide Word, Pow2;
    PowersSmall();
    WordFields(f, neg, exp, frac);
    WordFields(f, neg', exp', frac');
  }

  lemma ReadMagnitude(f: Format, x: nat)
    requires Exp(f, x) < MaxExp(f) && !(Exp(f, x) == 0 && Frac(f, x) == 0)
    ensures
      var mag := Meaning(f, x).mag;
      0.0 < mag < Scale(1.0, 1024) && (mag < Scale(1.0, -1022) <==> f == Double && Exp(f, x) == 0)
  {
    hide Scale, Pow2, Low, Shr;
    var m, e := Mantissa(f, Frac(f, x)), Exp(f, x) - Bias(f);
    MantissaRange(f, Frac(f, x));
    ScaleGrows(m, e, e);
    Below(m, e, 1.0, 1024);
    if e < -1022 {
      Below(m, e, 1.0, -1022);
    } else {
      ScaleGrows(1.0, -1022, e);
      if m > 1.0 { ScaleOrders(1.0, m, e); }
    }
  }

  lemma ZeroWord(f: Format)
    ensures Frac(f, 0) == 0
  {
    PowerPositive(FracBits(f));
    LowSmall(0, FracBits(f));
  }

  lemma RoundTripIff(f: Format, x: nat, r: nat)
    requires x < Pow2(WordBits(f)) && StoredAs(f, Meaning(f, x), r)
    ensures r == x <==> Survives(f, x)
  {
    hide Scale, Cat, Pow2, Low, Shr, Word;
    var exp, frac, neg := Exp(f, x), Frac(f, x), Sign(f, x);
    FieldsWord(f, x);
    PowerPositive(FracBits(f));
    if exp == MaxExp(f) {
      if frac != 0 && r == x { WordInjective(f, neg, exp, frac, false, MaxExp(f), Pow2(FracBits(f)) - 1); }
    } else if exp == 0 && frac == 0 {
      ScaleGrows(1.0, -1022, -1022);
    } else {
      ReadMagnitude(f, x);
      MantissaRange(f, frac);
      if exp > 0 {
        PackedMeaning(f, x);
      } else if f == Double {
        if r == x { WordInjective(f, neg, exp, frac, neg, 0, 0); }
      } else {
        assert r == Packed(f, neg, Mantissa(f, frac), exp - Bias(f)) == 0;
        ZeroWord(f);
      }
    }
  }

  /** Reading a word and writing it back gives the same word exactly for the words that survive. */
  method RoundTrip(f: Format, x: nat) returns (r: nat)
    requires x < Pow2(WordBits(f))
    ensures r == x <==> Survives(f, x)
  {
    hide Scale, Cat, Pow2, Low, Shr, StoredAs, Survives;
    Fits64(f, x);
    var v := Interpret(f, x);
    LowSmall(x, WordBits(f));
    FieldsWord(f, x);
    ScaleGrows(1.0, 0, 1024);
    if Exp(f, x) < MaxExp(f) && !(Exp(f, x) == 0 && Frac(f, x) == 0) { ReadMagnitude(f, x); }
    r := Store(f, v);
    RoundTripIff(f, x, r);
  }

  lemma {:induction false} PowerGrows(a: nat, b: nat)
    requires a <= b
    ensures Pow2(a) <= Pow2(b)
    decreases b - a
  {
    if a < b { PowerGrows(a, b - 1); }
  }

  lemma Fits64(f: Format, x: nat)
    requires x < Pow2(WordBits(f))
    ensures x < Pow2(64)
  {
    PowerGrows(WordBits(f), 64);
  }

  lemma FractionCut(f: Format, m: real)
    requires 1.0 <= m < 2.0
    ensures
      var q := Scale(m - 1.0, FracBits(f)).Floor;
      && 0 <= q < Pow2(FracBits(f))
      && Mantissa(f, q) <= m < Mantissa(f, q) + Scale(1.0, 0 - FracBits(f))
  {
    hide Scale, Pow2;
    var n: int := FracBits(f);
    var s := Scale(m - 1.0, n);
    var q := s.Floor;
    ScaleZero(n);
    if m > 1.0 { ScaleOrders(0.0, m - 1.0, n); }
    ScaleOrders(m - 1.0, 1.0, n);
    ScalePow2(n);
    ScaleTwice(m - 1.0, n, 0 - n);
    ScaleNone(m - 1.0);
    if q as real < s { ScaleOrders(q as real, s, 0 - n); }
    ScaleOrders(s, q as real + 1.0, 0 - n);
    ScaleAdds(q as real, 1.0, 0 - n);
  }

  /** In the range of the format, writing cuts the magnitude down by less than one unit in the last place. */
  lemma WritingTruncates(f: Format, neg: bool, m: real, e: int)
    requires 1.0 <= m < 2.0 && 1 - Bias(f) <= e <= Bias(f)
    ensures
      var v := Meaning(f, Packed(f, neg, m, e));
      v.Number? && v.neg == neg && v.mag <= Scale(m, e) < v.mag + Scale(1.0, e - FracBits(f))
  {
    hide Scale, Cat, Pow2, Low, Shr, Word, Mantissa;
    FractionCut(f, m);
    PowersSmall();
    var q := Scale(m - 1.0, FracBits(f)).Floor;
    WordFields(f, neg, e + Bias(f), q);
    var c := Mantissa(f, q);
    var ulp := Scale(1.0, 0 - FracBits(f));
    if c < m { ScaleOrders(c, m, e); }
    ScaleOrders(m, c + ulp, e);
    ScaleAdds(c, ulp, e);
    ScaleTwice(1.0, 0 - FracBits(f), e);
  }

  /** Above the range, the fraction bits stay in: the word is a NaN unless they are all zero. */
  lemma OverflowIsNaN(f: Format, neg: bool, m: real, e: int)
    requires 1.0 <= m < 2.0 && e > Bias(f)
    ensures
      var v := Meaning(f, Packed(f, neg, m, e));
      if m < 1.0 + Scale(1.0, 0 - FracBits(f)) then v == Infinite(neg) else v == NaN
  {
    hide Scale, Cat, Pow2, Low, Shr, Word;
    FractionCut(f, m);
    PowersSmall();
    var n: int := FracBits(f);
    var q := Scale(m - 1.0, n).Floor;
    WordFields(f, neg, MaxExp(f), q);
    ScaleTwice(1.0, 0 - n, n);
    ScaleNone(1.0);
    var ulp := Scale(1.0, 0 - n);
    if m - 1.0 < ulp {
      ScaleOrders(m - 1.0, ulp, n);
    } else if m - 1.0 > ulp {
      ScaleOrders(ulp, m - 1.0, n);
    }
  }

  /** Below the range everything becomes a positive zero. */
  lemma UnderflowIsZero(f: Format, neg: bool, m: real, e: int)
    requires 1.0 <= m < 2.0 && e < 1 - Bias(f)
    ensures Packed(f, neg, m, e) == 0 && Meaning(f, 0) == Number(false, 0.0)
  {
    hide Scale, Cat, Pow2, Word;
    ZeroWord(f);
    ZeroShifts(FracBits(f));
    ZeroShifts(ExpBits(f));
    PowerPositive(ExpBits(f));
    LowSmall(0, ExpBits(f));
  }

  lemma {:induction false} ZeroShifts(k: nat)
    ensures Shr(0, k) == 0
  {
    if k > 0 { ZeroShifts(k - 1); }
  }
}
