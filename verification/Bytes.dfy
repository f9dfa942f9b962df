/**
 The bytes of a number, least significant first.
 */
module Bytes {

  const TWO32 := 0x1_0000_0000
  const TWO64 := 0x1_0000_0000_0000_0000

  /** `(x >> (8 * k)) & 255`. */
  function ByteAt(x: nat, k: nat): (b: nat)
    ensures b < 256
  {
    if k == 0 then x % 256 else ByteAt(x / 256, k - 1)
  }

  /** `(x & ~(0xff << (8 * k))) | (b << (8 * k))`. */
  function PutByte(x: nat, k: nat, b: nat): nat
    requires b < 256
  {
    if k == 0 then x / 256 * 256 + b else PutByte(x / 256, k - 1, b) * 256 + x % 256
  }

  /** The low `n` bytes. */
  function LowBytes(x: nat, n: nat): nat {
    if n == 0 then 0 else x % 256 + 256 * LowBytes(x / 256, n - 1)
  }

  /** The number with given bytes. */
  function FromBytes(s: seq<nat>): nat {
    if s == [] then 0 else s[0] % 256 + 256 * FromBytes(s[1..])
  }

  lemma {:induction false} PutThenGet(x: nat, k: nat, b: nat, j: nat)
    requires b < 256
    ensures ByteAt(PutByte(x, k, b), j) == if j == k then b else ByteAt(x, j)
  {
    if k == 0 {
      assert PutByte(x, k, b) / 256 == x / 256;
    } else {
      assert PutByte(x, k, b) / 256 == PutByte(x / 256, k - 1, b);
      if j > 0 { PutThenGet(x / 256, k - 1, b, j - 1); }
    }
  }

  lemma {:induction false} PutKeepsWidth(x: nat, k: nat, b: nat, n: nat)
    requires LowBytes(x, n) == x && k < n && b < 256
    ensures LowBytes(PutByte(x, k, b), n) == PutByte(x, k, b)
  {
    if k == 0 {
      assert PutByte(x, k, b) / 256 == x / 256;
    } else {
      assert PutByte(x, k, b) / 256 == PutByte(x / 256, k - 1, b);
      PutKeepsWidth(x / 256, k - 1, b, n - 1);
    }
  }

  /** Numbers with the same low bytes have the same low part. */
  lemma {:induction false} SameBytes(x: nat, y: nat, n: nat)
    requires forall j :: 0 <= j < n ==> ByteAt(x, j) == ByteAt(y, j)
    ensures LowBytes(x, n) == LowBytes(y, n)
  {
    if n > 0 {
      assert ByteAt(x, 0) == ByteAt(y, 0);
      forall j | 0 <= j < n - 1 ensures ByteAt(x / 256, j) == ByteAt(y / 256, j) {
        assert ByteAt(x, j + 1) == ByteAt(y, j + 1);
      }
      SameBytes(x / 256, y / 256, n - 1);
    }
  }

  lemma {:induction false} FromBytesAt(s: seq<nat>, k: nat)
    requires k < |s| && s[k] < 256
    ensures ByteAt(FromBytes(s), k) == s[k]
  {
    assert FromBytes(s) / 256 == FromBytes(s[1..]);
    if k > 0 { FromBytesAt(s[1..], k - 1); }
  }

  lemma {:induction false} FromBytesWidth(s: seq<nat>)
    ensures LowBytes(FromBytes(s), |s|) == FromBytes(s)
  {
    if s != [] {
      assert FromBytes(s) / 256 == FromBytes(s[1..]);
      FromBytesWidth(s[1..]);
    }
  }

  lemma {:induction false} LowBytesAt(x: nat, n: nat, k: nat)
    requires k < n
    ensures ByteAt(LowBytes(x, n), k) == ByteAt(x, k)
  {
    assert LowBytes(x, n) / 256 == LowBytes(x / 256, n - 1);
    if k > 0 { LowBytesAt(x / 256, n - 1, k - 1); }
  }

  lemma LowTwo(x: nat, k: nat)
    ensures LowBytes(x, k + 2) == x % 0x1_0000 + 0x1_0000 * LowBytes(x / 0x1_0000, k)
  {
    assert LowBytes(x / 256, k + 1) == x / 256 % 256 + 256 * LowBytes(x / 256 / 256, k);
    assert x / 256 / 256 == x / 0x1_0000;
  }

  lemma LowFour(x: nat, k: nat)
    ensures LowBytes(x, k + 4) == x % TWO32 + TWO32 * LowBytes(x / TWO32, k)
  {
    LowTwo(x, k + 2);
    LowTwo(x / 0x1_0000, k);
    assert x / 0x1_0000 / 0x1_0000 == x / TWO32;
    assert x % TWO32 == x % 0x1_0000 + 0x1_0000 * (x / 0x1_0000 % 0x1_0000);
  }

  lemma Width4(x: nat)
    ensures LowBytes(x, 4) == x % TWO32
  {
    LowFour(x, 0);
  }

  lemma Width8(x: nat)
    ensures LowBytes(x, 8) == x % TWO64
  {
    LowFour(x, 4);
    var high := x / TWO32;
    Width4(high);
    assert high / TWO32 == x / TWO64;
  }

  lemma DivMod4(x: int, q: int, r: int)
    requires x == 4 * q + r && 0 <= r < 4
    ensures x / 4 == q && x % 4 == r
  {
  }

  lemma DivMod8(x: int, q: int, r: int)
    requires x == 8 * q + r && 0 <= r < 8
    ensures x / 8 == q && x % 8 == r
  {
  }
}
