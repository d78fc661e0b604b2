/**
 Bytes and fixed-width little-endian integers (endian.h), shared by the record,
 frame, offset-journal and checksum models.
 */
module Bytes {

  type byte = x: int | 0 <= x < 256

  type u16 = x: int | 0 <= x < 0x1_0000
  type u32 = x: int | 0 <= x < 0x1_0000_0000
  type u64 = x: int | 0 <= x < 0x1_0000_0000_0000_0000
  type i32 = x: int | -0x8000_0000 <= x < 0x8000_0000
  type i64 = x: int | -0x8000_0000_0000_0000 <= x < 0x8000_0000_0000_0000

  function Pow2(k: nat): (p: nat)
    ensures p >= 1
  {
    if k == 0 then 1 else 2 * Pow2(k - 1)
  }

  function Pow256(k: nat): (p: nat)
    ensures p > 0
  {
    if k == 0 then 1 else 256 * Pow256(k - 1)
  }

  /** StoreLe: the k low bytes of n, least significant first. */
  function StoreLe(n: nat, k: nat): (bs: seq<byte>)
    ensures |bs| == k
    decreases k
  {
    if k == 0 then [] else [n % 256] + StoreLe(n / 256, k - 1)
  }

  /** LoadLe: the value of a little-endian byte string. */
  function LoadLe(bs: seq<byte>): (n: nat)
    ensures n < Pow256(|bs|)
  {
    if bs == [] then 0 else bs[0] + 256 * LoadLe(bs[1..])
  }

  lemma {:induction false} LoadStore(n: nat, k: nat)
    ensures n < Pow256(k) ==> LoadLe(StoreLe(n, k)) == n
    ensures LoadLe(StoreLe(n, k)) == n % Pow256(k)
    decreases k
  {
    if k > 0 {
      var bs := StoreLe(n, k);
      assert bs[1..] == StoreLe(n / 256, k - 1);
      LoadStore(n / 256, k - 1);
      var p := Pow256(k - 1);
      assert LoadLe(bs) == n % 256 + 256 * ((n / 256) % p);
      DigitSplit(n, p);
    }
  }

  // n % (256 * p) splits into its low digit and the rest.
  lemma DigitSplit(n: nat, p: nat)
    requires p > 0
    ensures n % (256 * p) == n % 256 + 256 * ((n / 256) % p)
  {
    var q, r := n / 256, n % 256;
    var a, b := q / p, q % p;
    assert q == p * a + b;
    assert n == 256 * (p * a + b) + r == (256 * p) * a + (256 * b + r);
    assert 0 <= 256 * b + r < 256 * p;
    DivModUnique(n, 256 * p, a, 256 * b + r);
  }

  lemma DivModUnique(n: int, d: int, q: int, r: int)
    requires 0 <= r < d && n == d * q + r
    ensures n / d == q && n % d == r
  {
    var q', r' := n / d, n % d;
    if q > q' {
      MulMonotone(d, q' + 1, q);
    } else if q < q' {
      MulMonotone(d, q + 1, q');
    }
  }

  lemma MulMonotone(d: int, a: int, b: int)
    requires 0 <= d && a <= b
    ensures d * a <= d * b
  {
  }

  lemma {:induction false} StoreLoad(bs: seq<byte>)
    ensures StoreLe(LoadLe(bs), |bs|) == bs
  {
    if bs != [] {
      StoreLoad(bs[1..]);
      var n := LoadLe(bs);
      assert n % 256 == bs[0] && n / 256 == LoadLe(bs[1..]);
    }
  }

  lemma Widths()
    ensures Pow256(2) == 0x1_0000
    ensures Pow256(4) == 0x1_0000_0000
    ensures Pow256(8) == 0x1_0000_0000_0000_0000
  {
    assert Pow256(3) == 256 * Pow256(2);
    assert Pow256(5) == 256 * Pow256(4);
    assert Pow256(6) == 256 * Pow256(5);
    assert Pow256(7) == 256 * Pow256(6);
  }

  /** Little-endian: the last byte weighs most. */
  lemma {:induction false} LastByteWeighsMost(bs: seq<byte>, b: byte)
    ensures LoadLe(bs + [b]) == LoadLe(bs) + b * Pow256(|bs|)
  {
    if bs == [] {
      assert [b][1..] == [];
    } else {
      assert (bs + [b])[1..] == bs[1..] + [b];
      LastByteWeighsMost(bs[1..], b);
      TimesDigit(b, Pow256(|bs| - 1));
    }
  }

  lemma TimesDigit(b: int, p: int)
    ensures 256 * (b * p) == b * (256 * p)
  {
  }

  /** Signed fields travel as their two's-complement unsigned image. */
  function ToUnsigned(v: int, modulus: nat): nat
    requires 0 <= v + modulus && v < modulus
  {
    if v < 0 then v + modulus else v
  }

  function ToSigned(n: nat, modulus: nat): int
    requires n < modulus
  {
    if 2 * n < modulus then n else n - modulus
  }

  function StoreI64(v: i64): (bs: seq<byte>)
    ensures |bs| == 8
  {
    StoreLe(ToUnsigned(v, 0x1_0000_0000_0000_0000), 8)
  }

  function LoadI64(bs: seq<byte>): i64
    requires |bs| == 8
  {
    Widths();
    ToSigned(LoadLe(bs), 0x1_0000_0000_0000_0000)
  }

  lemma LoadStoreI64(v: i64)
    ensures LoadI64(StoreI64(v)) == v
  {
    Widths();
    LoadStore(ToUnsigned(v, 0x1_0000_0000_0000_0000), 8);
  }

  /** Two's complement: the same number modulo 2^64, negative from 2^63 on. */
  lemma TwosComplement(bs: seq<byte>)
    requires |bs| == 8
    ensures LoadI64(bs) == LoadLe(bs) - if LoadLe(bs) >= 0x8000_0000_0000_0000 then 0x1_0000_0000_0000_0000 else 0
  {
    hide LoadLe, Pow256;
    Widths();
  }

  function StoreI32(v: i32): (bs: seq<byte>)
    ensures |bs| == 4
  {
    StoreLe(ToUnsigned(v, 0x1_0000_0000), 4)
  }

  function LoadI32(bs: seq<byte>): i32
    requires |bs| == 4
  {
    Widths();
    ToSigned(LoadLe(bs), 0x1_0000_0000)
  }

  lemma LoadStoreI32(v: i32)
    ensures LoadI32(StoreI32(v)) == v
  {
    Widths();
    LoadStore(ToUnsigned(v, 0x1_0000_0000), 4);
  }

  lemma SameSlice(bs: seq<byte>, cs: seq<byte>, total: nat, i: nat, j: nat)
    requires i <= j <= total <= |bs| && total <= |cs| && bs[..total] == cs[..total]
    ensures bs[i..j] == cs[i..j]
  {
    forall k | i <= k < j
      ensures bs[k] == cs[k]
    {
      assert bs[k] == bs[..total][k] && cs[k] == cs[..total][k];
    }
  }

  // Slices of a common tail.
  lemma TailSlice(bs: seq<byte>, cs: seq<byte>, at: nat, i: nat, j: nat)
    requires at <= i <= j <= |bs| == |cs| && bs[at..] == cs[at..]
    ensures bs[i..j] == cs[i..j] && bs[i..] == cs[i..]
  {
    forall k | at <= k < |bs|
      ensures bs[k] == cs[k]
    {
      assert bs[k] == bs[at..][k - at] && cs[k] == cs[at..][k - at];
    }
  }

  // A slice that lies inside one part of a concatenation.
  lemma InnerSlice(s: seq<byte>, at: nat, part: seq<byte>, i: nat, j: nat)
    requires at <= |s| && s[at..] == part && i <= j <= |part|
    ensures s[at + i..at + j] == part[i..j]
  {
    forall k | i <= k < j
      ensures s[at + k] == part[k]
    {
      assert s[at + k] == s[at..][k];
    }
  }
}
