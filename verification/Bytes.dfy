/** Bytes, little-endian numbers and overwriting part of a memory. */
module Bytes {
  type byte = b: nat | b < 256

  /** The k low bytes of v, least significant first. */
  function LE(v: nat, k: nat): (s: seq<byte>)
    ensures |s| == k
  {
    if k == 0 then [] else [v % 256] + LE(v / 256, k - 1)
  }

  function FromLE(s: seq<byte>): nat
  {
    if s == [] then 0 else s[0] + 256 * FromLE(s[1..])
  }

  function Pow256(k: nat): (p: nat)
    ensures p >= 1
  {
    if k == 0 then 1 else 256 * Pow256(k - 1)
  }

  lemma {:induction false} FromLEOfLE(v: nat, k: nat)
    requires v < Pow256(k)
    ensures FromLE(LE(v, k)) == v
  {
    if k > 0 {
      FromLEOfLE(v / 256, k - 1);
      assert LE(v, k)[1..] == LE(v / 256, k - 1);
    }
  }

  lemma {:induction false} FromLEBounded(s: seq<byte>)
    ensures FromLE(s) < Pow256(|s|)
  {
    if s != [] { FromLEBounded(s[1..]); }
  }

  /** Only the low bytes are kept. */
  lemma {:induction false} FromLELow(v: nat, k: nat)
    ensures FromLE(LE(v, k)) == v % Pow256(k)
  {
    if k > 0 {
      LowByte(v, Pow256(k - 1));
      FromLELow(v / 256, k - 1);
      assert LE(v, k)[1..] == LE(v / 256, k - 1);
    }
  }

  lemma LowByte(v: nat, p: nat)
    requires p >= 1
    ensures v % (256 * p) == 256 * (v / 256 % p) + v % 256
  {
    var q, r := v / 256 / p, v / 256 % p;
    assert v / 256 == p * q + r;
    assert v == (256 * p) * q + (256 * r + v % 256) by {
      assert 256 * (p * q) == (256 * p) * q;
    }
    var m := 256 * r + v % 256;
    assert 0 <= m < 256 * p;
    Remainder(v, 256 * p, q, m);
  }

  lemma Remainder(v: nat, d: nat, q: nat, m: nat)
    requires d >= 1 && v == d * q + m && m < d
    ensures v % d == m
  {
    var e := v / d - q;
    assert v % d - m == -(d * e);
    Multiple(d, e);
  }

  lemma Multiple(d: int, e: int)
    requires d >= 1
    ensures (e >= 1 ==> d * e >= d) && (e <= -1 ==> d * e <= -d)
  {
  }

  /** A little-endian number read from the low bytes of a longer one. */
  lemma {:induction false} LEPrefix(v: nat, k: nat, j: nat)
    requires j <= k
    ensures LE(v, k)[..j] == LE(v, j)
  {
    if j > 0 {
      LEPrefix(v / 256, k - 1, j - 1);
      assert LE(v, k)[..j] == [v % 256] + LE(v / 256, k - 1)[..j - 1];
    }
  }

  lemma Widths()
    ensures Pow256(1) == 0x100 && Pow256(2) == 0x1_0000 && Pow256(4) == 0x1_0000_0000
    ensures Pow256(8) == 0x1_0000_0000_0000_0000
  {
    assert Pow256(3) == 0x100_0000;
    assert Pow256(6) == 0x1_0000_0000_0000;
  }

  /** The memory m after copying s to offset `at`. */
  function Put(m: seq<byte>, at: nat, s: seq<byte>): (r: seq<byte>)
    requires at + |s| <= |m|
    ensures |r| == |m|
  {
    m[..at] + s + m[at + |s|..]
  }

  function Min(a: nat, b: nat): nat { if a <= b then a else b }
}
