/** Bit operations on unsigned numbers, as the ring's index arithmetic and the argument tags use them. */
module Bits {
  import opened Rings

  const WORD: nat := 0x1_0000_0000

  function Pow2(k: nat): (p: nat)
    ensures p >= 1 && p > k
  {
    if k == 0 then 1 else 2 * Pow2(k - 1)
  }

  /** x & y */
  function And(x: nat, y: nat): nat
  {
    if x == 0 || y == 0 then 0
    else 2 * And(x / 2, y / 2) + (if x % 2 == 1 && y % 2 == 1 then 1 else 0)
  }

  /** x << k */
  function Shl(x: nat, k: nat): nat { if k == 0 then x else 2 * Shl(x, k - 1) }

  /** x >> k */
  function Shr(x: nat, k: nat): nat { if k == 0 then x else Shr(x / 2, k - 1) }

  /** a - b on 32 bits. */
  function Sub32(a: nat, b: nat): (d: nat)
    requires a < WORD && b < WORD
  {
    if a >= b then a - b else a + WORD - b
  }

  lemma Pow2Word()
    ensures Pow2(32) == WORD
  {
    assert Pow2(8) == 0x100;
    assert Pow2(16) == 0x10000;
    assert Pow2(24) == 0x1000000;
  }

  lemma {:induction false} Pow2Monotone(j: nat, k: nat)
    requires j <= k
    ensures Pow2(j) <= Pow2(k)
    decreases k - j
  {
    if j < k { Pow2Monotone(j, k - 1); }
  }

  lemma {:induction false} ShlOne(k: nat)
    ensures Shl(1, k) == Pow2(k)
  {
    if k > 0 { ShlOne(k - 1); }
  }

  lemma {:induction false} ShrShl(x: nat, k: nat, r: nat)
    requires r < Pow2(k)
    ensures Shr(Shl(x, k) + r, k) == x
  {
    if k > 0 {
      assert (Shl(x, k) + r) / 2 == Shl(x, k - 1) + r / 2;
      ShrShl(x, k - 1, r / 2);
    }
  }

  lemma {:induction false} ShlMonotone(x: nat, y: nat, k: nat)
    requires x < y
    ensures Shl(x, k) + Pow2(k) <= Shl(y, k)
  {
    if k > 0 { ShlMonotone(x, y, k - 1); }
  }

  // ---------------------------------------------------------------- masks are remainders

  lemma {:induction false} AddrHalf(x: nat, p: nat)
    requires p >= 1
    ensures Addr(x, 2 * p) == 2 * Addr(x / 2, p) + x % 2
  {
    if x >= 2 * p {
      AddrHalf(x - 2 * p, p);
      assert (x - 2 * p) / 2 == x / 2 - p;
    }
  }

  /** Masking with 2^k - 1 is taking the remainder by 2^k. */
  lemma {:induction false} AndMask(x: nat, k: nat)
    ensures And(x, Pow2(k) - 1) == Addr(x, Pow2(k))
  {
    if k == 0 {
      AddrOne(x);
    } else {
      var p := Pow2(k - 1);
      assert (2 * p - 1) / 2 == p - 1;
      AndMask(x / 2, k - 1);
      AddrHalf(x, p);
    }
  }

  lemma {:induction false} AddrOne(x: nat)
    ensures Addr(x, 1) == 0
  {
    if x > 0 { AddrOne(x - 1); }
  }

  lemma {:induction false} AddrShift(x: nat, d: nat, cap: nat)
    requires cap >= 1
    ensures Addr(Addr(x, cap) + d, cap) == Addr(x + d, cap)
  {
    if x >= cap { AddrShift(x - cap, d, cap); }
  }

  /** Adding a multiple of the capacity that is a power of two changes no remainder. */
  lemma {:induction false} AddrPeriod(x: nat, k: nat, j: nat)
    requires k <= j
    ensures Addr(x + Pow2(j), Pow2(k)) == Addr(x, Pow2(k))
    decreases j - k
  {
    if k < j {
      AddrPeriod(x + Pow2(j - 1), k, j - 1);
      AddrPeriod(x, k, j - 1);
    }
  }

  /** If x + d and t have the same remainder and nothing is off by two turns, then t - x is d modulo the capacity. */
  lemma Distance(x: nat, d: nat, t: nat, k: nat)
    requires k <= 31 && x <= Pow2(k) && t < Pow2(k) && d < Pow2(k) && x < WORD && t < WORD
    requires Addr(x + d, Pow2(k)) == t
    ensures And(Sub32(t, x), Pow2(k) - 1) == d
  {
    var cap := Pow2(k);
    AndMask(Sub32(t, x), k);
    Pow2Word();
    Pow2Monotone(k, 31);
    assert x + d == t || x + d == t + cap by {
      if x + d >= cap { assert Addr(x + d, cap) == Addr(x + d - cap, cap); }
    }
    if t < x {
      assert Addr(d + (WORD - cap) + cap, cap) == Addr(d + (WORD - cap), cap);
      AddrPeriod(d, k, 32);
      assert Sub32(t, x) == d + (WORD - cap);
    }
  }
}
