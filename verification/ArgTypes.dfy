/** The argument types of a record, four bits each, packed into one 64-bit word. */
module ArgTypes {
  import opened Rings
  import opened Bits

  const NARGS: nat := 16
  const NONE: nat := 0
  const UINT32: nat := 1
  const INT32: nat := 2
  const UINT64: nat := 3
  const INT64: nat := 4
  const PTR: nat := 5
  const DOUBLE: nat := 6
  const CSTR: nat := 7
  const GSTR: nat := 8
  const XDUMP: nat := 9
  const RAW: nat := 10

  /** x | y */
  function Or(x: nat, y: nat): nat
  {
    if x == 0 then y else if y == 0 then x
    else 2 * Or(x / 2, y / 2) + (if x % 2 == 1 || y % 2 == 1 then 1 else 0)
  }

  /** x & ~y */
  function AndNot(x: nat, y: nat): nat
  {
    if x == 0 then 0 else 2 * AndNot(x / 2, y / 2) + (if x % 2 == 1 && y % 2 == 0 then 1 else 0)
  }

  function SetArgType(w: nat, i: nat, t: nat): nat { Or(w, Shl(And(t, 0xf), 4 * i)) }
  function GetArgType(w: nat, i: nat): nat { And(Shr(w, 4 * i), 0xf) }
  function ClearArgType(w: nat, i: nat): nat { AndNot(w, Shl(0xf, 4 * i)) }

  /** The i-th group of four bits. */
  function Nib(w: nat, i: nat): (t: nat)
    ensures t < 16
  {
    if i == 0 then w % 16 else Nib(w / 16, i - 1)
  }

  lemma {:induction false} AddrSixteen(x: nat)
    ensures Addr(x, 16) == x % 16
  {
    if x >= 16 { AddrSixteen(x - 16); }
  }

  lemma LowNib(x: nat)
    ensures And(x, 0xf) == x % 16
  {
    assert Pow2(4) == 16;
    AndMask(x, 4);
    AddrSixteen(x);
  }

  lemma ShrFour(w: nat, k: nat)
    ensures Shr(w, k + 4) == Shr(w / 16, k)
  {
    assert Shr(w, k + 4) == Shr(w / 2, k + 3) == Shr(w / 2 / 2, k + 2);
    assert Shr(w / 2 / 2, k + 2) == Shr(w / 2 / 2 / 2, k + 1) == Shr(w / 2 / 2 / 2 / 2, k);
    assert w / 2 / 2 / 2 / 2 == w / 16;
  }

  lemma {:induction false} GetIsNib(w: nat, i: nat)
    ensures GetArgType(w, i) == Nib(w, i)
  {
    LowNib(Shr(w, 4 * i));
    ShrNib(w, i);
  }

  lemma {:induction false} ShrNib(w: nat, i: nat)
    ensures Shr(w, 4 * i) % 16 == Nib(w, i)
  {
    if i > 0 {
      ShrFour(w, 4 * (i - 1));
      ShrNib(w / 16, i - 1);
    }
  }

  lemma OrHalf(x: nat, y: nat)
    ensures Or(x, y) == 2 * Or(x / 2, y / 2) + (if x % 2 == 1 || y % 2 == 1 then 1 else 0)
  {
  }

  /** Four bits of a disjunction. */
  function OrLow(x: nat, y: nat): nat
  {
    (if x % 2 == 1 || y % 2 == 1 then 1 else 0)
    + 2 * (if x / 2 % 2 == 1 || y / 2 % 2 == 1 then 1 else 0)
    + 4 * (if x / 4 % 2 == 1 || y / 4 % 2 == 1 then 1 else 0)
    + 8 * (if x / 8 % 2 == 1 || y / 8 % 2 == 1 then 1 else 0)
  }

  lemma OrFour(x: nat, y: nat)
    ensures Or(x, y) == 16 * Or(x / 16, y / 16) + OrLow(x, y)
  {
    hide Or;
    OrHalf(x, y);
    OrHalf(x / 2, y / 2);
    OrHalf(x / 2 / 2, y / 2 / 2);
    OrHalf(x / 2 / 2 / 2, y / 2 / 2 / 2);
    Halves(x);
    Halves(y);
  }

  lemma Halves(x: nat)
    ensures x / 2 / 2 == x / 4 && x / 2 / 2 / 2 == x / 8 && x / 2 / 2 / 2 / 2 == x / 16
  {
  }

  lemma OrLowMod(x: nat, y: nat)
    ensures OrLow(x, y) == OrLow(x % 16, y % 16) < 16
    ensures y % 16 == 0 ==> OrLow(x, y) == x % 16
    ensures x % 16 == 0 ==> OrLow(x, y) == y % 16
  {
    hide OrLow;
    OrLowSmall(x, y);
    if y % 16 == 0 { OrLowZero(x % 16); }
    if x % 16 == 0 { OrLowZero(y % 16); }
  }

  lemma OrLowSmall(x: nat, y: nat)
    ensures OrLow(x, y) == OrLow(x % 16, y % 16) < 16
  {
    BitsOf(x);
    BitsOf(y);
  }

  lemma OrLowZero(r: nat)
    requires r < 16
    ensures OrLow(r, 0) == OrLow(0, r) == r
  {
    SmallBits(r);
  }

  lemma SmallBits(r: nat)
    requires r < 16
    ensures r == r % 2 + 2 * (r / 2 % 2) + 4 * (r / 4 % 2) + 8 * (r / 8 % 2)
  {
    assert r == 2 * (r / 2) + r % 2 && r / 2 == 2 * (r / 4) + r / 2 % 2 && r / 4 == 2 * (r / 8) + r / 4 % 2;
  }

  lemma BitsOf(x: nat)
    ensures x % 2 == x % 16 % 2 && x / 2 % 2 == x % 16 / 2 % 2 && x / 4 % 2 == x % 16 / 4 % 2
    ensures x / 8 % 2 == x % 16 / 8 % 2
    ensures x % 16 == x % 2 + 2 * (x / 2 % 2) + 4 * (x / 4 % 2) + 8 * (x / 8 % 2)
  {
    var q, r := x / 16, x % 16;
    SmallBits(r);
    Quotients(q, r);
    Even(8 * q, r);
    Even(4 * q, r / 2);
    Even(2 * q, r / 4);
    Even(q, r / 8);
  }

  lemma Quotients(q: nat, r: nat)
    requires r < 16
    ensures var x := 16 * q + r;
            && x == 2 * (8 * q) + r && x / 2 == 2 * (4 * q) + r / 2
            && x / 4 == 2 * (2 * q) + r / 4 && x / 8 == 2 * q + r / 8
  {
  }

  lemma Even(a: nat, b: nat)
    ensures (2 * a + b) % 2 == b % 2
  {
  }

  lemma {:induction false} OrNib(x: nat, y: nat, j: nat)
    ensures Nib(Or(x, y), j) == OrLow(Nib(x, j), Nib(y, j))
  {
    hide OrLow, Or;
    OrFour(x, y);
    OrLowMod(x, y);
    if j > 0 { OrNib(x / 16, y / 16, j - 1); }
  }

  lemma AndNotHalf(x: nat, y: nat)
    ensures AndNot(x, y) == 2 * AndNot(x / 2, y / 2) + (if x % 2 == 1 && y % 2 == 0 then 1 else 0)
  {
  }

  /** Clearing four bits that are all set in y, or none of which is. */
  lemma AndNotFour(x: nat, y: nat)
    requires y % 16 == 0 || y % 16 == 15
    ensures AndNot(x, y) == 16 * AndNot(x / 16, y / 16) + (if y % 16 == 0 then x % 16 else 0)
  {
    hide AndNot;
    AndNotHalf(x, y);
    AndNotHalf(x / 2, y / 2);
    AndNotHalf(x / 2 / 2, y / 2 / 2);
    AndNotHalf(x / 2 / 2 / 2, y / 2 / 2 / 2);
    Halves(x);
    Halves(y);
    BitsOf(x);
    BitsOf(y);
  }

  lemma {:induction false} AndNotNib(x: nat, y: nat, j: nat)
    requires forall i: nat :: Nib(y, i) == 0 || Nib(y, i) == 15
    ensures Nib(AndNot(x, y), j) == if Nib(y, j) == 0 then Nib(x, j) else 0
  {
    hide AndNot;
    assert Nib(y, 0) == y % 16;
    AndNotFour(x, y);
    if j > 0 {
      forall i: nat ensures Nib(y / 16, i) == 0 || Nib(y / 16, i) == 15 {
        assert Nib(y, i + 1) == Nib(y / 16, i);
      }
      AndNotNib(x / 16, y / 16, j - 1);
    }
  }

  lemma ShlFour(x: nat, k: nat)
    ensures Shl(x, k + 4) == 16 * Shl(x, k)
  {
    assert Shl(x, k + 4) == 2 * Shl(x, k + 3) && Shl(x, k + 3) == 2 * Shl(x, k + 2);
    assert Shl(x, k + 2) == 2 * Shl(x, k + 1);
  }

  lemma {:induction false} ShlNib(t: nat, i: nat, j: nat)
    requires t < 16
    ensures Nib(Shl(t, 4 * i), j) == if i == j then t else 0
    decreases i
  {
    if i == 0 {
      if j > 0 { NibZero(j - 1); }
    } else {
      ShlFour(t, 4 * (i - 1));
      assert 16 * Shl(t, 4 * (i - 1)) / 16 == Shl(t, 4 * (i - 1));
      if j > 0 { ShlNib(t, i - 1, j - 1); }
    }
  }

  lemma {:induction false} NibZero(j: nat)
    ensures Nib(0, j) == 0
  {
    if j > 0 { NibZero(j - 1); }
  }

  lemma SetNib(w: nat, i: nat, t: nat, j: nat)
    ensures Nib(SetArgType(w, i, t), j) == if i == j then OrLow(Nib(w, j), t % 16) else Nib(w, j)
  {
    hide Or, Shl, Shr, And, OrLow;
    LowNib(t);
    ShlNib(t % 16, i, j);
    OrNib(w, Shl(t % 16, 4 * i), j);
    OrLowMod(Nib(w, j), Nib(Shl(t % 16, 4 * i), j));
  }

  /** Setting a type leaves the other arguments alone, and an argument without a type gets this one. */
  lemma SetThenGet(w: nat, i: nat, t: nat, j: nat)
    ensures i != j ==> GetArgType(SetArgType(w, i, t), j) == GetArgType(w, j)
    ensures i == j && GetArgType(w, i) == NONE ==> GetArgType(SetArgType(w, i, t), j) == t % 16
  {
    hide GetArgType, SetArgType, OrLow;
    GetIsNib(SetArgType(w, i, t), j);
    GetIsNib(w, j);
    SetNib(w, i, t, j);
    OrLowMod(Nib(w, j), t % 16);
  }

  /** Clearing a type leaves NONE there and everything else as it was. */
  lemma ClearThenGet(w: nat, i: nat, j: nat)
    ensures GetArgType(ClearArgType(w, i), j) == if i == j then NONE else GetArgType(w, j)
  {
    hide Or, Shl, Shr, And, AndNot;
    GetIsNib(ClearArgType(w, i), j);
    GetIsNib(w, j);
    forall k: nat ensures Nib(Shl(0xf, 4 * i), k) == if i == k then 15 else 0 {
      ShlNib(0xf, i, k);
    }
    AndNotNib(w, Shl(0xf, 4 * i), j);
  }

  // ---------------------------------------------------------------- the word stays 64 bits wide

  lemma {:induction false} OrBounded(x: nat, y: nat, k: nat)
    requires x < Pow2(k) && y < Pow2(k)
    ensures Or(x, y) < Pow2(k)
  {
    if k > 0 && x != 0 && y != 0 { OrBounded(x / 2, y / 2, k - 1); }
  }

  lemma {:induction false} ShlBounded(t: nat, a: nat, k: nat)
    requires t < Pow2(a)
    ensures Shl(t, k) < Pow2(a + k)
  {
    if k > 0 { ShlBounded(t, a, k - 1); }
  }

  lemma {:induction false} AndNotSmaller(x: nat, y: nat)
    ensures AndNot(x, y) <= x
  {
    if x > 0 { AndNotSmaller(x / 2, y / 2); }
  }

  lemma SetBounded(w: nat, i: nat, t: nat)
    requires w < Pow2(64) && i < NARGS
    ensures SetArgType(w, i, t) < Pow2(64)
  {
    hide Or, Shl, And;
    LowNib(t);
    assert Pow2(4) == 16;
    ShlBounded(t % 16, 4, 4 * i);
    Pow2Monotone(4 + 4 * i, 64);
    OrBounded(w, Shl(t % 16, 4 * i), 64);
  }

  // ---------------------------------------------------------------- counting

  /** One more than the number of the last argument that has a type. */
  function TypeCount(w: nat): nat { if w == 0 then 0 else 1 + TypeCount(w / 16) }

  /** nargs(): shift until nothing is left. */
  method CountTypes(w: nat) returns (n: nat)
    ensures n == TypeCount(w)
  {
    n := 0;
    var t: nat := w;
    while t != 0
      invariant n + TypeCount(t) == TypeCount(w)
      decreases t
    {
      t, n := t / 16, n + 1;
    }
  }

  lemma {:induction false} TypeCountIs(w: nat, n: nat)
    requires n > 0 ==> Nib(w, n - 1) != 0
    requires forall j: nat :: j >= n ==> Nib(w, j) == 0
    ensures TypeCount(w) == n
    decreases w
  {
    if w == 0 {
      if n > 0 { NibZero(n - 1); }
    } else if n == 0 {
      NibsZero(w);
    } else {
      forall j: nat | j >= n - 1 ensures Nib(w / 16, j) == 0 {
        assert Nib(w, j + 1) == Nib(w / 16, j);
      }
      if n == 1 { NibsZero(w / 16); }
      TypeCountIs(w / 16, n - 1);
    }
  }

  lemma {:induction false} NibsZero(w: nat)
    requires forall j: nat :: Nib(w, j) == 0
    ensures w == 0
  {
    if w > 0 {
      assert Nib(w, 0) == w % 16;
      forall j: nat ensures Nib(w / 16, j) == 0 {
        assert Nib(w, j + 1) == Nib(w / 16, j);
      }
      NibsZero(w / 16);
    }
  }
}
