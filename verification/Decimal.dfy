/** Printing numbers in decimal, and the timestamp text cache that avoids most of that work. */
module Decimal {

  function Digit(d: nat): char
    requires d < 10
  {
    '0' + d as char
  }

  /** The usual decimal notation. */
  function Digits(v: nat): (s: string)
    ensures |s| >= 1
  {
    if v < 10 then [Digit(v)] else Digits(v / 10) + [Digit(v % 10)]
  }

  function Repeat(c: char, n: nat): (s: string)
    ensures |s| == n && forall i :: 0 <= i < n ==> s[i] == c
  {
    if n == 0 then [] else Repeat(c, n - 1) + [c]
  }

  /** Left-padded with zeros to at least `width` characters. */
  function Padded(v: nat, width: nat): (s: string)
    ensures |s| >= width
  {
    var d := Digits(v);
    if |d| >= width then d else Repeat('0', width - |d|) + d
  }

  function Reversed(s: string): (r: string)
    ensures |r| == |s| && forall i :: 0 <= i < |s| ==> r[i] == s[|s| - 1 - i]
  {
    if s == [] then [] else Reversed(s[1..]) + [s[0]]
  }

  // ---------------------------------------------------------------- reading numbers

  predicate IsDigit(c: char) { '0' <= c <= '9' }

  predicate AllDigits(s: string) { forall i :: 0 <= i < |s| ==> IsDigit(s[i]) }

  /** The number that a string of digits stands for. */
  function Number(s: string): nat
    requires AllDigits(s)
  {
    if s == [] then 0 else 10 * Number(s[..|s| - 1]) + (s[|s| - 1] as int - 48)
  }

  /** What is printed reads back as the number, and starts with a zero only if it is zero. */
  lemma {:induction false} DigitsRead(v: nat)
    ensures AllDigits(Digits(v)) && Number(Digits(v)) == v
    ensures v > 0 ==> Digits(v)[0] != '0'
  {
    if v >= 10 {
      DigitsRead(v / 10);
      assert Digits(v)[..|Digits(v)| - 1] == Digits(v / 10);
    }
  }

  lemma {:induction false} ZerosInFront(n: nat, s: string)
    requires AllDigits(s)
    ensures AllDigits(Repeat('0', n) + s) && Number(Repeat('0', n) + s) == Number(s)
    decreases |s| + n
  {
    var t := Repeat('0', n) + s;
    if s == [] {
      if n > 0 {
        ZerosInFront(n - 1, s);
        assert t[..|t| - 1] == Repeat('0', n - 1) + s;
      }
    } else {
      ZerosInFront(n, s[..|s| - 1]);
      assert t[..|t| - 1] == Repeat('0', n) + s[..|s| - 1];
    }
  }

  /** So does what is printed with padding, which only adds zeros up to the wanted width. */
  lemma PaddedReads(v: nat, width: nat)
    ensures AllDigits(Padded(v, width)) && Number(Padded(v, width)) == v
    ensures |Padded(v, width)| > width >= 1 ==> v > 0 && Padded(v, width)[0] != '0'
  {
    hide Digits, Number, Repeat;
    DigitsRead(v);
    if |Digits(v)| < width { ZerosInFront(width - |Digits(v)|, Digits(v)); }
    if v == 0 { assert Digits(0) == ['0'] by { OneDigit(); } }
  }

  lemma OneDigit()
    ensures Digits(0) == ['0']
  {
  }

  function Pow10(n: nat): (p: nat)
    ensures p >= 1
  {
    if n == 0 then 1 else 10 * Pow10(n - 1)
  }

  lemma {:induction false} DigitsBounded(v: nat, n: nat)
    requires v < Pow10(n) && n >= 1
    ensures |Digits(v)| <= n
  {
    if v >= 10 { DigitsBounded(v / 10, n - 1); }
  }

  lemma ReversedAppend(s: string, c: char)
    ensures Reversed(s + [c]) == [c] + Reversed(s)
  {
  }

  /** Generate all digits of v, last one first. */
  method ReverseDigits(v: nat, digit: array<char>) returns (d: nat)
    requires v < Pow10(20) && digit.Length == 32
    modifies digit
    ensures 1 <= d <= 20 && digit[..d] == Reversed(Digits(v))
  {
    hide Digits, Reversed, Pow10;
    digit[0] := Digit(v % 10);
    d := 1;
    var rest: nat := v / 10;
    LastDigit(v);
    assert Reversed(digit[..1]) == [Digit(v % 10)];
    LessByOne(v, 20);
    while rest != 0
      invariant 1 <= d <= 20 && rest < Pow10(20 - d)
      invariant Digits(v) == Front(rest) + Reversed(digit[..d])
      decreases rest
    {
      if d == 20 { PowZero(); }
      ghost var before := digit[..d];
      digit[d] := Digit(rest % 10);
      assert digit[..d + 1] == before + [Digit(rest % 10)];
      ReversedAppend(before, Digit(rest % 10));
      LastDigit(rest);
      LessByOne(rest, 20 - d);
      assert Front(rest / 10) + [Digit(rest % 10)] + Reversed(before)
          == Front(rest / 10) + ([Digit(rest % 10)] + Reversed(before));
      d, rest := d + 1, rest / 10;
    }
    assert Digits(v) == Reversed(digit[..d]);
    assert digit[..d] == Reversed(Digits(v));
  }

  /** The digits in front of those already generated. */
  function Front(rest: nat): string { if rest == 0 then [] else Digits(rest) }

  lemma LastDigit(v: nat)
    ensures Digits(v) == Front(v / 10) + [Digit(v % 10)]
  {
  }

  lemma LessByOne(v: nat, n: nat)
    requires v < Pow10(n) && n >= 1
    ensures v / 10 < Pow10(n - 1)
  {
  }

  lemma PowZero()
    ensures Pow10(0) == 1
  {
  }

  /** Copy the first d characters of `digit` out, last one first. */
  method CopyReversed(digit: array<char>, d: nat, str: array<char>, at: nat)
    requires d <= digit.Length && at + d <= str.Length && digit != str
    modifies str
    ensures str[..] == old(str[..at]) + Reversed(digit[..d]) + old(str[at + d..])
  {
    var i, n := at, d;
    ghost var text := Reversed(digit[..d]);
    while n > 0
      invariant 0 <= n <= d && i + n == at + d
      invariant forall k :: at <= k < i ==> str[k] == text[k - at]
      invariant forall k :: (0 <= k < at || at + d <= k < str.Length) ==> str[k] == old(str[k])
    {
      n := n - 1;
      str[i] := digit[n];
      i := i + 1;
    }
  }

  lemma RepeatMore(c: char, n: nat)
    ensures Repeat(c, n + 1) == Repeat(c, n) + [c]
  {
  }

  lemma ReversedPadding(s: string, n: nat)
    ensures Reversed(Reversed(s) + Repeat('0', n)) == Repeat('0', n) + s
  {
  }

  lemma TwentyDigits(v: nat)
    requires v < 0x1_0000_0000_0000_0000
    ensures v < Pow10(20)
  {
    assert Pow10(10) == 10000000000;
    assert Pow10(20) == 100000000000000000000;
  }

  /** Pad the reversed digits with zeros up to the wanted width. */
  method PadDigits(digit: array<char>, n: nat, w: nat) returns (d: nat)
    requires n <= 32 && w <= 32 && digit.Length == 32
    modifies digit
    ensures d == (if n < w then w else n) && digit[..d] == old(digit[..n]) + Repeat('0', d - n)
  {
    d := n;
    while d < w
      invariant n <= d && (d <= w || d == n) && d <= 32
      invariant digit[..d] == old(digit[..n]) + Repeat('0', d - n)
    {
      RepeatMore('0', d - n);
      digit[d] := '0';
      d := d + 1;
    }
  }

  /**
    * Printing a number digit by digit: the digits are collected in reverse, padded, and copied out
    * in the right order.
    */
  method U64tod(v: nat, str: array<char>, at: nat, width: nat) returns (i: nat)
    requires v < 0x1_0000_0000_0000_0000
    requires at + |Padded(v, if width > 32 then 32 else width)| <= str.Length
    modifies str
    ensures i == at + |Padded(v, if width > 32 then 32 else width)|
    ensures str[..] == old(str[..at]) + Padded(v, if width > 32 then 32 else width) + old(str[i..])
  {
    hide Digits, Reversed, Repeat, Pow10;
    var w := if width > 32 then 32 else width;
    var digit := new char[32];
    TwentyDigits(v);
    var n := ReverseDigits(v, digit);
    var d := PadDigits(digit, n, w);
    ReversedPadding(Digits(v), d - n);
    CopyReversed(digit, d, str, at);
    i := at + d;
  }
}

/** format_basic's cache of the timestamp text. */
module TimestampCache {
  import opened Decimal

  const NSEC_SPLIT: nat := 10000
  const NSEC_PER_SEC: nat := 1_000_000_000
  const SEC_LEN: nat := 11
  const NSEC_HI_LEN: nat := 5
  const NSEC_LO_LEN: nat := 4
  const NSEC_HI_OFFSET: nat := 12
  const NSEC_LO_OFFSET: nat := 17
  const TS_LEN: nat := 21

  /** A nanosecond timestamp printed directly: 11 digits of seconds, a dot, 9 digits of nanoseconds. */
  function Printed(t: nat): string
  {
    Padded(t / NSEC_PER_SEC, SEC_LEN) + "." + Padded(t % NSEC_PER_SEC, NSEC_HI_LEN + NSEC_LO_LEN)
  }

  lemma {:induction false} PaddedLength(v: nat, n: nat)
    requires v < Pow10(n) && n >= 1
    ensures |Padded(v, n)| == n
  {
    DigitsBounded(v, n);
  }

  /** The last digit of a padded number, and the number in front of it. */
  lemma {:induction false} PaddedStep(v: nat, n: nat)
    requires v < Pow10(n) && n >= 2
    ensures Padded(v, n) == Padded(v / 10, n - 1) + [Digit(v % 10)]
  {
    DigitsBounded(v, n);
    if v < 10 {
      assert Repeat('0', n - 1) == Repeat('0', n - 2) + ['0'];
      assert Digits(v / 10) == ['0'];
    }
  }

  /** v with k zeros appended. */
  function Scale(v: nat, k: nat): nat { if k == 0 then v else 10 * Scale(v, k - 1) }

  lemma {:induction false} ScaleBounded(v: nat, n: nat, k: nat)
    requires v < Pow10(n)
    ensures Scale(v, k) + Pow10(k) <= Pow10(n + k)
  {
    if k > 0 { ScaleBounded(v, n, k - 1); }
  }

  /** Printing the high and the low decimal part next to each other prints the whole number. */
  lemma {:induction false} PaddedSplit(hi: nat, lo: nat, n: nat, k: nat)
    requires n >= 1 && k >= 1 && lo < Pow10(k) && hi < Pow10(n)
    ensures Padded(hi, n) + Padded(lo, k) == Padded(Scale(hi, k) + lo, n + k)
    decreases k
  {
    hide Padded, Digit;
    ScaleBounded(hi, n, k);
    var v := Scale(hi, k) + lo;
    PaddedStep(v, n + k);
    if k == 1 {
      assert v / 10 == hi && v % 10 == lo;
      PaddedDigit(lo);
    } else {
      PaddedStep(lo, k);
      assert v / 10 == Scale(hi, k - 1) + lo / 10 && v % 10 == lo % 10;
      PaddedSplit(hi, lo / 10, n, k - 1);
      assert Padded(hi, n) + (Padded(lo / 10, k - 1) + [Digit(lo % 10)])
          == (Padded(hi, n) + Padded(lo / 10, k - 1)) + [Digit(lo % 10)];
    }
  }

  lemma PaddedDigit(v: nat)
    requires v < 10
    ensures Padded(v, 1) == [Digit(v)]
  {
  }

  /** Nanoseconds are the high five digits followed by the low four. */
  lemma NsecSplit(ns: nat)
    requires ns < NSEC_PER_SEC
    ensures |Padded(ns / NSEC_SPLIT, NSEC_HI_LEN)| == NSEC_HI_LEN
    ensures |Padded(ns % NSEC_SPLIT, NSEC_LO_LEN)| == NSEC_LO_LEN
    ensures ns / NSEC_SPLIT < Pow10(NSEC_HI_LEN)
    ensures Padded(ns / NSEC_SPLIT, NSEC_HI_LEN) + Padded(ns % NSEC_SPLIT, NSEC_LO_LEN)
      == Padded(ns, NSEC_HI_LEN + NSEC_LO_LEN)
  {
    hide Padded;
    var hi, lo := ns / NSEC_SPLIT, ns % NSEC_SPLIT;
    assert Pow10(4) == 10000 && Pow10(5) == 100000;
    PaddedLength(hi, NSEC_HI_LEN);
    PaddedLength(lo, NSEC_LO_LEN);
    assert Scale(hi, 4) == 10000 * hi by {
      assert Scale(hi, 1) == 10 * hi;
      assert Scale(hi, 2) == 100 * hi;
      assert Scale(hi, 3) == 1000 * hi;
    }
    PaddedSplit(hi, lo, NSEC_HI_LEN, NSEC_LO_LEN);
  }

  lemma SecLength(s: nat)
    requires s < 0x1_0000_0000_0000_0000 / NSEC_PER_SEC + 1
    ensures s < Pow10(SEC_LEN) && |Padded(s, SEC_LEN)| == SEC_LEN
  {
    assert Pow10(5) == 100000;
    assert Pow10(11) == 100000000000;
    PaddedLength(s, SEC_LEN);
  }

  /** The text of a timestamp: eleven digits, a dot and nine digits that read back as its seconds and nanoseconds. */
  lemma PrintedReads(t: nat)
    requires t < 0x1_0000_0000_0000_0000
    ensures |Printed(t)| == 21 && Printed(t)[11] == '.'
    ensures AllDigits(Printed(t)[..11]) && AllDigits(Printed(t)[12..])
    ensures Number(Printed(t)[..11]) * 1_000_000_000 + Number(Printed(t)[12..]) == t
  {
    hide Padded, Number, Pow10, AllDigits;
    var s, ns := t / NSEC_PER_SEC, t % NSEC_PER_SEC;
    SecLength(s);
    NsecSplit(ns);
    PaddedReads(s, SEC_LEN);
    PaddedReads(ns, NSEC_HI_LEN + NSEC_LO_LEN);
    assert Printed(t)[..11] == Padded(s, SEC_LEN);
    assert Printed(t)[12..] == Padded(ns, NSEC_HI_LEN + NSEC_LO_LEN);
  }

  lemma ZeroPadded(n: nat)
    requires n >= 1
    ensures |Padded(0, n)| == n && forall i :: 0 <= i < n ==> Padded(0, n)[i] == '0'
  {
  }

  class TsCache {
    var sec: nat
    var nsecHi: nat
    const str: array<char>

    /** The cached fields of the text belong to the cached numbers. */
    ghost predicate Valid()
      reads this, str
    {
      && str.Length == TS_LEN
      && sec < Pow10(SEC_LEN) && nsecHi < Pow10(NSEC_HI_LEN)
      && str[..SEC_LEN] == Padded(sec, SEC_LEN)
      && str[SEC_LEN] == '.'
      && str[NSEC_HI_OFFSET..NSEC_LO_OFFSET] == Padded(nsecHi, NSEC_HI_LEN)
    }

    constructor ()
      ensures Valid() && fresh(str) && str[..] == Printed(0)
    {
      sec, nsecHi := 0, 0;
      str := new char[TS_LEN](i => if i == SEC_LEN then '.' else '0');
      new;
      hide Digits, Repeat;
      ZeroPadded(SEC_LEN);
      ZeroPadded(NSEC_HI_LEN);
      ZeroPadded(NSEC_HI_LEN + NSEC_LO_LEN);
    }

    /**
      * Reprint only what changed since the last call.  Whatever was printed before, the text is then
      * what printing the timestamp directly gives.
      */
    method Update(t: nat)
      requires Valid() && t < 0x1_0000_0000_0000_0000
      modifies this, str
      ensures Valid() && str[..] == Printed(t)
    {
      hide Padded, Pow10;
      var s, ns := t / NSEC_PER_SEC, t % NSEC_PER_SEC;
      var nhi, nlo := ns / NSEC_SPLIT, ns % NSEC_SPLIT;
      SecLength(s);
      NsecSplit(ns);
      if sec != s {
        sec := s;
        var _ := U64tod(sec, str, 0, SEC_LEN);
      }
      assert str[..SEC_LEN] == Padded(s, SEC_LEN) && str[SEC_LEN] == '.';
      assert str[NSEC_HI_OFFSET..NSEC_LO_OFFSET] == Padded(nsecHi, NSEC_HI_LEN);
      if nsecHi != nhi {
        nsecHi := nhi;
        var _ := U64tod(nhi, str, NSEC_HI_OFFSET, NSEC_HI_LEN);
      }
      assert str[..SEC_LEN] == Padded(s, SEC_LEN) && str[SEC_LEN] == '.';
      assert str[NSEC_HI_OFFSET..NSEC_LO_OFFSET] == Padded(nhi, NSEC_HI_LEN);
      var _ := U64tod(nlo, str, NSEC_LO_OFFSET, NSEC_LO_LEN);
      assert str[..SEC_LEN] == Padded(s, SEC_LEN) && str[SEC_LEN] == '.';
      assert str[NSEC_HI_OFFSET..NSEC_LO_OFFSET] == Padded(nhi, NSEC_HI_LEN);
      assert str[NSEC_LO_OFFSET..] == Padded(nlo, NSEC_LO_LEN);
      assert str[..] == str[..SEC_LEN] + "." + (str[NSEC_HI_OFFSET..NSEC_LO_OFFSET] + str[NSEC_LO_OFFSET..]);
    }
  }
}
