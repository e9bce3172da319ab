/**
  * Where the stores of an argument list meet.  Data is placed behind as many words as there are
  * arguments; with a gap in the list that may be in front of the last words.  This module says exactly
  * which arguments survive.
  */
module Overlaps {
  import opened Bytes
  import opened Bits
  import opened ArgTypes
  import opened Arguments
  import opened Packing

  // ---------------------------------------------------------------- byte by byte

  /** What storing an argument writes over the argument's own word. */
  function WordBytes(s: Store): seq<byte>
  {
    match s
    case Nothing => []
    case Word(v, k) => LE(v, k)
    case Data(at, p) => LE(if p.placed then at else 0, 4) + LE(|p.text|, 4)
  }

  predicate InWord(ss: seq<Store>, j: nat, x: nat)
    requires j < |ss|
  {
    8 * j <= x < 8 * j + |WordBytes(ss[j])|
  }

  predicate InData(ss: seq<Store>, i: nat, x: nat)
    requires i < |ss|
  {
    ss[i].Data? && ss[i].at <= x < ss[i].at + |ss[i].p.bytes|
  }

  function WordByte(ss: seq<Store>, j: nat, x: nat): byte
    requires j < |ss| && InWord(ss, j, x)
  {
    WordBytes(ss[j])[x - 8 * j]
  }

  function DataByte(ss: seq<Store>, i: nat, x: nat): byte
    requires i < |ss| && InData(ss, i, x)
  {
    ss[i].p.bytes[x - ss[i].at]
  }

  /** The byte at x after store k, if it was b before. */
  function ByteAfter(ss: seq<Store>, k: nat, x: nat, b: byte): byte
    requires k < |ss|
  {
    if InWord(ss, k, x) then WordByte(ss, k, x) else if InData(ss, k, x) then DataByte(ss, k, x) else b
  }

  lemma ApplyByte(m: seq<byte>, ss: seq<Store>, k: nat, x: nat)
    requires k < |ss| && StoreOk(m, k, ss[k]) && x < |m|
    ensures Apply(m, k, ss[k])[x] == ByteAfter(ss, k, x, m[x])
  {
    hide LE;
  }

  /** The byte a store wrote stays if every later store leaves it or writes the same. */
  lemma {:induction false} LastWriter(m: seq<byte>, ss: seq<Store>, k: nat, n: nat, x: nat, b: byte)
    requires StoresOk(m, ss) && k < n <= |ss| && x < |m|
    requires InWord(ss, k, x) || InData(ss, k, x)
    requires forall l :: k <= l < n ==> ByteAfter(ss, l, x, b) == b
    ensures Applied(m, ss, n)[x] == b
    decreases n
  {
    hide StoreOk, Apply, InWord, InData, WordByte, DataByte;
    StoreOkSame(m, Applied(m, ss, n - 1), n - 1, ss[n - 1]);
    ApplyByte(Applied(m, ss, n - 1), ss, n - 1, x);
    assert ByteAfter(ss, n - 1, x, b) == b;
    if k < n - 1 {
      LastWriter(m, ss, k, n - 1, x, b);
      assert Applied(m, ss, n - 1)[x] == b;
    }
    assert Applied(m, ss, n) == Apply(Applied(m, ss, n - 1), n - 1, ss[n - 1]);
  }

  /** Argument i's word and data are as they were written. */
  predicate Intact(m: seq<byte>, i: nat, s: Store)
    requires StoreOk(m, i, s)
  {
    && m[8 * i..8 * i + |WordBytes(s)|] == WordBytes(s)
    && (s.Data? ==> m[s.at..s.at + |s.p.bytes|] == s.p.bytes)
  }

  lemma {:induction false} FromLEInjective(s: seq<byte>, t: seq<byte>)
    requires |s| == |t| && FromLE(s) == FromLE(t)
    ensures s == t
  {
    if s != [] {
      FromLEInjective(s[1..], t[1..]);
      assert s == [s[0]] + s[1..] && t == [t[0]] + t[1..];
    }
  }

  lemma NumberIs(s: seq<byte>, v: nat)
    ensures s == LE(v, |s|) <==> FromLE(s) == v % Pow256(|s|)
  {
    FromLELow(v, |s|);
    if FromLE(s) == v % Pow256(|s|) { FromLEInjective(s, LE(v, |s|)); }
  }

  lemma DescriptorIs(m: seq<byte>, i: nat, off: nat, len: nat)
    requires ARG_AREA <= |m| && i < NARGS && off < WORD && len < WORD
    ensures m[8 * i..8 * i + 8] == LE(off, 4) + LE(len, 4) <==> DataOffset(m, i) == off && DataLen(m, i) == len
  {
    hide LE, FromLE, Pow256;
    Widths();
    var a, b := m[8 * i..8 * i + 4], m[8 * i + 4..8 * i + 8];
    NumberIs(a, off);
    NumberIs(b, len);
    assert m[8 * i..8 * i + 8] == a + b;
    if a + b == LE(off, 4) + LE(len, 4) {
      assert a == (a + b)[..4] && b == (a + b)[4..];
    }
  }

  /** The accessors return what was stored if and only if its bytes are intact. */
  lemma HoldsIntact(m: seq<byte>, i: nat, s: Store)
    requires StoreOk(m, i, s)
    ensures Holds(m, i, s) <==> Intact(m, i, s)
  {
    hide LE, FromLE, Pow256, DataOffset, DataLen;
    match s
    case Nothing =>
    case Word(v, k) =>
      Widths();
      NumberIs(m[8 * i..8 * i + k], v);
    case Data(at, p) =>
      DescriptorIs(m, i, if p.placed then at else 0, |p.text|);
      if p.placed && m[at..at + |p.bytes|] == p.bytes { SliceStart(m, at, |p.text|, |p.bytes|); }
  }

  ghost predicate RegionsApart(ss: seq<Store>)
  {
    forall i, j :: 0 <= i < j < |ss| && ss[i].Data? && ss[j].Data? ==> ss[i].at + |ss[i].p.bytes| <= ss[j].at
  }

  /** If argument i's data meets argument j's word, then both wrote the same. */
  ghost predicate Agree(ss: seq<Store>, i: nat, j: nat)
    requires i < |ss| && j < |ss|
  {
    forall x: nat :: InData(ss, i, x) && InWord(ss, j, x) ==> DataByte(ss, i, x) == WordByte(ss, j, x)
  }

  /** Nothing that is written later changes argument i's data or its word. */
  ghost predicate Kept(ss: seq<Store>, i: nat)
    requires i < |ss|
  {
    forall j :: i <= j < |ss| ==> Agree(ss, i, j) && (i < j ==> Agree(ss, j, i))
  }

  lemma WordLength(m: seq<byte>, i: nat, s: Store)
    requires StoreOk(m, i, s)
    ensures |WordBytes(s)| == (if s.Nothing? then 0 else if s.Word? then s.k else 8) <= 8
  {
  }

  lemma StoreArea(m: seq<byte>, i: nat, s: Store)
    requires StoreOk(m, i, s)
    ensures 8 * i + 8 <= ARG_AREA <= |m|
  {
  }

  lemma WordFinal(m: seq<byte>, ss: seq<Store>, j: nat, x: nat)
    requires StoresOk(m, ss) && j < |ss| && InWord(ss, j, x)
    requires forall l :: j < l < |ss| && InData(ss, l, x) ==> DataByte(ss, l, x) == WordByte(ss, j, x)
    ensures x < |m| && Applied(m, ss, |ss|)[x] == WordByte(ss, j, x)
  {
    hide Applied, StoreOk, WordBytes, InData, WordByte, DataByte;
    WordLength(m, j, ss[j]);
    forall l | j < l < |ss| ensures ByteAfter(ss, l, x, WordByte(ss, j, x)) == WordByte(ss, j, x) {
      assert !InWord(ss, l, x);
    }
    StoreArea(m, j, ss[j]);
    LastWriter(m, ss, j, |ss|, x, WordByte(ss, j, x));
  }

  lemma DataFinal(m: seq<byte>, ss: seq<Store>, i: nat, x: nat)
    requires StoresOk(m, ss) && RegionsApart(ss) && i < |ss| && InData(ss, i, x)
    requires forall l :: i <= l < |ss| && InWord(ss, l, x) ==> WordByte(ss, l, x) == DataByte(ss, i, x)
    ensures x < |m| && Applied(m, ss, |ss|)[x] == DataByte(ss, i, x)
  {
    hide LE, Applied, WordBytes, WordByte;
    assert StoreOk(m, i, ss[i]);
    LastWriter(m, ss, i, |ss|, x, DataByte(ss, i, x));
  }

  /** For one list with its contents: an argument survives if and only if what is written over it is the same. */
  lemma HoldsKept(m: seq<byte>, ss: seq<Store>, i: nat)
    requires StoresOk(m, ss) && RegionsApart(ss) && i < |ss|
    ensures StoreOk(Applied(m, ss, |ss|), i, ss[i])
    ensures Holds(Applied(m, ss, |ss|), i, ss[i]) <==> Kept(ss, i)
  {
    hide Holds, StoreOk, Applied, LE, WordByte, DataByte;
    var r := Applied(m, ss, |ss|);
    StoreOkSame(m, r, i, ss[i]);
    HoldsIntact(r, i, ss[i]);
    if Kept(ss, i) {
      KeptIntact(m, ss, i);
    } else {
      if Intact(r, i, ss[i]) { IntactKept(m, ss, i); }
    }
  }

  lemma KeptWord(m: seq<byte>, ss: seq<Store>, i: nat, x: nat)
    requires StoresOk(m, ss) && i < |ss| && Kept(ss, i) && InWord(ss, i, x)
    ensures x < |m| && Applied(m, ss, |ss|)[x] == WordByte(ss, i, x)
  {
    hide Applied, InWord, InData, WordByte, DataByte, StoreOk;
    forall l | i < l < |ss| && InData(ss, l, x) ensures DataByte(ss, l, x) == WordByte(ss, i, x) {
      assert Agree(ss, l, i);
    }
    WordFinal(m, ss, i, x);
  }

  lemma KeptData(m: seq<byte>, ss: seq<Store>, i: nat, x: nat)
    requires StoresOk(m, ss) && RegionsApart(ss) && i < |ss| && Kept(ss, i) && InData(ss, i, x)
    ensures x < |m| && Applied(m, ss, |ss|)[x] == DataByte(ss, i, x)
  {
    hide Applied, InWord, InData, WordByte, DataByte, StoreOk, RegionsApart;
    forall l | i <= l < |ss| && InWord(ss, l, x) ensures WordByte(ss, l, x) == DataByte(ss, i, x) {
      assert Agree(ss, i, l);
    }
    DataFinal(m, ss, i, x);
  }

  lemma KeptIntact(m: seq<byte>, ss: seq<Store>, i: nat)
    requires StoresOk(m, ss) && RegionsApart(ss) && i < |ss| && Kept(ss, i)
    requires StoreOk(Applied(m, ss, |ss|), i, ss[i])
    ensures Intact(Applied(m, ss, |ss|), i, ss[i])
  {
    hide Applied, Kept, RegionsApart, LE, WordBytes;
    var r, w := Applied(m, ss, |ss|), WordBytes(ss[i]);
    forall q: nat | q < |w| ensures 8 * i + q < |r| && r[8 * i + q] == w[q] {
      KeptWord(m, ss, i, 8 * i + q);
    }
    assert StoreOk(r, i, ss[i]) ==> |w| <= 8 by { WordLength(r, i, ss[i]); }
    if ss[i].Data? {
      var at, p := ss[i].at, ss[i].p;
      forall q: nat | q < |p.bytes| ensures r[at + q] == p.bytes[q] {
        KeptData(m, ss, i, at + q);
      }
    }
  }

  lemma IntactKept(m: seq<byte>, ss: seq<Store>, i: nat)
    requires StoresOk(m, ss) && RegionsApart(ss) && i < |ss|
    requires StoreOk(Applied(m, ss, |ss|), i, ss[i]) && Intact(Applied(m, ss, |ss|), i, ss[i])
    ensures Kept(ss, i)
  {
    hide Applied, LE;
    var r := Applied(m, ss, |ss|);
    forall j | i <= j < |ss| ensures Agree(ss, i, j) && (i < j ==> Agree(ss, j, i)) {
      forall x: nat | InData(ss, i, x) && InWord(ss, j, x) ensures DataByte(ss, i, x) == WordByte(ss, j, x) {
        WordFinal(m, ss, j, x);
        assert r[x] == r[ss[i].at..ss[i].at + |ss[i].p.bytes|][x - ss[i].at];
      }
      if i < j {
        forall x: nat | InData(ss, j, x) && InWord(ss, i, x) ensures DataByte(ss, j, x) == WordByte(ss, i, x) {
          DataFinal(m, ss, j, x);
          assert r[x] == r[8 * i..8 * i + |WordBytes(ss[i])|][x - 8 * i];
        }
      }
    }
  }

  /** Stores that do not meet all survive. */
  lemma ApartHold(m: seq<byte>, ss: seq<Store>, i: nat)
    requires StoresOk(m, ss) && Apart(ss) && i < |ss|
    ensures StoreOk(Applied(m, ss, |ss|), i, ss[i]) && Holds(Applied(m, ss, |ss|), i, ss[i])
  {
    hide Holds, Applied, LE;
    forall j | 0 <= j < |ss| ensures Agree(ss, i, j) && Agree(ss, j, i) {
      assert StoreOk(m, i, ss[i]) && StoreOk(m, j, ss[j]);
    }
    HoldsKept(m, ss, i);
  }

  // ---------------------------------------------------------------- whatever the contents

  /** set_args may be called: the arguments can be read and the argument words fit in front of any data. */
  predicate CanPack(env: Env, args: seq<Arg>, tailroom: nat)
  {
    ArgsOk(env, args) && Roomy(args, 8 * Count(args, NARGS), tailroom)
  }

  /** What is left for argument i's data. */
  function RoomOf(env: Env, args: seq<Arg>, tailroom: nat, i: nat): nat
    requires CanPack(env, args, tailroom) && i < NARGS && IsData(args[i].t)
  {
    tailroom - Offset(env, args, 8 * Count(args, NARGS), tailroom, i)
  }

  /** Byte q of what is written for argument a is the terminator or in the marker, not the caller's. */
  predicate Fixed(env: Env, a: Arg, room: nat, q: nat)
    requires Readable(env, a) && IsData(a.t)
  {
    var n := |PieceOf(env, a, room).text|;
    a.t == CSTR && (q == n || (n < |Source(env, a)| && 3 < n && n - 3 <= q))
  }

  /** The same for byte x of the record's memory. */
  predicate FixedAt(env: Env, args: seq<Arg>, tailroom: nat, i: nat, x: nat)
    requires CanPack(env, args, tailroom) && i < NARGS && InData(Stores(env, args, tailroom), i, x)
  {
    Fixed(env, args[i], RoomOf(env, args, tailroom, i), x - Stores(env, args, tailroom)[i].at)
  }

  /**
    * At byte x, argument i's data may meet argument j's word only if neither byte depends on what is
    * logged: a terminator or marker byte over an equal byte of a descriptor.
    */
  predicate Harmless(env: Env, args: seq<Arg>, tailroom: nat, i: nat, j: nat, x: nat)
    requires CanPack(env, args, tailroom) && i < NARGS && j < NARGS
  {
    var ss := Stores(env, args, tailroom);
    InData(ss, i, x) && InWord(ss, j, x) ==>
      IsData(args[j].t) && FixedAt(env, args, tailroom, i, x) && DataByte(ss, i, x) == WordByte(ss, j, x)
  }

  /**
    * Argument i is safe: its data meets no word that is written after it, and its word meets no data that
    * is written after it, except harmlessly.  Only types, lengths and the tailroom matter.
    */
  predicate Safe(env: Env, args: seq<Arg>, tailroom: nat, i: nat)
    requires CanPack(env, args, tailroom) && i < NARGS
  {
    forall j, x :: i <= j < NARGS && 0 <= x < ARG_AREA ==>
      Harmless(env, args, tailroom, i, j, x) && (i < j ==> Harmless(env, args, tailroom, j, i, x))
  }

  /** The same types and the same lengths of data. */
  ghost predicate SameForms(env: Env, args: seq<Arg>, env': Env, args': seq<Arg>)
    requires ArgsOk(env, args) && ArgsOk(env', args')
  {
    forall i :: 0 <= i < NARGS ==>
      args'[i].t == args[i].t && (IsData(args[i].t) ==> |Source(env', args'[i])| == |Source(env, args[i])|)
  }

  /** After set_args, argument i's accessor finds what was passed, in the place allotted to it. */
  ghost predicate Stored(m: seq<byte>, env: Env, args: seq<Arg>, tailroom: nat, i: nat)
    requires i < NARGS
  {
    && CanPack(env, args, tailroom) && StoresOk(m, Stores(env, args, tailroom))
    && var r := Applied(m, Stores(env, args, tailroom), NARGS);
       StoreOk(r, i, Stores(env, args, tailroom)[i]) && Holds(r, i, Stores(env, args, tailroom)[i])
  }

  lemma StoresRegions(env: Env, args: seq<Arg>, tailroom: nat)
    requires CanPack(env, args, tailroom)
    ensures RegionsApart(Stores(env, args, tailroom))
  {
    hide PieceOf, Count, Offset, Source, Readable;
    var ss := Stores(env, args, tailroom);
    forall i, j | 0 <= i < j < |ss| && ss[i].Data? && ss[j].Data? ensures ss[i].at + |ss[i].p.bytes| <= ss[j].at {
      ArgumentLayout(env, args, 8 * Count(args, NARGS), tailroom, i);
    }
  }

  lemma StoredKept(m: seq<byte>, env: Env, args: seq<Arg>, tailroom: nat, i: nat)
    requires CanPack(env, args, tailroom) && ARG_AREA <= |m| < WORD && tailroom <= |m| && i < NARGS
    ensures Stored(m, env, args, tailroom, i) <==> Kept(Stores(env, args, tailroom), i)
  {
    hide Stores, StoreOk, Applied, Holds, Kept, Readable, Roomy, RegionsApart;
    StoresAreOk(m, env, args, tailroom);
    StoresRegions(env, args, tailroom);
    HoldsKept(m, Stores(env, args, tailroom), i);
  }

  // what depends on types and lengths only

  lemma PieceForm(env: Env, a: Arg, env': Env, a': Arg, room: nat, q: nat)
    requires Readable(env, a) && Readable(env', a') && a'.t == a.t && IsData(a.t)
    requires |Source(env', a')| == |Source(env, a)|
    ensures var p, p' := PieceOf(env, a, room), PieceOf(env', a', room);
            && p'.placed == p.placed && |p'.text| == |p.text| && |p'.bytes| == |p.bytes|
            && (q < |p.bytes| && Fixed(env, a, room, q) ==> Fixed(env', a', room, q) && p'.bytes[q] == p.bytes[q])
  {
  }

  lemma {:induction false} CountForm(args: seq<Arg>, args': seq<Arg>, k: nat)
    requires k <= |args| == |args'| && forall i :: 0 <= i < |args| ==> args'[i].t == args[i].t
    ensures Count(args', k) == Count(args, k)
  {
    if k > 0 { CountForm(args, args', k - 1); }
  }

  lemma {:induction false} OffsetForm(env: Env, args: seq<Arg>, env': Env, args': seq<Arg>, start: nat, tailroom: nat,
                                      k: nat)
    requires ArgsOk(env, args) && ArgsOk(env', args') && SameForms(env, args, env', args') && k <= NARGS
    requires Roomy(args, start, tailroom) && Roomy(args', start, tailroom)
    ensures Offset(env', args', start, tailroom, k) == Offset(env, args, start, tailroom, k)
  {
    hide PieceOf, Source, Readable, Fixed;
    if k > 0 {
      OffsetForm(env, args, env', args', start, tailroom, k - 1);
      if IsData(args[k - 1].t) {
        var o := Offset(env, args, start, tailroom, k - 1);
        PieceForm(env, args[k - 1], env', args'[k - 1], tailroom - o, 0);
      }
    }
  }

  lemma SameLayout(env: Env, args: seq<Arg>, env': Env, args': seq<Arg>, tailroom: nat, i: nat)
    requires CanPack(env, args, tailroom) && ArgsOk(env', args') && SameForms(env, args, env', args') && i < NARGS
    ensures CanPack(env', args', tailroom)
    ensures var s, s' := Stores(env, args, tailroom)[i], Stores(env', args', tailroom)[i];
            && s'.Data? == s.Data? == IsData(args[i].t) && |WordBytes(s')| == |WordBytes(s)|
            && (s.Data? ==> s'.at == s.at && |s'.p.bytes| == |s.p.bytes| && WordBytes(s') == WordBytes(s)
                            && RoomOf(env', args', tailroom, i) == RoomOf(env, args, tailroom, i))
  {
    hide PieceOf, Source, Readable, Fixed, Offset, Count;
    CountForm(args, args', NARGS);
    OffsetForm(env, args, env', args', 8 * Count(args, NARGS), tailroom, i);
    if IsData(args[i].t) {
      PieceForm(env, args[i], env', args'[i], RoomOf(env, args, tailroom, i), 0);
    }
  }

  /** What is harmless for one list is so for every list of its form. */
  lemma HarmlessForm(env: Env, args: seq<Arg>, env': Env, args': seq<Arg>, tailroom: nat, i: nat, j: nat, x: nat)
    requires CanPack(env, args, tailroom) && ArgsOk(env', args') && SameForms(env, args, env', args')
    requires i < NARGS && j < NARGS && Harmless(env, args, tailroom, i, j, x)
    ensures CanPack(env', args', tailroom)
    ensures var ss' := Stores(env', args', tailroom);
            InData(ss', i, x) && InWord(ss', j, x) ==> DataByte(ss', i, x) == WordByte(ss', j, x)
  {
    hide PieceOf, Source, Readable, Fixed, Offset, Count, WordBytes;
    SameLayout(env, args, env', args', tailroom, i);
    SameLayout(env, args, env', args', tailroom, j);
    var ss := Stores(env, args, tailroom);
    if InData(ss, i, x) && InWord(ss, j, x) {
      PieceForm(env, args[i], env', args'[i], RoomOf(env, args, tailroom, i), x - ss[i].at);
    }
  }

  lemma SafeStored(m: seq<byte>, env: Env, args: seq<Arg>, tailroom: nat, i: nat, env': Env, args': seq<Arg>)
    requires CanPack(env, args, tailroom) && ARG_AREA <= |m| < WORD && tailroom <= |m| && i < NARGS
    requires Safe(env, args, tailroom, i) && ArgsOk(env', args') && SameForms(env, args, env', args')
    ensures Stored(m, env', args', tailroom, i)
  {
    hide Stores, Holds, Harmless, Readable, SameForms, Stored, InData, DataByte, WordByte, Roomy;
    SameLayout(env, args, env', args', tailroom, i);
    var ss' := Stores(env', args', tailroom);
    StoresAreOk(m, env', args', tailroom);
    forall j | i <= j < NARGS ensures Agree(ss', i, j) && (i < j ==> Agree(ss', j, i)) {
      forall x: nat | InData(ss', i, x) && InWord(ss', j, x) ensures DataByte(ss', i, x) == WordByte(ss', j, x) {
        InWordBound(m, ss', j, x);
        HarmlessForm(env, args, env', args', tailroom, i, j, x);
      }
      if i < j {
        forall x: nat | InData(ss', j, x) && InWord(ss', i, x) ensures DataByte(ss', j, x) == WordByte(ss', i, x) {
          InWordBound(m, ss', i, x);
          HarmlessForm(env, args, env', args', tailroom, j, i, x);
        }
      }
    }
    StoredKept(m, env', args', tailroom, i);
  }

  lemma InWordBound(m: seq<byte>, ss: seq<Store>, j: nat, x: nat)
    requires StoresOk(m, ss) && j < |ss| && InWord(ss, j, x)
    ensures x < ARG_AREA
  {
    assert StoreOk(m, j, ss[j]);
    WordLength(m, j, ss[j]);
  }

  // contents that show what is lost

  const TOP: nat := 0xffff_ffff_ffff_ffff

  function DataLength(env: Env, a: Arg): nat
    requires Readable(env, a)
  {
    if IsData(a.t) then |Source(env, a)| else 0
  }

  /** The same list with every byte of data b and every number v. */
  ghost function FillEnv(env: Env, args: seq<Arg>, b: byte): Env
    requires ArgsOk(env, args)
  {
    Env(seq(WORD, _ => b), map i | 0 <= i < NARGS :: i := XdumpArg([b, b, b, b], 0, DataLength(env, args[i])))
  }

  ghost function FillArg(env: Env, a: Arg, i: nat, v: nat): Arg
    requires Readable(env, a)
  {
    Arg(a.t, if a.t == XDUMP then i else if IsData(a.t) then 0 else v, DataLength(env, a))
  }

  ghost function FillArgs(env: Env, args: seq<Arg>, v: nat): seq<Arg>
    requires ArgsOk(env, args)
  {
    seq(NARGS, i requires 0 <= i < NARGS => FillArg(env, args[i], i, v))
  }

  lemma DataLengthBounded(env: Env, a: Arg)
    requires Readable(env, a)
    ensures DataLength(env, a) < WORD
  {
  }

  lemma FillOk(env: Env, args: seq<Arg>, b: byte, v: nat)
    requires ArgsOk(env, args) && v <= TOP
    ensures ArgsOk(FillEnv(env, args, b), FillArgs(env, args, v))
    ensures SameForms(env, args, FillEnv(env, args, b), FillArgs(env, args, v))
  {
    hide DataLength, Source;
    var env', args' := FillEnv(env, args, b), FillArgs(env, args, v);
    forall i | 0 <= i < NARGS
      ensures Readable(env', args'[i]) && args'[i].t == args[i].t
      ensures IsData(args[i].t) ==> |Source(env', args'[i])| == |Source(env, args[i])|
    {
      DataLengthBounded(env, args[i]);
      FillSource(env, args, b, v, i);
    }
  }

  lemma FillSource(env: Env, args: seq<Arg>, b: byte, v: nat, i: nat)
    requires ArgsOk(env, args) && v <= TOP && i < NARGS
    ensures var env', a := FillEnv(env, args, b), FillArgs(env, args, v)[i];
            && Readable(env', a) && a.t == args[i].t
            && (IsData(a.t) ==> Source(env', a) == seq(|Source(env, args[i])|, _ => b))
            && (a.t == XDUMP ==> env'.xdumps[a.val].fmt == [b, b, b, b])
  {
    DataLengthBounded(env, args[i]);
  }

  lemma FilledByte(env: Env, a: Arg, room: nat, q: nat, b: byte)
    requires Readable(env, a) && IsData(a.t) && q < |PieceOf(env, a, room).bytes| && !Fixed(env, a, room, q)
    requires Source(env, a) == seq(|Source(env, a)|, _ => b)
    requires a.t == XDUMP ==> env.xdumps[a.val].fmt == [b, b, b, b]
    ensures PieceOf(env, a, room).bytes[q] == b
  {
  }

  lemma {:induction false} ZeroBytes(k: nat, q: nat)
    requires q < k
    ensures LE(0, k)[q] == 0
  {
    if q > 0 { ZeroBytes(k - 1, q - 1); }
  }

  lemma {:induction false} TopBytes(k: nat, q: nat)
    requires q < k
    ensures LE(Pow256(k) - 1, k)[q] == 255
  {
    assert (Pow256(k) - 1) / 256 == Pow256(k - 1) - 1;
    if q > 0 { TopBytes(k - 1, q - 1); }
  }

  lemma FilledWord(k: nat, q: nat)
    requires k == 4 || k == 8
    requires q < k
    ensures LE(0, k)[q] == 0 && LE(TOP, k)[q] == 255
  {
    hide LE;
    Widths();
    ZeroBytes(k, q);
    TopBytes(8, q);
    LEPrefix(TOP, 8, k);
    assert LE(TOP, 8)[..k][q] == LE(TOP, 8)[q];
  }

  ghost function FillStores(env: Env, args: seq<Arg>, tailroom: nat, b: byte, v: nat): (ss: seq<Store>)
    requires CanPack(env, args, tailroom) && v <= TOP
    ensures |ss| == NARGS
  {
    FillOk(env, args, b, v);
    SameLayout(env, args, FillEnv(env, args, b), FillArgs(env, args, v), tailroom, 0);
    Stores(FillEnv(env, args, b), FillArgs(env, args, v), tailroom)
  }

  lemma FilledData(env: Env, args: seq<Arg>, tailroom: nat, b: byte, v: nat, i: nat, x: nat)
    requires CanPack(env, args, tailroom) && v <= TOP && i < NARGS && InData(Stores(env, args, tailroom), i, x)
    ensures var ss, fs := Stores(env, args, tailroom), FillStores(env, args, tailroom, b, v);
            && InData(fs, i, x)
            && (if FixedAt(env, args, tailroom, i, x)
                then DataByte(fs, i, x) == DataByte(ss, i, x) else DataByte(fs, i, x) == b)
  {
    hide PieceOf, Source, Readable, Fixed, Offset, Count, WordBytes, DataLength, FillEnv, FillArgs, SameForms;
    var env', args' := FillEnv(env, args, b), FillArgs(env, args, v);
    FillOk(env, args, b, v);
    SameLayout(env, args, env', args', tailroom, i);
    var at, room := Stores(env, args, tailroom)[i].at, RoomOf(env, args, tailroom, i);
    FillSource(env, args, b, v, i);
    PieceForm(env, args[i], env', args'[i], room, x - at);
    if !Fixed(env, args[i], room, x - at) {
      PieceForm(env', args'[i], env, args[i], room, x - at);
      FilledByte(env', args'[i], room, x - at, b);
    }
  }

  lemma FilledDescriptor(env: Env, args: seq<Arg>, tailroom: nat, b: byte, v: nat, j: nat, x: nat)
    requires CanPack(env, args, tailroom) && v <= TOP && j < NARGS && InWord(Stores(env, args, tailroom), j, x)
    ensures InWord(FillStores(env, args, tailroom, b, v), j, x)
    ensures IsData(args[j].t) ==>
      WordByte(FillStores(env, args, tailroom, b, v), j, x) == WordByte(Stores(env, args, tailroom), j, x)
  {
    hide PieceOf, Source, Readable, Fixed, Offset, Count, WordBytes, DataLength, FillEnv, FillArgs, SameForms;
    FillOk(env, args, b, v);
    SameLayout(env, args, FillEnv(env, args, b), FillArgs(env, args, v), tailroom, j);
  }

  lemma FilledNumber(env: Env, args: seq<Arg>, tailroom: nat, b: byte, v: nat, j: nat, x: nat)
    requires CanPack(env, args, tailroom) && v <= TOP && j < NARGS && !IsData(args[j].t)
    requires InWord(FillStores(env, args, tailroom, b, v), j, x)
    ensures var fs := FillStores(env, args, tailroom, b, v);
            (v == 0 ==> WordByte(fs, j, x) == 0) && (v == TOP ==> WordByte(fs, j, x) == 255)
  {
    hide PieceOf, Source, Readable, Offset, Count, LE;
    var s := FillStores(env, args, tailroom, b, v)[j];
    FillOk(env, args, b, v);
    SameLayout(env, args, FillEnv(env, args, b), FillArgs(env, args, v), tailroom, j);
    if s.Word? { FilledWord(s.k, x - 8 * j); }
  }

  /** If data and word agree for every content, then they meet harmlessly. */
  lemma AgreeAlways(env: Env, args: seq<Arg>, tailroom: nat, i: nat, j: nat, x: nat)
    requires CanPack(env, args, tailroom) && i < NARGS && j < NARGS
    requires Agree(FillStores(env, args, tailroom, 0, 0), i, j)
    requires Agree(FillStores(env, args, tailroom, 1, 0), i, j)
    requires Agree(FillStores(env, args, tailroom, 0, TOP), i, j)
    ensures Harmless(env, args, tailroom, i, j, x)
  {
    hide FillStores, Stores, Readable, Roomy, Count, FixedAt, WordBytes, InData, InWord, WordByte, DataByte;
    var ss := Stores(env, args, tailroom);
    if InData(ss, i, x) && InWord(ss, j, x) {
      FilledData(env, args, tailroom, 0, 0, i, x);
      FilledData(env, args, tailroom, 1, 0, i, x);
      FilledData(env, args, tailroom, 0, TOP, i, x);
      FilledDescriptor(env, args, tailroom, 0, 0, j, x);
      FilledDescriptor(env, args, tailroom, 1, 0, j, x);
      FilledDescriptor(env, args, tailroom, 0, TOP, j, x);
      if !IsData(args[j].t) {
        FilledNumber(env, args, tailroom, 0, 0, j, x);
        FilledNumber(env, args, tailroom, 0, TOP, j, x);
      }
    }
  }

  lemma StoredSafe(m: seq<byte>, env: Env, args: seq<Arg>, tailroom: nat, i: nat)
    requires CanPack(env, args, tailroom) && ARG_AREA <= |m| < WORD && tailroom <= |m| && i < NARGS
    requires forall env', args' :: ArgsOk(env', args') && SameForms(env, args, env', args') ==>
      Stored(m, env', args', tailroom, i)
    ensures Safe(env, args, tailroom, i)
  {
    hide Stored, Stores, Harmless, Agree, SameForms, ArgsOk, FillEnv, FillArgs;
    FillKept(m, env, args, tailroom, i, 0, 0);
    FillKept(m, env, args, tailroom, i, 1, 0);
    FillKept(m, env, args, tailroom, i, 0, TOP);
    forall j, x | i <= j < NARGS && 0 <= x < ARG_AREA
      ensures Harmless(env, args, tailroom, i, j, x) && (i < j ==> Harmless(env, args, tailroom, j, i, x))
    {
      AgreeAlways(env, args, tailroom, i, j, x);
      if i < j { AgreeAlways(env, args, tailroom, j, i, x); }
    }
  }

  lemma FillKept(m: seq<byte>, env: Env, args: seq<Arg>, tailroom: nat, i: nat, b: byte, v: nat)
    requires CanPack(env, args, tailroom) && ARG_AREA <= |m| < WORD && tailroom <= |m| && i < NARGS && v <= TOP
    requires forall env', args' :: ArgsOk(env', args') && SameForms(env, args, env', args') ==>
      Stored(m, env', args', tailroom, i)
    ensures Kept(FillStores(env, args, tailroom, b, v), i)
  {
    hide Stored, Stores, SameForms, ArgsOk, FillEnv, FillArgs, Kept;
    FillOk(env, args, b, v);
    var env', args' := FillEnv(env, args, b), FillArgs(env, args, v);
    SameLayout(env, args, env', args', tailroom, i);
    StoredKept(m, env', args', tailroom, i);
  }

  /**
    * Which arguments survive, gaps or not: argument i's accessor finds what was passed for all contents
    * of these types and lengths if and only if argument i is safe.
    */
  lemma StoredIff(m: seq<byte>, env: Env, args: seq<Arg>, tailroom: nat, i: nat)
    requires CanPack(env, args, tailroom) && ARG_AREA <= |m| < WORD && tailroom <= |m| && i < NARGS
    ensures Safe(env, args, tailroom, i) <==>
      forall env', args' :: ArgsOk(env', args') && SameForms(env, args, env', args') ==>
        Stored(m, env', args', tailroom, i)
  {
    hide Stored, Safe, SameForms, ArgsOk;
    if Safe(env, args, tailroom, i) {
      forall env', args' | ArgsOk(env', args') && SameForms(env, args, env', args')
        ensures Stored(m, env', args', tailroom, i)
      {
        SafeStored(m, env, args, tailroom, i, env', args');
      }
    }
    if forall env', args' :: ArgsOk(env', args') && SameForms(env, args, env', args') ==>
      Stored(m, env', args', tailroom, i)
    {
      StoredSafe(m, env, args, tailroom, i);
    }
  }

  // ---------------------------------------------------------------- lists that are stored whole

  /** No data meets a word. */
  ghost predicate Separate(ss: seq<Store>)
  {
    forall i, j, x: nat :: 0 <= i < |ss| && 0 <= j < |ss| && InData(ss, i, x) ==> !InWord(ss, j, x)
  }

  lemma SeparateSafe(env: Env, args: seq<Arg>, tailroom: nat, i: nat)
    requires CanPack(env, args, tailroom) && i < NARGS && Separate(Stores(env, args, tailroom))
    ensures Safe(env, args, tailroom, i)
  {
    hide Stores, ArgsOk, Roomy, Count, FixedAt, InData, InWord, DataByte, WordByte;
  }

  /** Lists without data arguments, with gaps or not. */
  lemma NumbersSafe(env: Env, args: seq<Arg>, tailroom: nat, i: nat)
    requires CanPack(env, args, tailroom) && i < NARGS && forall k :: 0 <= k < NARGS ==> !IsData(args[k].t)
    ensures Safe(env, args, tailroom, i)
  {
    hide Offset, Count, Readable;
    SeparateSafe(env, args, tailroom, i);
  }

  /** Lists without gaps. */
  lemma GapFreeSafe(env: Env, args: seq<Arg>, tailroom: nat, n: nat, i: nat)
    requires ArgsOk(env, args) && GapFree(args, n) && Roomy(args, 8 * n, tailroom) && i < NARGS
    ensures Count(args, NARGS) == n && Safe(env, args, tailroom, i)
  {
    hide Stores, Readable, Count, Roomy, GapFree;
    StoresApart(env, args, tailroom, n);
    var ss := Stores(env, args, tailroom);
    forall i, j, x: nat | 0 <= i < |ss| && 0 <= j < |ss| && InData(ss, i, x) ensures !InWord(ss, j, x) {
      StoreLength(env, args, tailroom, j);
    }
    SeparateSafe(env, args, tailroom, i);
  }

  lemma StoreLength(env: Env, args: seq<Arg>, tailroom: nat, j: nat)
    requires CanPack(env, args, tailroom) && j < NARGS
    ensures |WordBytes(Stores(env, args, tailroom)[j])| <= 8
    ensures Stores(env, args, tailroom)[j].Nothing? ==> WordBytes(Stores(env, args, tailroom)[j]) == []
  {
    hide PieceOf, Offset, Count, Readable;
  }

  /**
    * Argument i's accessor gives back argument a: its value, or the caller's own bytes as far as there is
    * room, with the terminator of a string behind them.
    */
  predicate GivesBack(r: seq<byte>, i: nat, env: Env, a: Arg, room: nat)
    requires ARG_AREA <= |r| && i < NARGS && Readable(env, a)
  {
    if IsData(a.t) then
      var p := PieceOf(env, a, room);
      && HasData(r, i) && ArgData(r, i) == p.text && AsPassed(env, a, room, ArgData(r, i))
      && (p.placed ==> DataOffset(r, i) + |p.bytes| <= |r|
                       && r[DataOffset(r, i)..DataOffset(r, i) + |p.bytes|] == p.bytes)
    else if Is32(a.t) then Val32(r, i) == a.val % WORD
    else a.t != NONE ==> Val64(r, i) == a.val
  }

  lemma HoldsGivesBack(r: seq<byte>, i: nat, env: Env, a: Arg, o: nat, tailroom: nat)
    requires Readable(env, a) && (IsData(a.t) ==> o <= tailroom)
    requires StoreOk(r, i, StoreOf(env, a, o, tailroom)) && Holds(r, i, StoreOf(env, a, o, tailroom))
    ensures GivesBack(r, i, env, a, if IsData(a.t) then tailroom - o else 0)
  {
    hide PieceOf, Source, FromLE, AsPassed;
    if IsData(a.t) { PieceAsPassed(env, a, tailroom - o); }
  }

  /** A safe argument is given back. */
  lemma ArgumentsStored(m: seq<byte>, env: Env, args: seq<Arg>, tailroom: nat, i: nat)
    requires CanPack(env, args, tailroom) && i < NARGS && Safe(env, args, tailroom, i)
    requires ARG_AREA <= |m| < WORD && tailroom <= |m|
    ensures StoresOk(m, Stores(env, args, tailroom))
    ensures GivesBack(Applied(m, Stores(env, args, tailroom), NARGS), i, env, args[i],
                      if IsData(args[i].t) then RoomOf(env, args, tailroom, i) else 0)
  {
    hide PieceOf, Count, Applied, Offset, Source, Readable, Safe, Holds, StoreOk, GivesBack, Roomy;
    SafeStored(m, env, args, tailroom, i, env, args);
    var o := Offset(env, args, 8 * Count(args, NARGS), tailroom, i);
    assert IsData(args[i].t) ==> o <= tailroom by { StoresAt(env, args, tailroom, i); }
    HoldsGivesBack(Applied(m, Stores(env, args, tailroom), NARGS), i, env, args[i], o, tailroom);
  }

  // ---------------------------------------------------------------- terminators

  /**
    * The record holds string argument a, whose turn came at offset o: with a terminator in the tailroom if
    * it is not empty and there was any room, and as offset and length zero otherwise.
    */
  predicate StringAt(r: seq<byte>, i: nat, env: Env, a: Arg, o: nat, tailroom: nat)
    requires ARG_AREA <= |r| && tailroom <= |r| && i < NARGS && Readable(env, a) && IsData(a.t)
  {
    if Source(env, a) != [] && o < tailroom then
      DataOffset(r, i) == o && o + DataLen(r, i) < tailroom && r[o + DataLen(r, i)] == 0
    else
      DataOffset(r, i) == 0 && DataLen(r, i) == 0
  }

  /** In a list, a string is terminated if and only if it is not empty and those before it have left any room. */
  lemma TerminatedIff(m: seq<byte>, env: Env, args: seq<Arg>, tailroom: nat, i: nat)
    requires CanPack(env, args, tailroom) && i < NARGS && Safe(env, args, tailroom, i) && args[i].t == CSTR
    requires ARG_AREA <= |m| < WORD && tailroom <= |m|
    ensures StoresOk(m, Stores(env, args, tailroom))
    ensures var o := Offset(env, args, 8 * Count(args, NARGS), tailroom, i);
            o <= tailroom && StringAt(Applied(m, Stores(env, args, tailroom), NARGS), i, env, args[i], o, tailroom)
  {
    hide Count, Applied, Offset, Safe, Holds, StoreOk, Roomy, PieceOf, Source, Readable, StringAt;
    SafeStored(m, env, args, tailroom, i, env, args);
    StoresAt(env, args, tailroom, i);
    var o := Offset(env, args, 8 * Count(args, NARGS), tailroom, i);
    StringHeld(Applied(m, Stores(env, args, tailroom), NARGS), i, env, args[i], o, tailroom);
  }

  lemma StringHeld(r: seq<byte>, i: nat, env: Env, a: Arg, o: nat, tailroom: nat)
    requires Readable(env, a) && a.t == CSTR && o <= tailroom <= |r|
    requires StoreOk(r, i, StoreOf(env, a, o, tailroom)) && Holds(r, i, StoreOf(env, a, o, tailroom))
    ensures StringAt(r, i, env, a, o, tailroom)
  {
    hide FromLE, Source, PieceOf;
    StoredString(env, a, tailroom - o);
    var p := PieceOf(env, a, tailroom - o);
    if p.placed {
      assert r[o..o + |p.bytes|] == p.text + [0];
      assert r[o..o + |p.bytes|][|p.text|] == 0;
    }
  }

  /** The list ("AA...A" with 200 characters, "A"). */
  function LongArgs(): (args: seq<Arg>)
    ensures |args| == NARGS
  {
    seq(16, i requires 0 <= i < 16 =>
      if i == 0 then Arg(CSTR, 0, 200) else if i == 1 then Arg(CSTR, 0, 1) else Arg(NONE, 0, 0))
  }

  const LONG_ENV := Env(seq(200, _ => 65), map[])

  /** With the least tailroom, the first string of this list takes all of it: the second gets no terminator. */
  lemma NoRoomLeft()
    ensures CanPack(LONG_ENV, LongArgs(), ARG_AREA) && GapFree(LongArgs(), 2)
    ensures Count(LongArgs(), NARGS) == 2 && Source(LONG_ENV, LongArgs()[1]) != []
    ensures Offset(LONG_ENV, LongArgs(), 16, ARG_AREA, 1) == ARG_AREA
  {
    hide Count, PieceOf, Source, Offset;
    GapFreeCount(LongArgs(), 2, NARGS);
    LongPiece();
    OffsetStart(LONG_ENV, LongArgs(), 16, ARG_AREA);
    OffsetAfter(LONG_ENV, LongArgs(), 16, ARG_AREA, 0);
  }

  lemma LongPiece()
    ensures |PieceOf(LONG_ENV, LongArgs()[0], 112).bytes| == 112 && Source(LONG_ENV, LongArgs()[1]) != []
  {
  }
}
