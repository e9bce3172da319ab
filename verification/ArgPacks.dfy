/** The out-of-line form of argument packing: fill an argpack, then copy it into a record. */
module ArgPacks {
  import opened Bytes
  import opened Bits
  import opened ArgTypes
  import opened Arguments
  import opened Packing
  import opened Overlaps

  /** The fields of an argpack. */
  datatype Pack = Pack(argtype: nat, argval: seq<nat>, arglen: seq<nat>)

  predicate PackOk(p: Pack)
  {
    && |p.argval| == NARGS && |p.arglen| == NARGS
    && (forall i :: 0 <= i < NARGS ==> p.argval[i] < 0x1_0000_0000_0000_0000 && p.arglen[i] < WORD)
  }

  /** The pack holds the argument list: 32-bit values in the low half of their word. */
  ghost predicate Packs(p: Pack, args: seq<Arg>)
  {
    && PackOk(p) && |args| == NARGS
    && p.argtype == TypeWord(args, NARGS)
    && (forall i :: 0 <= i < NARGS && args[i].t != NONE ==>
          && (Is32(args[i].t) ==> p.argval[i] % WORD == args[i].val % WORD)
          && (!Is32(args[i].t) ==> p.argval[i] == args[i].val)
          && (IsData(args[i].t) ==> p.arglen[i] == args[i].len))
  }

  /** The arguments as set_args reads them back out of the pack. */
  function Unpacked(p: Pack, n: nat): (args: seq<Arg>)
    requires PackOk(p) && n <= NARGS
    ensures |args| == n
  {
    seq(n, i requires 0 <= i < n => Arg(GetArgType(p.argtype, i), p.argval[i], p.arglen[i]))
  }

  /** One step of set_args(ap): everything that is not data is copied as a 64-bit word. */
  function PackedStore(env: Env, a: Arg, o: nat, tailroom: nat): Store
    requires Readable(env, a) && (IsData(a.t) ==> o <= tailroom)
  {
    if IsData(a.t) then Data(o, PieceOf(env, a, tailroom - o)) else Word(a.val, 8)
  }

  predicate UnpackedOk(env: Env, us: seq<Arg>, tailroom: nat)
  {
    && |us| <= NARGS && Roomy(us, 8 * |us|, tailroom)
    && forall i :: 0 <= i < |us| ==> Readable(env, us[i])
  }

  function PackedStores(env: Env, us: seq<Arg>, tailroom: nat): (ss: seq<Store>)
    requires UnpackedOk(env, us, tailroom)
    ensures |ss| == |us|
  {
    seq(|us|, i requires 0 <= i < |us| =>
      PackedStore(env, us[i], Offset(env, us, 8 * |us|, tailroom, i), tailroom))
  }

  /** What comes out of the pack are the arguments, up to unused halves of words and what fills the gaps. */
  lemma UnpackedArgs(p: Pack, args: seq<Arg>, n: nat)
    requires Packs(p, args) && Ends(args, n) && forall i :: 0 <= i < NARGS ==> args[i].t < 16
    ensures TypeCount(p.argtype) == n
    ensures forall i :: 0 <= i < n ==>
      && Unpacked(p, n)[i].t == args[i].t
      && (IsData(args[i].t) ==> Unpacked(p, n)[i] == args[i])
  {
    hide TypeWord, GetArgType, TypeCount;
    TypeWordCount(args, n);
    forall i | 0 <= i < n
      ensures Unpacked(p, n)[i].t == args[i].t && (IsData(args[i].t) ==> Unpacked(p, n)[i] == args[i])
    {
      TypesStored(args, NARGS, i);
    }
  }

  /** A list of arguments that agrees with the first n of another on all data. */
  ghost predicate SameData(us: seq<Arg>, args: seq<Arg>)
  {
    && |us| <= |args|
    && forall i :: 0 <= i < |us| ==> us[i].t == args[i].t && (IsData(args[i].t) ==> us[i] == args[i])
  }

  lemma {:induction false} SameOffsets(env: Env, us: seq<Arg>, args: seq<Arg>, start: nat, tailroom: nat, k: nat)
    requires SameData(us, args) && k <= |us| && Roomy(args, start, tailroom) && Roomy(us, start, tailroom)
    requires forall i :: 0 <= i < |us| ==> Readable(env, us[i])
    requires forall i :: 0 <= i < |args| ==> Readable(env, args[i])
    ensures Offset(env, us, start, tailroom, k) == Offset(env, args, start, tailroom, k)
  {
    hide PieceOf, Source, Readable;
    if k > 0 { SameOffsets(env, us, args, start, tailroom, k - 1); }
  }

  lemma UnpackedReadable(env: Env, p: Pack, args: seq<Arg>, n: nat, tailroom: nat)
    requires Packs(p, args) && ArgsOk(env, args) && Ends(args, n) && Roomy(args, 8 * n, tailroom)
    ensures TypeCount(p.argtype) == n && SameData(Unpacked(p, n), args) && UnpackedOk(env, Unpacked(p, n), tailroom)
  {
    hide TypeWord, GetArgType, TypeCount;
    assert forall i :: 0 <= i < NARGS ==> args[i].t < 16;
    UnpackedArgs(p, args, n);
  }

  lemma PackedApart(env: Env, us: seq<Arg>, tailroom: nat)
    requires UnpackedOk(env, us, tailroom)
    ensures Apart(PackedStores(env, us, tailroom))
  {
    hide PieceOf, Offset, Source, Readable;
    var ss := PackedStores(env, us, tailroom);
    forall i, j | 0 <= i < j < |ss| && ss[i].Data? && ss[j].Data? ensures ss[i].at + |ss[i].p.bytes| <= ss[j].at {
      ArgumentLayout(env, us, 8 * |us|, tailroom, i);
    }
  }

  lemma PackedStoresOk(m: seq<byte>, env: Env, us: seq<Arg>, tailroom: nat)
    requires UnpackedOk(env, us, tailroom) && ARG_AREA <= |m| < WORD && tailroom <= |m|
    ensures StoresOk(m, PackedStores(env, us, tailroom))
  {
    hide PieceOf, Offset, Source;
  }

  lemma Val32IsLow(m: seq<byte>, i: nat)
    requires ARG_AREA <= |m| && i < NARGS
    ensures Val32(m, i) == Val64(m, i) % WORD
  {
    hide FromLE, LE;
    Widths();
    FromLESplit(m[8 * i..8 * i + 8], 4);
    assert m[8 * i..8 * i + 8][..4] == m[8 * i..8 * i + 4];
    FromLEBounded(m[8 * i..8 * i + 4]);
  }

  lemma Regroup(a: nat, b: nat)
    ensures 256 * (a * b) == (256 * a) * b
  {
  }

  lemma {:induction false} FromLESplit(s: seq<byte>, k: nat)
    requires k <= |s|
    ensures FromLE(s) == FromLE(s[..k]) + Pow256(k) * FromLE(s[k..])
  {
    if k == 0 {
      assert s[0..] == s;
    } else {
      FromLESplit(s[1..], k - 1);
      assert s[1..][..k - 1] == s[..k][1..] && s[1..][k - 1..] == s[k..];
      Regroup(Pow256(k - 1), FromLE(s[k..]));
    }
  }

  /** Two memories that hold matching stores give the same values. */
  lemma SameHeld(d: seq<byte>, q: seq<byte>, i: nat, s: Store, t: Store, ty: nat)
    requires StoreOk(d, i, s) && StoreOk(q, i, t) && Holds(d, i, s) && Holds(q, i, t)
    requires IsData(ty) ==> s == t && s.Data?
    requires Is32(ty) ==> s.Word? && t.Word? && s.k == 4 && t.k == 8 && s.v % WORD == t.v % WORD
    requires !Is32(ty) && !IsData(ty) ==> s == t && s.Word? && s.k == 8
    ensures SameArg(d, q, i, ty)
  {
    hide FromLE;
    Val32IsLow(q, i);
    if Is32(ty) { Halves(t.v); }
  }

  lemma Halves(v: nat)
    ensures v % 0x1_0000_0000_0000_0000 % WORD == v % WORD
  {
    var h := 0x1_0000_0000_0000_0000;
    assert v == v / h * h + v % h;
    assert v % WORD == (v % h) % WORD by {
      assert v == (v / h * WORD) * WORD + v % h;
    }
  }

  /** The accessor for type `ty` finds the same in both memories. */
  predicate SameArg(d: seq<byte>, q: seq<byte>, i: nat, ty: nat)
    requires ARG_AREA <= |d| && ARG_AREA <= |q| && i < NARGS
  {
    if Is32(ty) then Val32(q, i) == Val32(d, i)
    else if IsData(ty) then
      HasData(q, i) && HasData(d, i) && ArgData(q, i) == ArgData(d, i) && DataOffset(q, i) == DataOffset(d, i)
    else Val64(q, i) == Val64(d, i)
  }

  /**
    * The two ways to pack a gap-free argument list agree: a record filled through an argpack gives
    * the same number of arguments, and for every argument the same value through its accessor, as a
    * record filled directly; with the same type word.
    */
  lemma TwoPathsAgree(m: seq<byte>, m': seq<byte>, env: Env, p: Pack, args: seq<Arg>, n: nat, tailroom: nat, i: nat)
    requires ArgsOk(env, args) && GapFree(args, n) && Roomy(args, 8 * n, tailroom) && Packs(p, args)
    requires ARG_AREA <= |m| < WORD && tailroom <= |m| && |m'| == |m| && i < n
    ensures TypeCount(p.argtype) == Count(args, NARGS) == n && p.argtype == TypeWord(args, NARGS)
    ensures UnpackedOk(env, Unpacked(p, n), tailroom)
    ensures StoresOk(m, Stores(env, args, tailroom)) && StoresOk(m', PackedStores(env, Unpacked(p, n), tailroom))
    ensures SameArg(Applied(m, Stores(env, args, tailroom), NARGS),
                    Applied(m', PackedStores(env, Unpacked(p, n), tailroom), n), i, args[i].t)
  {
    hide PieceOf, Count, Apply, Applied, Apart, Offset, Source, Readable, TypeCount, GetArgType, TypeWord, Holds,
      StoreOk, SameArg;
    var us := Unpacked(p, n);
    StoresApart(env, args, tailroom, n);
    StoresAreOk(m, env, args, tailroom);
    ApartHold(m, Stores(env, args, tailroom), i);
    UnpackedReadable(env, p, args, n, tailroom);
    PackedApart(env, us, tailroom);
    PackedStoresOk(m', env, us, tailroom);
    ApartHold(m', PackedStores(env, us, tailroom), i);
    SameOffsets(env, us, args, 8 * n, tailroom, i);
    var d, q := Applied(m, Stores(env, args, tailroom), NARGS), Applied(m', PackedStores(env, us, tailroom), n);
    SameHeld(d, q, i, Stores(env, args, tailroom)[i], PackedStores(env, us, tailroom)[i], args[i].t);
  }

  /**
    * By way of an argpack no argument is lost, gaps or not: the data is placed behind the word of the last
    * argument.
    */
  lemma PackedStored(m: seq<byte>, env: Env, p: Pack, args: seq<Arg>, n: nat, tailroom: nat, i: nat)
    requires ArgsOk(env, args) && Ends(args, n) && Roomy(args, 8 * n, tailroom) && Packs(p, args)
    requires ARG_AREA <= |m| < WORD && tailroom <= |m| && i < n
    ensures TypeCount(p.argtype) == n && UnpackedOk(env, Unpacked(p, n), tailroom)
    ensures StoresOk(m, PackedStores(env, Unpacked(p, n), tailroom))
    ensures var o := Offset(env, Unpacked(p, n), 8 * n, tailroom, i);
            && (IsData(args[i].t) ==> o <= tailroom)
            && GivesBack(Applied(m, PackedStores(env, Unpacked(p, n), tailroom), n), i, env, args[i],
                         if IsData(args[i].t) then tailroom - o else 0)
  {
    hide PieceOf, Applied, Apart, Offset, Source, TypeCount, GetArgType, TypeWord, Holds, StoreOk, GivesBack;
    var us := Unpacked(p, n);
    UnpackedReadable(env, p, args, n, tailroom);
    PackedApart(env, us, tailroom);
    PackedStoresOk(m, env, us, tailroom);
    ApartHold(m, PackedStores(env, us, tailroom), i);
    var o := Offset(env, us, 8 * n, tailroom, i);
    PackedGivesBack(Applied(m, PackedStores(env, us, tailroom), n), i, env, us[i], args[i], o, tailroom);
  }

  lemma PackedGivesBack(r: seq<byte>, i: nat, env: Env, u: Arg, a: Arg, o: nat, tailroom: nat)
    requires Readable(env, u) && Readable(env, a) && u.t == a.t && (IsData(a.t) ==> o <= tailroom && u == a)
    requires if Is32(a.t) then u.val % WORD == a.val % WORD else a.t != NONE ==> u.val == a.val
    requires StoreOk(r, i, PackedStore(env, u, o, tailroom)) && Holds(r, i, PackedStore(env, u, o, tailroom))
    ensures GivesBack(r, i, env, a, if IsData(a.t) then tailroom - o else 0)
  {
    hide PieceOf, Source, FromLE, AsPassed;
    if IsData(a.t) { PieceAsPassed(env, a, tailroom - o); }
    if Is32(a.t) {
      Val32IsLow(r, i);
      Halves(u.val);
    }
  }

  lemma {:induction false} CountNone(args: seq<Arg>, j: nat, k: nat)
    requires j <= k <= |args| && forall i :: j <= i < k ==> args[i].t == NONE
    ensures Count(args, k) == Count(args, j)
  {
    if j < k { CountNone(args, j, k - 1); }
  }

  /** The list (-, u32 7, "AAAA"). */
  function GapArgs(): (args: seq<Arg>)
    ensures |args| == NARGS
  {
    seq(16, i requires 0 <= i < 16 =>
      if i == 1 then Arg(UINT32, 7, 0) else if i == 2 then Arg(CSTR, 0, 4) else Arg(NONE, 0, 0))
  }

  const GAP_ENV := Env([65, 65, 65, 65], map[])

  lemma GapCount()
    ensures Count(GapArgs(), NARGS) == 2
  {
    assert Count(GapArgs(), 1) == 0 && Count(GapArgs(), 2) == 1;
    CountNone(GapArgs(), 3, NARGS);
  }

  lemma GapStores()
    ensures ArgsOk(GAP_ENV, GapArgs()) && Count(GapArgs(), NARGS) == 2 && Roomy(GapArgs(), 16, ARG_AREA)
    ensures var ss := Stores(GAP_ENV, GapArgs(), ARG_AREA);
            && ss[2] == Data(16, Piece(true, GAP_ENV.heap, GAP_ENV.heap + [0]))
            && forall i :: 3 <= i < NARGS ==> ss[i].Nothing?
    ensures Source(GAP_ENV, GapArgs()[2]) == GAP_ENV.heap
  {
    hide Count;
    var args := GapArgs();
    GapCount();
    assert Offset(GAP_ENV, args, 16, ARG_AREA, 1) == 16;
    assert Offset(GAP_ENV, args, 16, ARG_AREA, 2) == 16;
  }

  /**
    * With a gap the promise fails.  The string of this list is placed behind two argument words, over
    * the third, and its own descriptor then overwrites it.
    */
  lemma GapOverwrites(m: seq<byte>)
    requires |m| == ARG_AREA
    ensures ArgsOk(GAP_ENV, GapArgs()) && Roomy(GapArgs(), 8 * Count(GapArgs(), NARGS), |m|)
    ensures StoresOk(m, Stores(GAP_ENV, GapArgs(), |m|))
    ensures var r := Applied(m, Stores(GAP_ENV, GapArgs(), |m|), NARGS);
            HasData(r, 2) && ArgData(r, 2) != Source(GAP_ENV, GapArgs()[2])
    ensures !Safe(GAP_ENV, GapArgs(), |m|, 2)
  {
    hide Count, Apply, Stores, ArgsOk, Roomy, GapArgs, Source, Safe, GivesBack;
    GapStores();
    StoresAreOk(m, GAP_ENV, GapArgs(), |m|);
    var ss := Stores(GAP_ENV, GapArgs(), |m|);
    NothingAfter(m, ss, 3, NARGS);
    OwnDescriptor(Applied(m, ss, 2), ss[2].p);
    if Safe(GAP_ENV, GapArgs(), |m|, 2) {
      ArgumentsStored(m, GAP_ENV, GapArgs(), |m|, 2);
      GapText(Applied(m, ss, NARGS));
    }
  }

  lemma GapText(r: seq<byte>)
    requires |r| == ARG_AREA && CanPack(GAP_ENV, GapArgs(), |r|)
    ensures IsData(GapArgs()[2].t)
    ensures GivesBack(r, 2, GAP_ENV, GapArgs()[2], RoomOf(GAP_ENV, GapArgs(), |r|, 2)) ==>
      HasData(r, 2) && ArgData(r, 2) == Source(GAP_ENV, GapArgs()[2])
  {
    hide Count, DataOffset, DataLen;
    GapStores();
    assert StoreOf(GAP_ENV, GapArgs()[2], 16, |r|) == Data(16, PieceOf(GAP_ENV, GapArgs()[2], |r| - 16));
    StoresAt(GAP_ENV, GapArgs(), |r|, 2);
  }

  lemma {:induction false} NothingAfter(m: seq<byte>, ss: seq<Store>, j: nat, k: nat)
    requires StoresOk(m, ss) && j <= k <= |ss| && forall i :: j <= i < k ==> ss[i].Nothing?
    ensures Applied(m, ss, k) == Applied(m, ss, j)
    decreases k
  {
    hide Apply, StoreOk;
    if j < k {
      NothingAfter(m, ss, j, k - 1);
      StoreOkSame(m, Applied(m, ss, k - 1), k - 1, ss[k - 1]);
      NothingApplied(Applied(m, ss, k - 1), k - 1, ss[k - 1]);
    }
  }

  /** A descriptor written over the four bytes it describes. */
  lemma OwnDescriptor(m: seq<byte>, p: Piece)
    requires |m| == ARG_AREA && p.placed && |p.text| == 4 && |p.bytes| == 5 && p.bytes[..4] == p.text
    ensures var r := Apply(m, 2, Data(16, p));
            HasData(r, 2) && ArgData(r, 2)[0] == 16
  {
    hide LE, FromLE;
    Widths();
    FromLEOfLE(16, 4);
    FromLEOfLE(4, 4);
    var r := Apply(m, 2, Data(16, p));
    assert r[16..24] == LE(16, 4) + LE(4, 4);
    assert r[16..20] == LE(16, 4) && r[20..24] == LE(4, 4);
    assert LE(16, 4)[0] == 16 by { LowFirst(16, 4); }
  }

  lemma LowFirst(v: nat, k: nat)
    requires k >= 1
    ensures LE(v, k)[0] == v % 256
  {
  }

  /** The list ("AAAAAAAA", -, -, ""). */
  function MeetingArgs(): (args: seq<Arg>)
    ensures |args| == NARGS
  {
    seq(16, i requires 0 <= i < 16 =>
      if i == 0 then Arg(CSTR, 0, 8) else if i == 3 then Arg(CSTR, 0, 0) else Arg(NONE, 0, 0))
  }

  const MEETING_ENV := Env(seq(8, _ => 65), map[])

  /**
    * Data may meet a word and every argument be safe all the same: the first string's terminator is
    * written on the descriptor of the last one, where there will be a zero in any case.
    */
  lemma MeetingSafe(i: nat)
    requires i < NARGS
    ensures CanPack(MEETING_ENV, MeetingArgs(), ARG_AREA)
    ensures !Separate(Stores(MEETING_ENV, MeetingArgs(), ARG_AREA)) && Safe(MEETING_ENV, MeetingArgs(), ARG_AREA, i)
  {
    hide Count, LE;
    MeetingStores();
    var ss := Stores(MEETING_ENV, MeetingArgs(), ARG_AREA);
    ZeroBytes(4, 0);
    assert InData(ss, 0, 24) && InWord(ss, 3, 24);
  }

  lemma MeetingCount()
    ensures Count(MeetingArgs(), NARGS) == 2
  {
    assert Count(MeetingArgs(), 1) == 1;
    CountNone(MeetingArgs(), 1, 3);
    CountNone(MeetingArgs(), 4, NARGS);
  }

  lemma MeetingStores()
    ensures CanPack(MEETING_ENV, MeetingArgs(), ARG_AREA) && Count(MeetingArgs(), NARGS) == 2
    ensures var ss := Stores(MEETING_ENV, MeetingArgs(), ARG_AREA);
            && ss[0] == Data(16, Piece(true, MEETING_ENV.heap, MEETING_ENV.heap + [0]))
            && ss[3].Data? && ss[3].p == Piece(false, [], [])
            && forall i :: 0 <= i < NARGS && i != 0 && i != 3 ==> ss[i].Nothing?
  {
    hide Count;
    var args := MeetingArgs();
    MeetingCount();
    OffsetStart(MEETING_ENV, args, 16, ARG_AREA);
  }
}
