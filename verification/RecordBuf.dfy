/** The record in memory and the argpack: the operations that fill them in place. */
module RecordBuffers {
  import opened Bytes
  import opened Bits
  import opened ArgTypes
  import opened Arguments
  import opened Packing
  import opened ArgPacks

  lemma PutBefore(m: seq<byte>, at: nat, a: seq<byte>, b: seq<byte>)
    requires at + |a| + |b| <= |m|
    ensures Put(Put(m, at + |a|, b), at, a) == Put(m, at, a + b)
  {
  }

  lemma PutAfter(m: seq<byte>, at: nat, a: seq<byte>, b: seq<byte>)
    requires at + |a| + |b| <= |m|
    ensures Put(Put(m, at, a), at + |a|, b) == Put(m, at, a + b)
  {
  }

  lemma PutNothing(m: seq<byte>, at: nat)
    requires at <= |m|
    ensures Put(m, at, []) == m
  {
  }

  /** How many of the first k arguments carry data. */
  function DataCount(args: seq<Arg>, k: nat): nat
    requires k <= |args|
  {
    if k == 0 then 0 else DataCount(args, k - 1) + (if IsData(args[k - 1].t) then 1 else 0)
  }

  /** struct argpack */
  class ArgPack {
    var argtype: nat
    const argval: array<nat>
    const arglen: array<nat>

    predicate Valid()
      reads this, argval, arglen
    {
      argval.Length == NARGS && arglen.Length == NARGS && argval != arglen
      && PackOk(Pack(argtype, argval[..], arglen[..]))
    }

    ghost function Model(): Pack
      reads this, argval, arglen
    {
      Pack(argtype, argval[..], arglen[..])
    }

    constructor ()
      ensures Valid() && argtype == 0 && fresh(argval) && fresh(arglen)
    {
      argtype := 0;
      argval := new nat[NARGS](_ => 0);
      arglen := new nat[NARGS](_ => 0);
    }

    method NArgs() returns (n: nat)
      requires Valid()
      ensures n == TypeCount(argtype)
    {
      n := CountTypes(argtype);
    }

    /** Store one argument; a 32-bit value overwrites only the low half of its word. */
    method SetArg(i: nat, a: Arg) returns (complex: nat)
      requires Valid() && i < NARGS && a.val < 0x1_0000_0000_0000_0000 && a.len < WORD
      modifies this, argval, arglen
      ensures Valid() && complex == (if IsData(a.t) then 1 else 0)
      ensures a.t == NONE ==> Model() == old(Model())
      ensures a.t != NONE ==> argtype == SetArgType(old(argtype), i, a.t)
      ensures a.t != NONE ==> (if Is32(a.t) then argval[i] % WORD == a.val % WORD else argval[i] == a.val)
      ensures IsData(a.t) ==> arglen[i] == a.len
      ensures forall j :: 0 <= j < NARGS && j != i ==> argval[j] == old(argval[j]) && arglen[j] == old(arglen[j])
    {
      if a.t == NONE {
        return 0;
      }
      argtype := SetArgType(argtype, i, a.t);
      if Is32(a.t) {
        LowHalf(argval[i], a.val);
        argval[i] := argval[i] / WORD * WORD + a.val % WORD;
      } else {
        argval[i] := a.val;
      }
      if !IsData(a.t) {
        return 0;
      }
      arglen[i] := a.len;
      complex := 1;
    }

    /** Whatever was in the pack before, it holds the argument list afterwards. */
    method Populate(env: Env, args: seq<Arg>) returns (complex: nat)
      requires Valid() && ArgsOk(env, args)
      modifies this, argval, arglen
      ensures Valid() && Packs(Model(), args) && complex == DataCount(args, NARGS)
    {
      hide SetArgType, Readable;
      complex := 0;
      argtype := 0;
      var i := 0;
      while i < NARGS
        invariant 0 <= i <= NARGS && Valid() && argtype == TypeWord(args, i) && complex == DataCount(args, i)
        invariant forall j :: 0 <= j < i && args[j].t != NONE ==>
          && (Is32(args[j].t) ==> argval[j] % WORD == args[j].val % WORD)
          && (!Is32(args[j].t) ==> argval[j] == args[j].val)
          && (IsData(args[j].t) ==> arglen[j] == args[j].len)
      {
        ReadableValues(env, args[i]);
        var c := SetArg(i, args[i]);
        complex := complex + c;
        i := i + 1;
      }
    }
  }

  lemma ReadableValues(env: Env, a: Arg)
    requires Readable(env, a)
    ensures a.t <= RAW && a.val < 0x1_0000_0000_0000_0000 && a.len < WORD
  {
  }

  lemma LowHalf(w: nat, v: nat)
    requires w < 0x1_0000_0000_0000_0000
    ensures w / WORD * WORD + v % WORD < 0x1_0000_0000_0000_0000
    ensures (w / WORD * WORD + v % WORD) % WORD == v % WORD
  {
  }

  // ---------------------------------------------------------------- one step of the packing loops

  lemma AppliedStart(m: seq<byte>, ss: seq<Store>)
    requires StoresOk(m, ss)
    ensures Applied(m, ss, 0) == m
  {
    hide StoreOk, Apply;
  }

  lemma AppliedNext(m: seq<byte>, ss: seq<Store>, k: nat)
    requires StoresOk(m, ss) && k < |ss|
    ensures StoreOk(Applied(m, ss, k), k, ss[k]) && Applied(m, ss, k + 1) == Apply(Applied(m, ss, k), k, ss[k])
  {
    hide Apply;
  }

  lemma PackedStoresAt(env: Env, us: seq<Arg>, tailroom: nat, i: nat)
    requires UnpackedOk(env, us, tailroom) && i < |us|
    ensures var o := Offset(env, us, 8 * |us|, tailroom, i);
            && (IsData(us[i].t) ==> o <= tailroom)
            && PackedStores(env, us, tailroom)[i]
               == if IsData(us[i].t) then Data(o, PieceOf(env, us[i], tailroom - o)) else Word(us[i].val, 8)
  {
    hide PieceOf, Source, Offset;
  }

  /** The number of arguments that are not NONE. */
  method CountArgs(args: seq<Arg>) returns (n: nat)
    requires |args| == NARGS
    ensures n == Count(args, NARGS)
  {
    n := 0;
    for i := 0 to NARGS
      invariant n == Count(args, i)
    {
      n := n + (if args[i].t != NONE then 1 else 0);
    }
  }

  /** struct record from its argument types on; `argval` reaches to the end of the record's slot. */
  class RecordBuf {
    var argtype: nat
    const argval: array<byte>

    predicate Valid()
      reads this
    {
      ARG_AREA <= argval.Length < WORD
    }

    constructor (size: nat)
      requires ARG_AREA <= size < WORD
      ensures Valid() && argval.Length == size && argtype == 0 && fresh(argval)
    {
      argtype := 0;
      argval := new byte[size](_ => 0);
    }

    /** memcpy into the record. */
    method Write(at: nat, s: seq<byte>)
      requires at + |s| <= argval.Length
      modifies argval
      ensures argval[..] == Put(old(argval[..]), at, s)
    {
      forall k | 0 <= k < |s| {
        argval[at + k] := s[k];
      }
      assert forall k :: at <= k < at + |s| ==> argval[k] == s[k - at];
      assert argval[..] == old(argval[..])[..at] + s + old(argval[..])[at + |s|..];
    }

    method SetArgVal32(i: nat, v: nat)
      requires Valid() && i < NARGS
      modifies argval
      ensures argval[..] == Apply(old(argval[..]), i, Word(v, 4))
    {
      Write(8 * i, LE(v, 4));
    }

    method SetArgVal64(i: nat, v: nat)
      requires Valid() && i < NARGS
      modifies argval
      ensures argval[..] == Apply(old(argval[..]), i, Word(v, 8))
    {
      Write(8 * i, LE(v, 8));
    }

    method SetArgData(i: nat, offset: nat, len: nat)
      requires Valid() && i < NARGS
      modifies argval
      ensures argval[..] == Put(old(argval[..]), 8 * i, LE(offset, 4) + LE(len, 4))
    {
      PutAfter(argval[..], 8 * i, LE(offset, 4), LE(len, 4));
      Write(8 * i, LE(offset, 4));
      Write(8 * i + 4, LE(len, 4));
    }

    /** A string goes in with its terminator; if it does not fit it is cut and, room permitting, marked. */
    method CopyCstr(i: nat, str: seq<byte>, tailroom: nat, offset: nat) returns (used: nat)
      requires Valid() && i < NARGS && offset <= tailroom <= argval.Length
      modifies argval
      ensures used == |CstrPiece(str, tailroom - offset).bytes|
      ensures argval[..] == Apply(old(argval[..]), i, Data(offset, CstrPiece(str, tailroom - offset)))
    {
      hide LE, Put;
      var room := tailroom - offset;
      if |str| == 0 || room == 0 {
        PutNothing(argval[..], offset);
        SetArgData(i, 0, 0);
        return 0;
      }
      room := room - 1;
      ghost var text := CstrPiece(str, tailroom - offset).text;
      var n, len := |str|, |str|;
      if n > room {
        n, len := room, room;
        if n > 3 {
          n := n - 3;
          PutBefore(argval[..], offset, str[..n], MARKER);
          Write(offset + n, MARKER);
          assert argval[..] == Put(old(argval[..]), offset + n, MARKER);
          assert Put(argval[..], offset, str[..n]) == Put(old(argval[..]), offset, str[..n] + MARKER);
          assert str[..n] + MARKER == text;
        } else {
          assert str[..n] == text;
        }
      } else {
        assert str[..n] == text;
      }
      assert Put(argval[..], offset, str[..n]) == Put(old(argval[..]), offset, text);
      PutAfter(old(argval[..]), offset, text, [0]);
      Write(offset, str[..n]);
      Write(offset + len, [0]);
      SetArgData(i, offset, len);
      used := len + 1;
    }

    /** Raw data is cut silently. */
    method CopyData(i: nat, data: seq<byte>, tailroom: nat, offset: nat) returns (used: nat)
      requires Valid() && i < NARGS && offset <= tailroom <= argval.Length
      modifies argval
      ensures used == |RawPiece(data, tailroom - offset).bytes|
      ensures argval[..] == Apply(old(argval[..]), i, Data(offset, RawPiece(data, tailroom - offset)))
    {
      hide LE, Put;
      var room := tailroom - offset;
      var len := if |data| > room then room else |data|;
      Write(offset, data[..len]);
      SetArgData(i, offset, len);
      used := len;
    }

    /** A dump is its format followed by its data; it is left out if the format does not fit. */
    method CopyXdump(i: nat, fmt: seq<byte>, data: seq<byte>, tailroom: nat, offset: nat) returns (used: nat)
      requires Valid() && i < NARGS && offset <= tailroom <= argval.Length
      requires |fmt| == XDUMP_FORMAT && |data| < WORD
      modifies argval
      ensures used == |XdumpPiece(fmt, data, tailroom - offset).bytes|
      ensures argval[..] == Apply(old(argval[..]), i, Data(offset, XdumpPiece(fmt, data, tailroom - offset)))
    {
      hide LE, Put;
      var room := tailroom - offset;
      var len := (XDUMP_FORMAT + |data|) % WORD;
      len := if len > room then room else len;
      if len < XDUMP_FORMAT {
        PutNothing(argval[..], offset);
        SetArgData(i, 0, 0);
        return 0;
      }
      var dlen := len - XDUMP_FORMAT;
      PutAfter(argval[..], offset, fmt, data[..dlen]);
      Write(offset, fmt);
      Write(offset + XDUMP_FORMAT, data[..dlen]);
      SetArgData(i, offset, len);
      used := len;
    }

    /** The data branches of set_arg. */
    method CopyArg(env: Env, i: nat, a: Arg, tailroom: nat, offset: nat) returns (used: nat)
      requires Valid() && i < NARGS && Readable(env, a) && IsData(a.t) && offset <= tailroom <= argval.Length
      modifies argval
      ensures used == |PieceOf(env, a, tailroom - offset).bytes|
      ensures argval[..] == Apply(old(argval[..]), i, Data(offset, PieceOf(env, a, tailroom - offset)))
    {
      hide Apply, CstrPiece, RawPiece, XdumpPiece;
      if a.t == RAW {
        used := CopyData(i, env.heap[a.val..a.val + a.len], tailroom, offset);
      } else if a.t == XDUMP {
        var xd := env.xdumps[a.val];
        used := CopyXdump(i, xd.fmt, env.heap[xd.ptr..xd.ptr + xd.len], tailroom, offset);
      } else {
        used := CopyCstr(i, env.heap[a.val..a.val + a.len], tailroom, offset);
      }
    }

    method SetArg(env: Env, i: nat, a: Arg, tailroom: nat, offset: nat) returns (o: nat)
      requires Valid() && i < NARGS && Readable(env, a) && tailroom <= argval.Length
      requires IsData(a.t) ==> offset <= tailroom
      modifies this`argtype, argval
      ensures argtype == if a.t == NONE then old(argtype) else SetArgType(old(argtype), i, a.t)
      ensures o == if IsData(a.t) then offset + |PieceOf(env, a, tailroom - offset).bytes| else offset
      ensures StoreOk(old(argval[..]), i, StoreOf(env, a, offset, tailroom))
      ensures argval[..] == Apply(old(argval[..]), i, StoreOf(env, a, offset, tailroom))
    {
      hide PieceOf, Source, SetArgType;
      o := offset;
      if a.t == NONE {
        return;
      }
      argtype := SetArgType(argtype, i, a.t);
      if IsData(a.t) {
        var used := CopyArg(env, i, a, tailroom, offset);
        o := offset + used;
      } else if Is32(a.t) {
        SetArgVal32(i, a.val);
      } else {
        SetArgVal64(i, a.val);
      }
    }

    /** set_args: the argument words first, the data behind as many words as there are arguments. */
    method SetArgs(env: Env, args: seq<Arg>, tailroom: nat)
      requires Valid() && ArgsOk(env, args) && tailroom <= argval.Length
      requires Roomy(args, 8 * Count(args, NARGS), tailroom)
      modifies this`argtype, argval
      ensures argtype == TypeWord(args, NARGS)
      ensures StoresOk(old(argval[..]), Stores(env, args, tailroom))
      ensures argval[..] == Applied(old(argval[..]), Stores(env, args, tailroom), NARGS)
    {
      hide PieceOf, Source, SetArgType, Apply, StoreOk, Readable, StoreOf, Put, Applied, Stores, Offset, Count;
      var n := CountArgs(args);
      ghost var ss := Stores(env, args, tailroom);
      StoresAreOk(argval[..], env, args, tailroom);
      var offset := n * WORD_BYTES;
      argtype := 0;
      var i := 0;
      AppliedStart(argval[..], ss);
      OffsetStart(env, args, 8 * n, tailroom);
      while i < NARGS
        invariant 0 <= i <= NARGS && offset == Offset(env, args, 8 * n, tailroom, i)
        invariant argtype == TypeWord(args, i)
        invariant argval[..] == Applied(old(argval[..]), ss, i)
      {
        StoresAt(env, args, tailroom, i);
        AppliedNext(old(argval[..]), ss, i);
        OffsetAfter(env, args, 8 * n, tailroom, i);
        offset := SetArg(env, i, args[i], tailroom, offset);
        i := i + 1;
      }
    }

    /** set_args(ap) */
    method SetArgsPacked(env: Env, ap: ArgPack, tailroom: nat)
      requires Valid() && ap.Valid() && tailroom <= argval.Length
      requires TypeCount(ap.argtype) <= NARGS
      requires UnpackedOk(env, Unpacked(ap.Model(), TypeCount(ap.argtype)), tailroom)
      modifies this`argtype, argval
      ensures argtype == ap.argtype
      ensures StoresOk(old(argval[..]), PackedStores(env, Unpacked(ap.Model(), TypeCount(ap.argtype)), tailroom))
      ensures argval[..] == Applied(old(argval[..]),
        PackedStores(env, Unpacked(ap.Model(), TypeCount(ap.argtype)), tailroom), TypeCount(ap.argtype))
    {
      hide PieceOf, Source, SetArgType, GetArgType, Apply, StoreOk, Readable, TypeCount, Put, Applied, Offset,
        PackedStores;
      var n := ap.NArgs();
      ghost var us := Unpacked(ap.Model(), n);
      ghost var ss := PackedStores(env, us, tailroom);
      PackedStoresOk(argval[..], env, us, tailroom);
      var offset := n * WORD_BYTES;
      argtype := ap.argtype;
      var i := 0;
      AppliedStart(argval[..], ss);
      OffsetStart(env, us, 8 * n, tailroom);
      while i < n
        invariant 0 <= i <= n && argtype == ap.argtype && offset == Offset(env, us, 8 * n, tailroom, i)
        invariant argval[..] == Applied(old(argval[..]), ss, i)
      {
        var a := Arg(GetArgType(ap.argtype, i), ap.argval[i], ap.arglen[i]);
        assert a == us[i];
        PackedStoresAt(env, us, tailroom, i);
        AppliedNext(old(argval[..]), ss, i);
        OffsetAfter(env, us, 8 * n, tailroom, i);
        if IsData(a.t) {
          var used := CopyArg(env, i, a, tailroom, offset);
          offset := offset + used;
        } else {
          SetArgVal64(i, ap.argval[i]);
        }
        i := i + 1;
      }
    }
  }
}
