/** The parser object: its input, its record and its name buffers, and next(). */
module RawReaders {
  import opened Bytes
  import opened Bits
  import opened ArgTypes
  import opened Arguments
  import opened Packing
  import opened RawFormat
  import opened RawStreams
  import opened RecordBuffers
  import opened ReadBuffers
  import opened RawParsers

  /** How much memory behind the record the next call needs. */
  function Footprint(bs: seq<byte>): (n: nat)
    ensures n >= ARG_AREA
  {
    var ts := TakeUint(bs, 8);
    if !ts.Parsed? then ARG_AREA else
    var seqnum := TakeUint(ts.rest, 8);
    if !seqnum.Parsed? then ARG_AREA else
    var ring := TakeName(seqnum.rest);
    if !ring.Parsed? then ARG_AREA else
    var area := TakeName(ring.rest);
    if !area.Parsed? then ARG_AREA else
    var section := TakeName(area.rest);
    if !section.Parsed? then ARG_AREA else
    var w := TakeUint(section.rest, 8);
    if !w.Parsed? then ARG_AREA else Extent(w.value, w.rest, 0, ARG_AREA)
  }

  /** Every record of the stream fits the record buffer. */
  predicate Fits(bs: seq<byte>, size: nat)
    decreases |bs|
  {
    GotShrinks(bs);
    Footprint(bs) <= size && (Decode(bs).Got? ==> Fits(Decode(bs).rest, size))
  }

  /** The C string in a name buffer. */
  function NameIn(a: array<byte>): seq<byte>
    reads a
  {
    UpToNul(a[..])
  }

  lemma PutOne(m: seq<byte>, at: nat, r: seq<byte>)
    requires at < |m| && r == m[at := 0]
    ensures r == Put(m, at, [0])
  {
  }

  /** A name that has been read with its terminator. */
  lemma NameStored(m: seq<byte>, s: seq<byte>, r: seq<byte>)
    requires |s| + 1 <= |m| && r == Put(m, 0, s + [0])
    ensures r[|s|] == 0 && UpToNul(r) == UpToNul(s)
  {
    hide UpToNul;
    assert r == s + [0] + m[|s| + 1..];
    UpToNulStops(s, m[|s| + 1..]);
  }

  class RawParser {
    const input: FileRdbuf
    const rec: RecordBuf
    const word: array<byte>
    const ringName: array<byte>
    const areaName: array<byte>
    const sectName: array<byte>
    var ts: nat
    var seqnum: nat
    var failed: bool

    ghost predicate Valid()
      reads this, input, rec
    {
      && input.Valid() && rec.Valid()
      && word.Length == 8 && ringName.Length == areaName.Length == sectName.Length == MAX_NAME_LEN
      && input.data != word && input.data != ringName && input.data != areaName && input.data != sectName
      && input.data != rec.argval
      && word != ringName && word != areaName && word != sectName && word != rec.argval
      && ringName != areaName && ringName != sectName && areaName != sectName
      && rec.argval != ringName && rec.argval != areaName && rec.argval != sectName
    }

    /** The record that next() has just filled in. */
    ghost function Current(): Message
      reads this, input, rec, ringName, areaName, sectName, rec.argval
      requires Valid() && Sound(rec.argtype, rec.argval[..], [], 0)
    {
      Message(ts, seqnum, NameIn(ringName), NameIn(areaName), NameIn(sectName),
              rec.argtype, Views(rec.argtype, rec.argval[..], [], 0))
    }

    constructor (input: FileRdbuf, maxRecordSize: nat)
      requires input.Valid() && ARG_AREA <= maxRecordSize < WORD
      ensures Valid() && this.input == input && rec.argval.Length == maxRecordSize && !failed
      ensures fresh(rec) && fresh(rec.argval) && fresh(word) && fresh(ringName) && fresh(areaName) && fresh(sectName)
    {
      this.input := input;
      rec := new RecordBuf(maxRecordSize);
      word := new byte[8](_ => 0);
      ringName := new byte[MAX_NAME_LEN](_ => 0);
      areaName := new byte[MAX_NAME_LEN](_ => 0);
      sectName := new byte[MAX_NAME_LEN](_ => 0);
      ts, seqnum, failed := 0, 0, false;
    }

    method ReadUint(k: nat) returns (v: nat)
      requires Valid() && 1 <= k <= 8
      modifies input, input.data, word, this`failed
      ensures Valid()
      ensures old(failed) ==> failed && v == 0 && input.Remaining() == old(input.Remaining())
      ensures !old(failed) ==> Took(TakeUint(old(input.Remaining()), k), failed, input.Remaining())
      ensures !old(failed) && !failed ==> v == TakeUint(old(input.Remaining()), k).value
    {
      hide FromLE;
      if failed {
        return 0;
      }
      forall j | 0 <= j < 8 {
        word[j] := 0;
      }
      ghost var all := input.Remaining();
      var ok := input.Read(word, 0, k);
      failed := !ok;
      v := FromLE(word[..k]);
      if ok { assert word[..k] == all[..k]; }
    }

    method ReadBlob(dst: array<byte>, at: nat, k: nat) returns (len: nat)
      requires Valid() && 1 <= k <= 8 && dst != input.data && dst != word
      requires !failed ==> at + BlobRoom(input.Remaining(), k) <= dst.Length
      modifies input, input.data, word, this`failed, dst
      ensures Valid()
      ensures old(failed) ==>
        failed && len == 0 && dst[..] == old(dst[..]) && input.Remaining() == old(input.Remaining())
      ensures !old(failed) ==> Took(TakeBlob(old(input.Remaining()), k), failed, input.Remaining())
      ensures !old(failed) && !failed ==>
        var s := TakeBlob(old(input.Remaining()), k).value;
        len == |s| && at + len <= dst.Length && dst[..] == Put(old(dst[..]), at, s)
    {
      hide FromLE, Put, FileRdbuf.Remaining;
      if failed {
        return 0;
      }
      if at <= dst.Length { PutNone(dst[..], at, []); }
      len := ReadUint(k);
      if failed || len == 0 {
        return 0;
      }
      var ok := input.Read(dst, at, len);
      failed := !ok;
      if failed {
        return 0;
      }
    }

    /** A string is stored with a terminator, which its length includes. */
    method ReadStr(dst: array<byte>, at: nat, k: nat) returns (len: nat)
      requires Valid() && 1 <= k <= 8 && dst != input.data && dst != word
      requires !failed ==> at + BlobRoom(input.Remaining(), k) <= dst.Length
      requires !failed && TakeBlob(input.Remaining(), k).Parsed? ==>
        at + |TakeBlob(input.Remaining(), k).value| < dst.Length
      modifies input, input.data, word, this`failed, dst
      ensures Valid()
      ensures old(failed) ==>
        failed && len == 0 && dst[..] == old(dst[..]) && input.Remaining() == old(input.Remaining())
      ensures !old(failed) ==> Took(TakeBlob(old(input.Remaining()), k), failed, input.Remaining())
      ensures !old(failed) && !failed ==>
        var s := TakeBlob(old(input.Remaining()), k).value;
        len == |s| + 1 && at + len <= dst.Length && dst[..] == Put(old(dst[..]), at, s + [0])
    {
      hide TakeBlob, BlobRoom, Put, FileRdbuf.Remaining;
      if failed {
        return 0;
      }
      len := ReadBlob(dst, at, k);
      if failed {
        return 0;
      }
      PutMore(old(dst[..]), at, TakeBlob(old(input.Remaining()), k).value, [0]);
      ghost var before := dst[..];
      dst[at + len] := 0;
      PutOne(before, at + len, dst[..]);
      len := len + 1;
    }

    method ReadName(dst: array<byte>)
      requires Valid() && dst != input.data && dst != word && dst.Length == MAX_NAME_LEN
      modifies input, input.data, word, this`failed, dst
      ensures Valid()
      ensures old(failed) ==> failed && input.Remaining() == old(input.Remaining())
      ensures !old(failed) ==> Took(TakeName(old(input.Remaining())), failed, input.Remaining())
      ensures !old(failed) && !failed ==> NameIn(dst) == TakeName(old(input.Remaining())).value
    {
      hide TakeBlob, BlobRoom, UpToNul, ValidName, Put, FileRdbuf.Remaining;
      ShortBlob(input.Remaining());
      var len := ReadStr(dst, 0, 1);
      if failed {
        return;
      }
      NameStored(old(dst[..]), TakeBlob(old(input.Remaining()), 1).value, dst[..]);
      var ok := CheckName(dst);
      if !ok {
        failed := true;
      }
    }

    lemma ShortBlob(bs: seq<byte>)
      ensures BlobRoom(bs, 1) < MAX_NAME_LEN
      ensures TakeBlob(bs, 1).Parsed? ==> |TakeBlob(bs, 1).value| < MAX_NAME_LEN
    {
      hide FromLE, Pow256;
      Widths();
      if |bs| >= 1 { FromLEBounded(bs[..1]); }
      BlobRoomIs(bs, 1);
    }

    /** One argument of type t into place i, its data at `offset`. */
    method ReadArg(i: nat, t: nat, offset: nat) returns (o: nat)
      requires Valid() && i < NARGS && t == GetArgType(rec.argtype, i) != NONE && !failed
      requires ARG_AREA <= offset <= rec.argval.Length
      requires t == CSTR || t == GSTR ==> offset + BlobRoom(input.Remaining(), 2) <= rec.argval.Length
      requires t == XDUMP || t == RAW ==> offset + BlobRoom(input.Remaining(), 4) <= rec.argval.Length
      requires TakeView(t, input.Remaining()).Parsed? ==>
        offset + StoreSize(TakeView(t, input.Remaining()).value) <= rec.argval.Length
      modifies input, input.data, word, this`failed, rec`argtype, rec.argval
      ensures Valid()
      ensures Took(TakeView(t, old(input.Remaining())), failed, input.Remaining())
      ensures !failed ==>
        var v := TakeView(t, old(input.Remaining())).value;
        && o == offset + StoreSize(v)
        && StoreOk(old(rec.argval[..]), i, ParseStore(v, offset))
        && rec.argval[..] == Apply(old(rec.argval[..]), i, ParseStore(v, offset))
        && rec.argtype == if t == GSTR then SetArgType(ClearArgType(old(rec.argtype), i), i, CSTR) else old(rec.argtype)
    {
      hide LE, FromLE, Put, TakeBlob, TakeUint, BlobRoom, GetArgType, SetArgType, ClearArgType, FileRdbuf.Remaining;
      o := offset;
      BlobRoomIs(input.Remaining(), 2);
      if t == CSTR || t == GSTR {
        if t == GSTR {
          rec.argtype := SetArgType(ClearArgType(rec.argtype, i), i, CSTR);
        }
        var n := ReadStr(rec.argval, offset, 2);
        if !failed {
          rec.SetArgData(i, offset, n - 1);
          o := offset + n;
        }
      } else if t == XDUMP || t == RAW {
        var n := ReadBlob(rec.argval, offset, 4);
        if !failed {
          rec.SetArgData(i, offset, n);
          o := offset + n;
        }
      } else if t == INT32 || t == UINT32 {
        var v := ReadUint(4);
        if !failed {
          rec.SetArgVal32(i, v);
        }
      } else {
        var v := ReadUint(8);
        if !failed {
          rec.SetArgVal64(i, v);
        }
      }
    }

    /** The type word and the arguments it announces, up to the first missing one. */
    method ReadArgs()
      requires Valid()
      requires !failed && TakeUint(input.Remaining(), 8).Parsed? ==>
        Extent(TakeUint(input.Remaining(), 8).value, TakeUint(input.Remaining(), 8).rest, 0, ARG_AREA)
        <= rec.argval.Length
      modifies input, input.data, word, this`failed, rec`argtype, rec.argval
      ensures Valid()
      ensures old(failed) ==> failed && input.Remaining() == old(input.Remaining())
      ensures !old(failed) ==> Took(TakeArgs(old(input.Remaining())), failed, input.Remaining())
      ensures !old(failed) && !failed ==>
        && Sound(rec.argtype, rec.argval[..], [], 0)
        && TakeArgs(old(input.Remaining())).value == (rec.argtype, Views(rec.argtype, rec.argval[..], [], 0))
    {
      hide TakeUint, TakeViews, Extent, InRecord, FileRdbuf.Remaining, GetArgType, Remap, Sound, Views, TakeView,
        ParseOffset, ParseStore, StoreSize, StoreOk, Apply, SetArgType, ClearArgType, BlobRoom;
      if failed {
        return;
      }
      var w := ReadUint(8);
      rec.argtype := w;
      if failed {
        return;
      }
      ghost var b0, m0 := input.Remaining(), rec.argval[..];
      ghost var vs: seq<View> := [];
      InRecordStart(w, b0, m0);
      ParseStart();
      var offset := ARG_AREA;
      var i := 0;
      while i < NARGS
        invariant 0 <= i == |vs| <= NARGS && Valid() && !failed && offset == ParseOffset(vs)
        invariant InRecord(w, b0, m0, vs, rec.argtype, rec.argval[..], input.Remaining())
      {
        ReadyForArg(w, b0, m0, vs, rec.argtype, rec.argval[..], input.Remaining());
        var t := GetArgType(rec.argtype, i);
        if t == NONE {
          InRecordEnd(w, b0, m0, vs, rec.argtype, rec.argval[..], input.Remaining(), []);
          return;
        }
        ghost var remaining, argtype, m := input.Remaining(), rec.argtype, rec.argval[..];
        TakenNext(w, remaining, i, vs);
        NotTaken(w, b0, m0, vs, argtype, m, remaining);
        offset := ReadArg(i, t, offset);
        if failed {
          return;
        }
        InRecordNext(w, b0, m0, vs, argtype, m, remaining);
        RemapNext(w, i);
        vs := vs + [TakeView(t, remaining).value];
        i := i + 1;
      }
      InRecordEnd(w, b0, m0, vs, rec.argtype, rec.argval[..], input.Remaining(), []);
    }

    /**
      * Read the next record.  Running out of input inside the timestamp is taken for the end of the
      * stream; a parser that has failed only forgets its failure.
      */
    method Next() returns (ok: bool)
      requires Valid() && (!failed ==> Footprint(input.Remaining()) <= rec.argval.Length)
      modifies this, input, input.data, word, ringName, areaName, sectName, rec`argtype, rec.argval
      ensures Valid()
      ensures old(failed) ==> !ok && !failed && input.Remaining() == old(input.Remaining())
      ensures !old(failed) ==>
        ok == Decode(old(input.Remaining())).Got? && failed == Decode(old(input.Remaining())).Failure?
      ensures ok ==>
        && input.Remaining() == Decode(old(input.Remaining())).rest
        && Sound(rec.argtype, rec.argval[..], [], 0)
        && Current() == Decode(old(input.Remaining())).msg
    {
      hide TakeUint, TakeName, TakeArgs, Extent, FileRdbuf.Remaining, NameIn, Sound, Views;
      rec.argtype := 0;
      ts := ReadUint(8);
      if failed {
        failed := false;
        return false;
      }
      var s := ReadUint(8);
      seqnum := s % SEQNUM_RANGE;
      ReadName(ringName);
      ReadName(areaName);
      ReadName(sectName);
      ReadArgs();
      ok := !failed;
    }

    /** Read until next() returns nothing, as the recovery tools do. */
    method ReadAll() returns (msgs: seq<Message>)
      requires Valid() && !failed && Fits(input.Remaining(), rec.argval.Length)
      modifies this, input, input.data, word, ringName, areaName, sectName, rec`argtype, rec.argval
      ensures Valid() && DecodeAll(old(input.Remaining())) == Stream(msgs, failed)
    {
      hide FileRdbuf.Remaining, Decode, Sound, Views, Footprint, NameIn;
      ghost var all := DecodeAll(input.Remaining());
      msgs := [];
      var more := true;
      while more
        invariant Valid() && (more ==> !failed && Fits(input.Remaining(), rec.argval.Length))
        invariant more ==>
          all.msgs == msgs + DecodeAll(input.Remaining()).msgs && all.failed == DecodeAll(input.Remaining()).failed
        invariant !more ==> all == Stream(msgs, failed)
        decreases if more then |input.Remaining()| + 1 else 0
      {
        ghost var bs := input.Remaining();
        GotShrinks(bs);
        more := Next();
        if more {
          msgs := msgs + [Message(ts, seqnum, NameIn(ringName), NameIn(areaName), NameIn(sectName),
                                  rec.argtype, Views(rec.argtype, rec.argval[..], [], 0))];
          assert DecodeAll(bs).msgs == [Decode(bs).msg] + DecodeAll(Decode(bs).rest).msgs;
        }
      }
    }
  }

  lemma ParseStart()
    ensures ParseOffset([]) == ARG_AREA
  {
  }

  lemma RemapNext(w: nat, k: nat)
    ensures Remap(w, k + 1) == if GetArgType(Remap(w, k), k) == GSTR
                               then SetArgType(ClearArgType(Remap(w, k), k), k, CSTR) else Remap(w, k)
  {
  }

  /** Before an argument is read: its type is untouched, and there is room for it. */
  lemma ReadyForArg(w: nat, bs: seq<byte>, m0: seq<byte>, vs: seq<View>, argtype: nat, m: seq<byte>,
                    remaining: seq<byte>)
    requires InRecord(w, bs, m0, vs, argtype, m, remaining) && |vs| < NARGS
    ensures |m| == |m0| && argtype == Remap(w, |vs|) && GetArgType(argtype, |vs|) == GetArgType(w, |vs|)
    ensures ParseOffset(vs) <= |m|
    ensures GetArgType(w, |vs|) != NONE ==>
      var t, o := GetArgType(w, |vs|), ParseOffset(vs);
      && (t == CSTR || t == GSTR ==> o + BlobRoom(remaining, 2) <= |m|)
      && (t == XDUMP || t == RAW ==> o + BlobRoom(remaining, 4) <= |m|)
      && (TakeView(t, remaining).Parsed? ==> o + StoreSize(TakeView(t, remaining).value) <= |m|)
  {
    hide GetArgType, Remap, TakeViews, TakeBlob, BlobRoom, ParseOffset, Apply, TypeOf, ViewOk;
    RemapTypes(w, |vs|, |vs|);
    AppliedSize(m0, vs);
    BlobRoomIs(remaining, 2);
    BlobRoomIs(remaining, 4);
  }

  /** If the next argument cannot be taken, neither can the list. */
  lemma NotTaken(w: nat, bs: seq<byte>, m0: seq<byte>, vs: seq<View>, argtype: nat, m: seq<byte>, remaining: seq<byte>)
    requires InRecord(w, bs, m0, vs, argtype, m, remaining) && |vs| < NARGS && GetArgType(w, |vs|) != NONE
    ensures TakeView(GetArgType(w, |vs|), remaining).Short? ==> TakeViews(w, bs, 0) == Short
  {
    hide GetArgType, Remap, TakeViews, TakeView, ParseOffset, Applied, TypeOf, ViewOk, Extent;
    TakenNext(w, remaining, |vs|, vs);
  }
}
