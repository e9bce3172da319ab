/** From posted arguments to parsed records: packing, printing, buffering, chunked reading and parsing. */
module EndToEnd {
  import opened Wrappers
  import opened Bytes
  import opened Bits
  import opened ArgTypes
  import opened Arguments
  import opened Packing
  import opened Overlaps
  import opened RecordBuffers
  import opened RawFormat
  import opened RawStreams
  import opened RawPackers
  import opened ReadBuffers
  import opened RawReaders
  import opened Fitting

  /** A record as it is posted. */
  datatype Posted = Posted(h: Header, env: Env, args: seq<Arg>)

  /** How many arguments come before the first missing one. */
  function Lead(args: seq<Arg>): (n: nat)
    ensures n <= |args| && (forall i :: 0 <= i < n ==> args[i].t != NONE) && (n < |args| ==> args[n].t == NONE)
  {
    if args == [] || args[0].t == NONE then 0 else 1 + Lead(args[1..])
  }

  /**
    * Readable memory, names that a parser accepts, and no argument in front of the first missing one that
    * another argument overwrites.  A list without gaps has none (GapFreeSafe).
    */
  ghost predicate PostedOk(p: Posted, tailroom: nat)
  {
    && CanPack(p.env, p.args, tailroom) && (forall i :: 0 <= i < Lead(p.args) ==> Safe(p.env, p.args, tailroom, i))
    && (forall i :: 0 <= i < NARGS && p.args[i].t == GSTR ==> Terminated(p.env.heap, p.args[i].val))
    && p.h.ts < 0x1_0000_0000_0000_0000 && p.h.seqnum < 0x1_0000_0000_0000_0000
    && ValidName(p.h.ring) && ValidName(AreaName(p.h)) && ValidName(SectionName(p.h))
  }

  /** What argument a says when `room` bytes are left for its data. */
  function ArgView(env: Env, a: Arg, room: nat): View
    requires Readable(env, a) && (a.t == GSTR ==> Terminated(env.heap, a.val))
  {
    if a.t == CSTR then Text(PieceOf(env, a, room).text)
    else if a.t == XDUMP || a.t == RAW then Blob(a.t, PieceOf(env, a, room).text)
    else if a.t == GSTR then Static(CString(env.heap, a.val))
    else if Is32(a.t) then Num32(a.t, a.val % WORD)
    else Num64(a.t, a.val)
  }

  /**
    * The record that a posted one amounts to: its arguments up to the first missing one, their data cut to
    * the tailroom, nothing else changed.
    */
  ghost function Intended(p: Posted, tailroom: nat): Message
    requires PostedOk(p, tailroom)
  {
    Message(p.h.ts, p.h.seqnum, p.h.ring, AreaName(p.h), SectionName(p.h), TypeWord(p.args, NARGS),
            seq(Lead(p.args), i requires 0 <= i < Lead(p.args) => IntendedArg(p, tailroom, i)))
  }

  function IntendedArg(p: Posted, tailroom: nat, i: nat): View
    requires CanPack(p.env, p.args, tailroom) && i < NARGS
    requires p.args[i].t == GSTR ==> Terminated(p.env.heap, p.args[i].val)
  {
    ArgView(p.env, p.args[i], if IsData(p.args[i].t) then RoomOf(p.env, p.args, tailroom, i) else 0)
  }

  lemma IntendedView(p: Posted, tailroom: nat, m0: seq<byte>, i: nat)
    requires PostedOk(p, tailroom) && ARG_AREA <= tailroom <= |m0| < WORD && i < Lead(p.args)
    ensures StoresOk(m0, Stores(p.env, p.args, tailroom))
    ensures var m := Applied(m0, Stores(p.env, p.args, tailroom), NARGS);
            && GetArgType(TypeWord(p.args, NARGS), i) == p.args[i].t != NONE
            && ArgSound(TypeWord(p.args, NARGS), m, p.env.heap, i)
            && ViewAt(TypeWord(p.args, NARGS), m, p.env.heap, i) == Intended(p, tailroom).views[i]
  {
    hide Applied, Stores, PieceOf, Count, Offset, TypeWord, GetArgType, Source, Terminated, CString, Val32, Val64,
      ArgData, HasData, StoresOk, ValidName, Safe, RoomOf, Roomy;
    TypesStored(p.args, NARGS, i);
    ArgumentsStored(m0, p.env, p.args, tailroom, i);
  }

  /** The memory after set_args says what was meant. */
  lemma IntendedSays(p: Posted, tailroom: nat, m0: seq<byte>)
    requires PostedOk(p, tailroom) && ARG_AREA <= tailroom <= |m0| < WORD
    ensures StoresOk(m0, Stores(p.env, p.args, tailroom))
    ensures var m, w := Applied(m0, Stores(p.env, p.args, tailroom), NARGS), TypeWord(p.args, NARGS);
            && Sound(w, m, p.env.heap, 0)
            && MessageOf(p.h, w, m, p.env.heap) == Intended(p, tailroom)
  {
    hide Applied, Stores, TypeWord, GetArgType, ArgSound, ViewAt, Intended, StoresOk;
    StoresAreOk(m0, p.env, p.args, tailroom);
    var m := Applied(m0, Stores(p.env, p.args, tailroom), NARGS);
    var w, vs := TypeWord(p.args, NARGS), Intended(p, tailroom).views;
    IntendedShape(p, tailroom);
    forall j | 0 <= j < |vs|
      ensures GetArgType(w, j) != NONE && ArgSound(w, m, p.env.heap, j) && ViewAt(w, m, p.env.heap, j) == vs[j]
    {
      IntendedView(p, tailroom, m0, j);
    }
    RawParsers.ParsedViews(w, m, p.env.heap, vs, 0);
    assert vs[0..] == vs;
  }

  lemma IntendedShape(p: Posted, tailroom: nat)
    requires PostedOk(p, tailroom) && tailroom >= ARG_AREA
    ensures var r := Intended(p, tailroom);
            && r == Message(p.h.ts, p.h.seqnum, p.h.ring, AreaName(p.h), SectionName(p.h), TypeWord(p.args, NARGS),
                            r.views)
            && |r.views| == Lead(p.args) <= NARGS
            && (|r.views| < NARGS ==> GetArgType(r.argtype, |r.views|) == NONE)
  {
    hide ArgView, IntendedArg, Safe, RoomOf, Roomy, TypeWord, GetArgType;
    TypesStored(p.args, NARGS, Lead(p.args));
  }

  lemma IntendedViewOk(p: Posted, tailroom: nat, i: nat)
    requires PostedOk(p, tailroom) && ARG_AREA <= tailroom < WORD && i < Lead(p.args)
    ensures var r := Intended(p, tailroom);
            GetArgType(r.argtype, i) == TypeOf(r.views[i]) != NONE && ViewOk(r.views[i])
  {
    hide PieceOf, Count, Offset, TypeWord, GetArgType, Source, Terminated, CString, ValidName;
    TypesStored(p.args, NARGS, i);
  }

  lemma {:induction false} IntendedAnnounced(p: Posted, tailroom: nat, i: nat)
    requires PostedOk(p, tailroom) && ARG_AREA <= tailroom < WORD && i <= |Intended(p, tailroom).views|
    ensures Announced(Intended(p, tailroom).argtype, Intended(p, tailroom).views[i..], i)
    decreases |Intended(p, tailroom).views| - i
  {
    hide Intended, GetArgType, ViewOk, TypeOf, ValidName;
    IntendedShape(p, tailroom);
    var vs := Intended(p, tailroom).views;
    if i < |vs| {
      IntendedViewOk(p, tailroom, i);
      IntendedAnnounced(p, tailroom, i + 1);
      assert vs[i..][1..] == vs[i + 1..];
    }
  }

  lemma IntendedPrinted(p: Posted, tailroom: nat)
    requires PostedOk(p, tailroom) && ARG_AREA <= tailroom < WORD
    ensures Printed(Intended(p, tailroom))
  {
    hide Intended, Announced, TypeWord, ValidName, Pow2;
    IntendedShape(p, tailroom);
    IntendedAnnounced(p, tailroom, 0);
    assert Intended(p, tailroom).views[0..] == Intended(p, tailroom).views;
    TypeWordBounded(p.args, NARGS);
    DoubleWord();
    ValidIsZeroFree(p.h.ring);
    ValidIsZeroFree(AreaName(p.h));
    ValidIsZeroFree(SectionName(p.h));
  }

  // ---------------------------------------------------------------- in terms of what was posted

  /** d is the C string at address p. */
  predicate CStringAt(heap: seq<byte>, p: nat, d: seq<byte>)
  {
    p + |d| < |heap| && d == heap[p..p + |d|] && heap[p + |d|] == 0 && ZeroFree(d)
  }

  lemma {:induction false} CStringIs(heap: seq<byte>, p: nat)
    requires Terminated(heap, p)
    ensures CStringAt(heap, p, CString(heap, p))
    decreases |heap| - p
  {
    if heap[p] != 0 {
      CStringIs(heap, p + 1);
      var d := CString(heap, p + 1);
      assert heap[p..p + 1 + |d|] == [heap[p]] + heap[p + 1..p + 1 + |d|];
    }
  }

  /** The parsed argument v says what argument a said, its data cut to this much room and to its length field. */
  ghost predicate ArgSays(v: View, env: Env, a: Arg, room: nat)
    requires Readable(env, a)
  {
    if a.t == UINT32 || a.t == INT32 then v == Num32(a.t, a.val % 0x1_0000_0000)
    else if a.t == CSTR then exists d :: AsPassed(env, a, room, d) && v == Text(d[..Min(|d|, 0xffff)])
    else if a.t == XDUMP || a.t == RAW then exists d :: AsPassed(env, a, room, d) && v == Blob(a.t, d)
    else if a.t == GSTR then exists d :: CStringAt(env.heap, a.val, d) && v == Text(d[..Min(|d|, 0xffff)])
    else v == Num64(a.t, a.val)
  }

  /** The parsed record m says what record p said when it was posted. */
  ghost predicate Says(m: Message, p: Posted, tailroom: nat)
  {
    && CanPack(p.env, p.args, tailroom)
    && m.ts == p.h.ts && m.seqnum == p.h.seqnum % 0x10_0000_0000_0000 && m.ring == p.h.ring
    && (match p.h.area
        case None => m.area == m.section == [73, 78, 86, 65, 76, 73, 68]
        case Some(a) =>
          && m.area == a.name
          && (p.h.section < |a.sections| ==> m.section == a.sections[p.h.section])
          && (p.h.section >= |a.sections| ==> m.section == [73, 78, 86, 65, 76, 73, 68]))
    && |m.views| == Lead(p.args)
    && (forall i :: 0 <= i < Lead(p.args) ==>
          && GetArgType(m.argtype, i) == (if p.args[i].t == GSTR then CSTR else p.args[i].t)
          && ArgSays(m.views[i], p.env, p.args[i],
                     if IsData(p.args[i].t) then RoomOf(p.env, p.args, tailroom, i) else 0))
  }

  lemma ViewSays(env: Env, a: Arg, room: nat)
    requires Readable(env, a) && (a.t == GSTR ==> Terminated(env.heap, a.val)) && room < WORD
    ensures ArgSays(NormalView(ArgView(env, a, room)), env, a, room)
  {
    hide PieceOf, AsPassed, Terminated, CString, CStringAt, Source;
    if IsData(a.t) {
      PieceAsPassed(env, a, room);
      var d := PieceOf(env, a, room).text;
      if a.t != CSTR { assert d[..Min(|d|, 0xffff_ffff)] == d; }
    } else if a.t == GSTR {
      CStringIs(env.heap, a.val);
    }
  }

  /** What is read back is what was posted. */
  lemma ReadBackSays(p: Posted, tailroom: nat)
    requires PostedOk(p, tailroom) && ARG_AREA <= tailroom < WORD
    ensures Says(Normal(Intended(p, tailroom)), p, tailroom)
  {
    hide ArgView, ArgSays, NormalView, TypeWord, GetArgType, Remap, ValidName, Safe, Terminated, RoomOf, Count,
      Readable;
    assert forall i :: 0 <= i < NARGS ==> p.args[i].t < 16 by { TypesSmall(p.env, p.args); }
    IntendedShape(p, tailroom);
    var m := Normal(Intended(p, tailroom));
    forall i | 0 <= i < Lead(p.args)
      ensures GetArgType(m.argtype, i) == if p.args[i].t == GSTR then CSTR else p.args[i].t
      ensures ArgSays(m.views[i], p.env, p.args[i],
                      if IsData(p.args[i].t) then RoomOf(p.env, p.args, tailroom, i) else 0)
    {
      TypesStored(p.args, NARGS, i);
      RemapTypes(TypeWord(p.args, NARGS), |m.views|, i);
      if IsData(p.args[i].t) { RoomBounded(p.env, p.args, tailroom, i); }
      ViewSays(p.env, p.args[i], if IsData(p.args[i].t) then RoomOf(p.env, p.args, tailroom, i) else 0);
    }
  }

  lemma TypesSmall(env: Env, args: seq<Arg>)
    requires ArgsOk(env, args)
    ensures forall i :: 0 <= i < NARGS ==> args[i].t < 16
  {
  }

  lemma RoomBounded(env: Env, args: seq<Arg>, tailroom: nat, i: nat)
    requires CanPack(env, args, tailroom) && i < NARGS && IsData(args[i].t)
    ensures RoomOf(env, args, tailroom, i) <= tailroom
  {
    hide Count, PieceOf, Readable;
  }

  lemma ValidIsZeroFree(s: seq<byte>)
    requires ValidName(s)
    ensures ZeroFree(s)
  {
  }

  lemma DoubleWord()
    ensures Pow2(64) == 0x1_0000_0000_0000_0000
  {
    Pow2Word();
    assert Pow2(40) == 0x100_0000_0000;
    assert Pow2(48) == 0x1_0000_0000_0000;
    assert Pow2(56) == 0x100_0000_0000_0000;
  }

  ghost function AllIntended(ps: seq<Posted>, tailroom: nat): (ms: seq<Message>)
    requires tailroom >= ARG_AREA && forall i :: 0 <= i < |ps| ==> PostedOk(ps[i], tailroom)
    ensures |ms| == |ps|
  {
    seq(|ps|, i requires 0 <= i < |ps| => Intended(ps[i], tailroom))
  }

  lemma {:induction false} EncodeAllAppend(ms: seq<Message>, m: Message)
    ensures EncodeAll(ms + [m]) == EncodeAll(ms) + Encode(m)
  {
    hide Encode;
    if ms == [] {
      assert ([] + [m])[1..] == [];
      assert EncodeAll([m]) == Encode(m) + EncodeAll([]);
    } else {
      EncodeAllAppend(ms[1..], m);
      assert (ms + [m])[1..] == ms[1..] + [m];
      assert Encode(ms[0]) + (EncodeAll(ms[1..]) + Encode(m)) == (Encode(ms[0]) + EncodeAll(ms[1..])) + Encode(m);
    }
  }

  /** Fill a record slot with the posted arguments and print it. */
  method PostAndPrint(p: Posted, r: RecordBuf, packer: RawPacker, tailroom: nat)
    requires PostedOk(p, tailroom) && ARG_AREA <= tailroom <= r.argval.Length && r.Valid() && packer.sb.Valid()
    requires r.argval != packer.sb.data
    modifies r`argtype, r.argval, packer.sb, packer.sb.data
    ensures packer.sb.Valid()
    ensures packer.sb.Stream() == old(packer.sb.Stream()) + Encode(Intended(p, tailroom))
  {
    hide Applied, Stores, TypeWord, Intended, Encode, MessageOf, Sound, OstrBuf.Stream, StoresOk;
    IntendedSays(p, tailroom, r.argval[..]);
    r.SetArgs(p.env, p.args, tailroom);
    packer.Pack(p.h, r, p.env.heap);
  }

  /** Print any number of records through an output buffer of any capacity. */
  method PrintAll(ps: seq<Posted>, tailroom: nat, capacity: nat) returns (file: seq<byte>)
    requires ARG_AREA <= tailroom < WORD && forall i :: 0 <= i < |ps| ==> PostedOk(ps[i], tailroom)
    ensures file == EncodeAll(AllIntended(ps, tailroom))
  {
    hide Intended, Encode, PostedOk, OstrBuf.Stream;
    var sb := new OstrBuf(capacity);
    var packer := new RawPacker(sb);
    var r := new RecordBuf(tailroom);
    ghost var ms := AllIntended(ps, tailroom);
    for i := 0 to |ps|
      invariant sb.Valid() && sb.Stream() == EncodeAll(ms[..i])
      modifies r, r.argval, sb, sb.data
    {
      PostAndPrint(ps[i], r, packer, tailroom);
      EncodeAllAppend(ms[..i], ms[i]);
      assert ms[..i] + [ms[i]] == ms[..i + 1];
    }
    assert ms[..|ps|] == ms;
    sb.Flush();
    file := sb.sink;
  }

  /** The parser's record buffer is large enough if each record's data fits behind the argument words. */
  lemma FileFits(ps: seq<Posted>, tailroom: nat, cut: nat, maxRecordSize: nat)
    requires ARG_AREA <= tailroom < WORD && ARG_AREA <= maxRecordSize
    requires forall i :: 0 <= i < |ps| ==>
      PostedOk(ps[i], tailroom) && ARG_AREA + DataSize(Intended(ps[i], tailroom).views) <= maxRecordSize
    requires cut <= |EncodeAll(AllIntended(ps, tailroom))|
    ensures Fits(EncodeAll(AllIntended(ps, tailroom))[..cut], maxRecordSize)
  {
    hide EncodeAll, Intended, Fits, Printed, PostedOk, DataSize;
    var ms := AllIntended(ps, tailroom);
    forall i | 0 <= i < |ms| ensures Printed(ms[i]) && ARG_AREA + DataSize(ms[i].views) <= maxRecordSize {
      IntendedPrinted(ps[i], tailroom);
    }
    FitsWhen(ms, EncodeAll(ms)[..cut], maxRecordSize);
  }

  /**
    * End to end.  Post records with any arguments, print them through an output buffer of any
    * capacity, keep any first part of the file, and parse it back through a read buffer of any
    * capacity filled in any pieces: out come, in order, exactly the records wholly contained in that
    * part, in normal form, and the parser ends in failure only if it was cut inside a record, eight
    * bytes or more into it.
    */
  method WriteThenRead(ps: seq<Posted>, tailroom: nat, outCapacity: nat, cut: nat, inCapacity: nat, maxRecordSize: nat)
    returns (msgs: seq<Message>, failed: bool)
    requires ARG_AREA <= tailroom < WORD && forall i :: 0 <= i < |ps| ==> PostedOk(ps[i], tailroom)
    requires inCapacity >= 1 && ARG_AREA <= maxRecordSize < WORD
    requires cut <= |EncodeAll(AllIntended(ps, tailroom))|
    requires Fits(EncodeAll(AllIntended(ps, tailroom))[..cut], maxRecordSize)
    ensures var ms := AllIntended(ps, tailroom);
            var k := Whole(ms, cut);
            && |EncodeAll(ms[..k])| <= cut
            && msgs == NormalAll(ms[..k]) && failed == (cut - |EncodeAll(ms[..k])| >= 8)
    ensures |msgs| <= |ps| && forall i :: 0 <= i < |msgs| ==> Says(msgs[i], ps[i], tailroom)
    ensures cut == |EncodeAll(AllIntended(ps, tailroom))| ==> msgs == NormalAll(AllIntended(ps, tailroom)) && !failed
  {
    hide EncodeAll, Intended, Fits, DecodeAll, Printed, PostedOk, FileRdbuf.Remaining, NormalAll, Whole;
    var file := PrintAll(ps, tailroom, outCapacity);
    ghost var ms := AllIntended(ps, tailroom);
    forall i | 0 <= i < |ms| ensures Printed(ms[i]) {
      IntendedPrinted(ps[i], tailroom);
    }
    var input := new FileRdbuf(file[..cut], inCapacity);
    var parser := new RawParser(input, maxRecordSize);
    msgs := parser.ReadAll();
    failed := parser.failed;
    ReadTruncated(ms, file[..cut]);
    forall i | 0 <= i < |msgs| ensures Says(msgs[i], ps[i], tailroom) {
      ReadBackSays(ps[i], tailroom);
      assert msgs[i] == Normal(ms[i]);
    }
    if cut == |file| {
      assert file[..cut] == file;
      ReadBack(ms);
    }
  }
}
