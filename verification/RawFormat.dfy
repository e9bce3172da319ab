/** The raw record format: what the packer prints, what the parser accepts, and that they are inverse. */
module RawFormat {
  import opened Bytes
  import opened Bits
  import opened ArgTypes
  import opened Arguments

  // ---------------------------------------------------------------- what a record says

  /** An argument as a formatter sees it; a static string is one that the record only points to. */
  datatype View =
    | Num32(t: nat, v: nat)
    | Num64(t: nat, v: nat)
    | Text(text: seq<byte>)
    | Static(text: seq<byte>)
    | Blob(t: nat, data: seq<byte>)

  datatype Message = Message(ts: nat, seqnum: nat, ring: seq<byte>, area: seq<byte>, section: seq<byte>,
                             argtype: nat, views: seq<View>)

  /** A zero-terminated string starts at address p. */
  predicate Terminated(heap: seq<byte>, p: nat)
    decreases |heap| - p
  {
    p < |heap| && (heap[p] == 0 || Terminated(heap, p + 1))
  }

  function CString(heap: seq<byte>, p: nat): seq<byte>
    requires Terminated(heap, p)
    decreases |heap| - p
  {
    if heap[p] == 0 then [] else [heap[p]] + CString(heap, p + 1)
  }

  predicate ArgSound(w: nat, m: seq<byte>, heap: seq<byte>, i: nat)
    requires ARG_AREA <= |m| && i < NARGS
  {
    && (IsData(GetArgType(w, i)) ==> HasData(m, i))
    && (GetArgType(w, i) == GSTR ==> Terminated(heap, Val64(m, i)))
  }

  function ViewAt(w: nat, m: seq<byte>, heap: seq<byte>, i: nat): View
    requires ARG_AREA <= |m| && i < NARGS && ArgSound(w, m, heap, i)
  {
    var t := GetArgType(w, i);
    if t == XDUMP || t == RAW then Blob(t, ArgData(m, i))
    else if t == CSTR then Text(ArgData(m, i))
    else if t == GSTR then Static(CString(heap, Val64(m, i)))
    else if Is32(t) then Num32(t, Val32(m, i))
    else Num64(t, Val64(m, i))
  }

  /** Every argument from i up to the first missing one can be followed. */
  predicate Sound(w: nat, m: seq<byte>, heap: seq<byte>, i: nat)
    requires ARG_AREA <= |m|
    decreases NARGS - i
  {
    i >= NARGS || GetArgType(w, i) == NONE || (ArgSound(w, m, heap, i) && Sound(w, m, heap, i + 1))
  }

  /** The arguments from i up to the first missing one. */
  function Views(w: nat, m: seq<byte>, heap: seq<byte>, i: nat): (vs: seq<View>)
    requires ARG_AREA <= |m| && Sound(w, m, heap, i)
    decreases NARGS - i
  {
    if i >= NARGS || GetArgType(w, i) == NONE then [] else [ViewAt(w, m, heap, i)] + Views(w, m, heap, i + 1)
  }

  // ---------------------------------------------------------------- printing

  /** A length of k bytes and as much of the data as that can count. */
  function EncodeBlob(s: seq<byte>, k: nat): seq<byte>
  {
    var n := Min(|s|, Pow256(k) - 1);
    LE(n, k) + s[..n]
  }

  function EncodeView(v: View): seq<byte>
  {
    match v
    case Num32(_, n) => LE(n, 4)
    case Num64(_, n) => LE(n, 8)
    case Text(s) => EncodeBlob(s, 2)
    case Static(s) => EncodeBlob(s, 2)
    case Blob(_, s) => EncodeBlob(s, 4)
  }

  function EncodeViews(vs: seq<View>): seq<byte>
  {
    if vs == [] then [] else EncodeView(vs[0]) + EncodeViews(vs[1..])
  }

  function EncodeArgs(w: nat, vs: seq<View>): seq<byte> { LE(w, 8) + EncodeViews(vs) }

  function Encode(m: Message): seq<byte>
  {
    LE(m.ts, 8) + (LE(m.seqnum, 8) + (EncodeBlob(m.ring, 1) + (EncodeBlob(m.area, 1) + (EncodeBlob(m.section, 1)
      + EncodeArgs(m.argtype, m.views)))))
  }

  // ---------------------------------------------------------------- parsing

  /** The outcome of reading one thing: got it, ran out of input, or it was not acceptable. */
  datatype Result<T> = Parsed(value: T, rest: seq<byte>) | Short | Bad

  function TakeUint(bs: seq<byte>, k: nat): (r: Result<nat>)
    ensures !r.Bad?
  {
    if |bs| < k then Short else Parsed(FromLE(bs[..k]), bs[k..])
  }

  function TakeBlob(bs: seq<byte>, k: nat): (r: Result<seq<byte>>)
    ensures !r.Bad?
  {
    match TakeUint(bs, k)
    case Parsed(n, rest) => if |rest| < n then Short else Parsed(rest[..n], rest[n..])
    case _ => Short
  }

  predicate Printable(b: byte) { 32 <= b <= 126 }

  predicate ValidName(s: seq<byte>)
  {
    2 <= |s| <= 128 && forall i :: 0 <= i < |s| ==> Printable(s[i])
  }

  /** The bytes in front of the first zero. */
  function UpToNul(s: seq<byte>): (r: seq<byte>)
    ensures r <= s
  {
    if s == [] || s[0] == 0 then [] else [s[0]] + UpToNul(s[1..])
  }

  function TakeName(bs: seq<byte>): Result<seq<byte>>
  {
    match TakeBlob(bs, 1)
    case Parsed(s, rest) => if ValidName(UpToNul(s)) then Parsed(UpToNul(s), rest) else Bad
    case _ => Short
  }

  /** Static strings come back as plain ones. */
  function TakeView(t: nat, bs: seq<byte>): (r: Result<View>)
    ensures !r.Bad?
  {
    if t == CSTR || t == GSTR then
      match TakeBlob(bs, 2)
      case Parsed(s, rest) => Parsed(Text(s), rest)
      case _ => Short
    else if t == XDUMP || t == RAW then
      match TakeBlob(bs, 4)
      case Parsed(s, rest) => Parsed(Blob(t, s), rest)
      case _ => Short
    else if Is32(t) then
      match TakeUint(bs, 4)
      case Parsed(n, rest) => Parsed(Num32(t, n), rest)
      case _ => Short
    else
      match TakeUint(bs, 8)
      case Parsed(n, rest) => Parsed(Num64(t, n), rest)
      case _ => Short
  }

  function TakeViews(w: nat, bs: seq<byte>, i: nat): (r: Result<seq<View>>)
    ensures !r.Bad?
    decreases NARGS - i
  {
    if i >= NARGS || GetArgType(w, i) == NONE then Parsed([], bs)
    else
      match TakeView(GetArgType(w, i), bs)
      case Short => Short
      case Parsed(v, rest) =>
        match TakeViews(w, rest, i + 1)
        case Short => Short
        case Parsed(vs, rest') => Parsed([v] + vs, rest')
  }

  /** The type word after the parser has turned the first k static strings into plain ones. */
  function Remap(w: nat, k: nat): nat
  {
    if k == 0 then w
    else
      var u := Remap(w, k - 1);
      if GetArgType(u, k - 1) == GSTR then SetArgType(ClearArgType(u, k - 1), k - 1, CSTR) else u
  }

  lemma {:induction false} RemapTypes(w: nat, k: nat, j: nat)
    ensures GetArgType(Remap(w, k), j) == if j < k && GetArgType(w, j) == GSTR then CSTR else GetArgType(w, j)
  {
    hide GetArgType, SetArgType, ClearArgType;
    if k > 0 {
      RemapTypes(w, k - 1, j);
      var u := Remap(w, k - 1);
      ClearThenGet(u, k - 1, j);
      SetThenGet(ClearArgType(u, k - 1), k - 1, CSTR, j);
    }
  }

  const SEQNUM_RANGE: nat := 0x10_0000_0000_0000   // 52 bits

  function TakeArgs(bs: seq<byte>): Result<(nat, seq<View>)>
  {
    match TakeUint(bs, 8)
    case Parsed(w, rest) =>
      (match TakeViews(w, rest, 0)
       case Parsed(vs, rest') => Parsed((Remap(w, |vs|), vs), rest')
       case _ => Short)
    case _ => Short
  }

  /** Everything behind the sequence number: the three names and the arguments. */
  function TakeBody(ts: nat, seqnum: nat, bs: seq<byte>): Result<Message>
  {
    match TakeName(bs)
    case Bad => Bad
    case Short => Short
    case Parsed(ring, b1) =>
      (match TakeName(b1)
       case Bad => Bad
       case Short => Short
       case Parsed(area, b2) =>
         (match TakeName(b2)
          case Bad => Bad
          case Short => Short
          case Parsed(section, b3) =>
            (match TakeArgs(b3)
             case Parsed((w, vs), rest) => Parsed(Message(ts, seqnum, ring, area, section, w, vs), rest)
             case _ => Short)))
  }

  /** What next() returns: a record, the end of the stream, or a failure. */
  datatype Outcome = Got(msg: Message, rest: seq<byte>) | End | Failure

  function Decode(bs: seq<byte>): Outcome
  {
    match TakeUint(bs, 8)
    case Short => End
    case Bad => End
    case Parsed(ts, b1) =>
      (match TakeUint(b1, 8)
       case Parsed(seqnum, b2) =>
         (match TakeBody(ts, seqnum % SEQNUM_RANGE, b2)
          case Parsed(m, rest) => Got(m, rest)
          case _ => Failure)
       case _ => Failure)
  }

  // ---------------------------------------------------------------- more input changes no decision

  lemma UintMore(p: seq<byte>, q: seq<byte>, k: nat)
    ensures TakeUint(p, k).Parsed? ==> TakeUint(p + q, k) == Parsed(TakeUint(p, k).value, TakeUint(p, k).rest + q)
  {
    if |p| >= k {
      assert (p + q)[..k] == p[..k] && (p + q)[k..] == p[k..] + q;
    }
  }

  lemma BlobMore(p: seq<byte>, q: seq<byte>, k: nat)
    ensures TakeBlob(p, k).Parsed? ==> TakeBlob(p + q, k) == Parsed(TakeBlob(p, k).value, TakeBlob(p, k).rest + q)
  {
    hide FromLE;
    UintMore(p, q, k);
    if TakeBlob(p, k).Parsed? {
      var n, r := TakeUint(p, k).value, TakeUint(p, k).rest;
      assert (r + q)[..n] == r[..n] && (r + q)[n..] == r[n..] + q;
    }
  }

  lemma NameMore(p: seq<byte>, q: seq<byte>)
    ensures TakeName(p).Parsed? ==> TakeName(p + q) == Parsed(TakeName(p).value, TakeName(p).rest + q)
    ensures TakeName(p).Bad? ==> TakeName(p + q).Bad?
  {
    hide TakeBlob, ValidName, UpToNul;
    BlobMore(p, q, 1);
  }

  lemma ViewMore(t: nat, p: seq<byte>, q: seq<byte>)
    ensures TakeView(t, p).Parsed? ==> TakeView(t, p + q) == Parsed(TakeView(t, p).value, TakeView(t, p).rest + q)
  {
    hide TakeBlob, TakeUint;
    BlobMore(p, q, 2);
    BlobMore(p, q, 4);
    UintMore(p, q, 4);
    UintMore(p, q, 8);
  }

  lemma {:induction false} ViewsMore(w: nat, p: seq<byte>, q: seq<byte>, i: nat)
    ensures TakeViews(w, p, i).Parsed? ==>
      TakeViews(w, p + q, i) == Parsed(TakeViews(w, p, i).value, TakeViews(w, p, i).rest + q)
    decreases NARGS - i
  {
    hide TakeView, GetArgType;
    if i < NARGS && GetArgType(w, i) != NONE {
      ViewMore(GetArgType(w, i), p, q);
      if TakeView(GetArgType(w, i), p).Parsed? {
        ViewsMore(w, TakeView(GetArgType(w, i), p).rest, q, i + 1);
      }
    }
  }

  lemma ArgsMore(p: seq<byte>, q: seq<byte>)
    ensures TakeArgs(p).Parsed? ==> TakeArgs(p + q) == Parsed(TakeArgs(p).value, TakeArgs(p).rest + q)
  {
    hide TakeUint, TakeViews, Remap;
    UintMore(p, q, 8);
    if TakeUint(p, 8).Parsed? { ViewsMore(TakeUint(p, 8).value, TakeUint(p, 8).rest, q, 0); }
  }

  lemma BodyMore(ts: nat, seqnum: nat, p: seq<byte>, q: seq<byte>)
    ensures TakeBody(ts, seqnum, p).Parsed? ==>
      TakeBody(ts, seqnum, p + q) == Parsed(TakeBody(ts, seqnum, p).value, TakeBody(ts, seqnum, p).rest + q)
    ensures TakeBody(ts, seqnum, p).Bad? ==> TakeBody(ts, seqnum, p + q).Bad?
  {
    hide TakeName, TakeArgs;
    NameMore(p, q);
    if TakeName(p).Parsed? {
      var b1 := TakeName(p).rest;
      NameMore(b1, q);
      if TakeName(b1).Parsed? {
        var b2 := TakeName(b1).rest;
        NameMore(b2, q);
        if TakeName(b2).Parsed? { ArgsMore(TakeName(b2).rest, q); }
      }
    }
  }

  /** A record that has been recognised stays recognised whatever follows it. */
  lemma DecodeMore(p: seq<byte>, q: seq<byte>)
    ensures Decode(p).Got? ==> Decode(p + q) == Got(Decode(p).msg, Decode(p).rest + q)
  {
    hide TakeUint, TakeBody;
    UintMore(p, q, 8);
    if TakeUint(p, 8).Parsed? {
      var b1 := TakeUint(p, 8).rest;
      UintMore(b1, q, 8);
      if TakeUint(b1, 8).Parsed? {
        BodyMore(TakeUint(p, 8).value, TakeUint(b1, 8).value % SEQNUM_RANGE, TakeUint(b1, 8).rest, q);
      }
    }
  }

  // ---------------------------------------------------------------- what survives a round trip

  function NormalView(v: View): View
  {
    match v
    case Text(s) => Text(s[..Min(|s|, 0xffff)])
    case Static(s) => Text(s[..Min(|s|, 0xffff)])
    case Blob(t, s) => Blob(t, s[..Min(|s|, 0xffff_ffff)])
    case _ => v
  }

  function NormalViews(vs: seq<View>): (r: seq<View>)
    ensures |r| == |vs| && forall i :: 0 <= i < |vs| ==> r[i] == NormalView(vs[i])
  {
    seq(|vs|, i requires 0 <= i < |vs| => NormalView(vs[i]))
  }

  /** Sequence numbers keep 52 bits, long data is cut to what its length field can say, static strings become plain. */
  function Normal(m: Message): Message
  {
    m.(seqnum := m.seqnum % SEQNUM_RANGE, argtype := Remap(m.argtype, |m.views|), views := NormalViews(m.views))
  }

  function TypeOf(v: View): nat
  {
    match v
    case Num32(t, _) => t
    case Num64(t, _) => t
    case Text(_) => CSTR
    case Static(_) => GSTR
    case Blob(t, _) => t
  }

  predicate ViewOk(v: View)
  {
    match v
    case Num32(t, n) => Is32(t) && n < WORD
    case Num64(t, n) => t != NONE && !Is32(t) && !IsData(t) && t != GSTR && n < 0x1_0000_0000_0000_0000
    case Blob(t, _) => t == XDUMP || t == RAW
    case _ => true
  }

  /** The arguments from i on are the ones the type word announces. */
  predicate Announced(w: nat, vs: seq<View>, i: nat)
    decreases |vs|
  {
    if vs == [] then i >= NARGS || GetArgType(w, i) == NONE
    else i < NARGS && GetArgType(w, i) == TypeOf(vs[0]) != NONE && ViewOk(vs[0]) && Announced(w, vs[1..], i + 1)
  }

  /** A record as the packer meets it: names are C strings, and the type word announces the arguments. */
  predicate Packable(m: Message)
  {
    && m.ts < 0x1_0000_0000_0000_0000 && m.seqnum < 0x1_0000_0000_0000_0000 && m.argtype < 0x1_0000_0000_0000_0000
    && ZeroFree(m.ring) && ZeroFree(m.area) && ZeroFree(m.section)
    && Announced(m.argtype, m.views, 0)
  }

  predicate WellNamed(m: Message) { ValidName(m.ring) && ValidName(m.area) && ValidName(m.section) }

  predicate Printed(m: Message) { Packable(m) && WellNamed(m) }

  lemma UintBack(v: nat, k: nat, rest: seq<byte>)
    requires v < Pow256(k)
    ensures TakeUint(LE(v, k) + rest, k) == Parsed(v, rest)
  {
    hide LE, FromLE, Pow256;
    FromLEOfLE(v, k);
    assert (LE(v, k) + rest)[..k] == LE(v, k) && (LE(v, k) + rest)[k..] == rest;
  }

  lemma BlobBack(s: seq<byte>, k: nat, rest: seq<byte>)
    ensures TakeBlob(EncodeBlob(s, k) + rest, k) == Parsed(s[..Min(|s|, Pow256(k) - 1)], rest)
  {
    hide LE, FromLE, Pow256, TakeUint;
    var n := Min(|s|, Pow256(k) - 1);
    assert EncodeBlob(s, k) + rest == LE(n, k) + (s[..n] + rest);
    UintBack(n, k, s[..n] + rest);
    assert (s[..n] + rest)[..n] == s[..n] && (s[..n] + rest)[n..] == rest;
  }

  predicate ZeroFree(s: seq<byte>) { forall i :: 0 <= i < |s| ==> s[i] != 0 }

  lemma {:induction false} NoNul(s: seq<byte>)
    requires ZeroFree(s)
    ensures UpToNul(s) == s
  {
    if s != [] {
      NoNul(s[1..]);
    }
  }

  /** A name comes back if it is valid, and is rejected otherwise; a name too long for its prefix is cut first. */
  lemma NameBack(s: seq<byte>, rest: seq<byte>)
    requires ZeroFree(s)
    ensures TakeName(EncodeBlob(s, 1) + rest) == if ValidName(s) then Parsed(s, rest) else Bad
  {
    hide TakeBlob, EncodeBlob;
    BlobBack(s, 1, rest);
    var n := Min(|s|, Pow256(1) - 1);
    NoNul(s[..n]);
    if n == |s| { assert s[..n] == s; }
  }

  lemma ViewBack(v: View, rest: seq<byte>)
    requires ViewOk(v)
    ensures TakeView(TypeOf(v), EncodeView(v) + rest) == Parsed(NormalView(v), rest)
  {
    hide TakeBlob, TakeUint, EncodeBlob, LE, Pow256;
    Widths();
    match v
    case Num32(_, n) => UintBack(n, 4, rest);
    case Num64(_, n) => UintBack(n, 8, rest);
    case Text(s) => BlobBack(s, 2, rest);
    case Static(s) => BlobBack(s, 2, rest);
    case Blob(_, s) => BlobBack(s, 4, rest);
  }

  lemma {:induction false} ViewsBack(w: nat, vs: seq<View>, i: nat, rest: seq<byte>)
    requires Announced(w, vs, i)
    ensures TakeViews(w, EncodeViews(vs) + rest, i) == Parsed(NormalViews(vs), rest)
    decreases |vs|
  {
    hide TakeView, EncodeView, NormalView, GetArgType, ViewOk;
    if vs == [] {
      assert EncodeViews(vs) + rest == rest;
    } else {
      var more := EncodeViews(vs[1..]) + rest;
      assert EncodeViews(vs) + rest == EncodeView(vs[0]) + more;
      ViewBack(vs[0], more);
      ViewsBack(w, vs[1..], i + 1, rest);
      assert NormalViews(vs) == [NormalView(vs[0])] + NormalViews(vs[1..]);
    }
  }

  lemma ArgsBack(w: nat, vs: seq<View>, rest: seq<byte>)
    requires w < 0x1_0000_0000_0000_0000 && Announced(w, vs, 0)
    ensures TakeArgs(EncodeArgs(w, vs) + rest) == Parsed((Remap(w, |vs|), NormalViews(vs)), rest)
  {
    hide TakeViews, EncodeViews, TakeUint, LE, Announced, Remap;
    Widths();
    assert EncodeArgs(w, vs) + rest == LE(w, 8) + (EncodeViews(vs) + rest);
    UintBack(w, 8, EncodeViews(vs) + rest);
    ViewsBack(w, vs, 0, rest);
  }

  /**
    * The codec of one record: parsing what was printed gives the record in its normal form and stops
    * exactly where the record ends, if and only if its names are 2 to 128 printable characters long;
    * otherwise the parser fails.
    */
  lemma DecodeDecides(m: Message, rest: seq<byte>)
    requires Packable(m)
    ensures Decode(Encode(m) + rest) == if WellNamed(m) then Got(Normal(m), rest) else Failure
  {
    hide TakeUint, TakeName, TakeArgs, LE, EncodeBlob, EncodeArgs, ValidName, Announced, Remap, ZeroFree;
    Widths();
    var b4 := EncodeArgs(m.argtype, m.views) + rest;
    var b3 := EncodeBlob(m.section, 1) + b4;
    var b2 := EncodeBlob(m.area, 1) + b3;
    var b1 := EncodeBlob(m.ring, 1) + b2;
    var b0 := LE(m.seqnum, 8) + b1;
    assert Encode(m) + rest == LE(m.ts, 8) + b0;
    UintBack(m.ts, 8, b0);
    UintBack(m.seqnum, 8, b1);
    NameBack(m.ring, b2);
    NameBack(m.area, b3);
    NameBack(m.section, b4);
    ArgsBack(m.argtype, m.views, rest);
  }

  /** A record that is cut short is never mistaken for one: the stream has ended, or it has failed. */
  lemma CutShort(m: Message, p: seq<byte>)
    requires Printed(m) && p < Encode(m)
    ensures Decode(p) == if |p| < 8 then End else Failure
  {
    hide TakeBody, Encode, Normal, Packable, WellNamed;
    var q := Encode(m)[|p|..];
    assert p + q == Encode(m) + [] == Encode(m);
    DecodeMore(p, q);
    DecodeDecides(m, []);
  }
}
