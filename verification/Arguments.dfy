/** Log arguments, and what set_args makes of them in the memory behind a record. */
module Arguments {
  import opened Bytes
  import opened Bits
  import opened ArgTypes

  const WORD_BYTES: nat := 8
  const ARG_AREA: nat := 128      // 16 argument words of 8 bytes
  const XDUMP_FORMAT: nat := 4    // sizeof(arg_xdump::format)
  const MARKER: seq<byte> := [62, 62, 62]   // ">>>"

  /** The caller's memory, as far as arguments point into it. */
  datatype XdumpArg = XdumpArg(fmt: seq<byte>, ptr: nat, len: nat)
  datatype Env = Env(heap: seq<byte>, xdumps: map<nat, XdumpArg>)

  /** A tagged argument; `val` is the value itself or a pointer, `len` matters for CSTR and RAW. */
  datatype Arg = Arg(t: nat, val: nat, len: nat)

  predicate Is32(t: nat) { t == UINT32 || t == INT32 }
  predicate IsData(t: nat) { t == CSTR || t == XDUMP || t == RAW }

  predicate Readable(env: Env, a: Arg)
  {
    && a.t <= RAW && a.val < 0x1_0000_0000_0000_0000 && a.len < WORD
    && (a.t == CSTR || a.t == RAW ==> a.val + a.len <= |env.heap|)
    && (a.t == XDUMP ==>
          && a.val in env.xdumps
          && var xd := env.xdumps[a.val];
             |xd.fmt| == XDUMP_FORMAT && xd.len < WORD && xd.ptr + xd.len <= |env.heap|)
  }

  /** The bytes a data argument points at. */
  function Source(env: Env, a: Arg): seq<byte>
    requires Readable(env, a) && IsData(a.t)
  {
    if a.t == XDUMP then var xd := env.xdumps[a.val]; env.heap[xd.ptr..xd.ptr + xd.len]
    else env.heap[a.val..a.val + a.len]
  }

  /**
    * What a copy leaves in the record: `text` is what get_arg_data returns, `bytes` is what was
    * written, and a piece that is not `placed` gets offset and length zero.
    */
  datatype Piece = Piece(placed: bool, text: seq<byte>, bytes: seq<byte>)

  function CstrPiece(s: seq<byte>, room: nat): Piece
  {
    if s == [] || room == 0 then Piece(false, [], [])
    else
      var n := room - 1;   // room for the terminator
      var text := if |s| <= n then s else if n > 3 then s[..n - 3] + MARKER else s[..n];
      Piece(true, text, text + [0])
  }

  function RawPiece(s: seq<byte>, room: nat): Piece
  {
    var text := s[..Min(|s|, room)];
    Piece(true, text, text)
  }

  /** The length of a dump is added up in 32 bits. */
  function XdumpPiece(fmt: seq<byte>, s: seq<byte>, room: nat): Piece
    requires |fmt| == XDUMP_FORMAT && |s| < WORD
  {
    var len := Min((XDUMP_FORMAT + |s|) % WORD, room);
    if len < XDUMP_FORMAT then Piece(false, [], [])
    else var text := fmt + s[..len - XDUMP_FORMAT]; Piece(true, text, text)
  }

  function PieceOf(env: Env, a: Arg, room: nat): (p: Piece)
    requires Readable(env, a) && IsData(a.t)
    ensures |p.text| <= |p.bytes| <= room && p.bytes[..|p.text|] == p.text
    ensures !p.placed ==> p.bytes == []
  {
    var s := Source(env, a);
    if a.t == CSTR then CstrPiece(s, room)
    else if a.t == RAW then RawPiece(s, room)
    else XdumpPiece(env.xdumps[a.val].fmt, s, room)
  }

  /**
    * What a stored string looks like: whole if it fits with its terminator, otherwise cut to what
    * fits, ending in the marker if there is room for one.  It is written with a terminator if and only if
    * it is not empty and there is room; otherwise nothing is written at all.
    */
  lemma StoredString(env: Env, a: Arg, room: nat)
    requires Readable(env, a) && a.t == CSTR
    ensures var s, p := Source(env, a), PieceOf(env, a, room);
            && (p.bytes == p.text + [0] <==> s != [] && room > 0) && (p.placed <==> s != [] && room > 0)
            && (!p.placed ==> p == Piece(false, [], []))
            && (|s| < room ==> p.text == s)
            && (|s| >= room > 0 && s != [] ==> |p.text| == room - 1)
            && (|s| >= room >= 5 ==> MARKER <= p.text[|p.text| - 3..] && p.text[..|p.text| - 3] <= s)
            && (|s| >= room && room < 5 ==> p.text <= s)
  {
  }

  /**
    * What a stored dump looks like: its format and as much of its data as fits.  It is left out if and
    * only if the format does not fit or the 32-bit length wraps around.
    */
  lemma StoredDump(env: Env, a: Arg, room: nat)
    requires Readable(env, a) && a.t == XDUMP
    ensures var s, p := Source(env, a), PieceOf(env, a, room);
            && (p.placed <==> room >= XDUMP_FORMAT && |s| < WORD - XDUMP_FORMAT)
            && (p.placed ==> p.text == env.xdumps[a.val].fmt + s[..Min(|s|, room - XDUMP_FORMAT)])
            && (!p.placed ==> p.text == [])
  {
  }

  /** What stored raw data looks like: as much of it as fits, and nothing else. */
  lemma StoredRaw(env: Env, a: Arg, room: nat)
    requires Readable(env, a) && a.t == RAW
    ensures var s, p := Source(env, a), PieceOf(env, a, room);
            && p.placed && p.bytes == p.text && p.text <= s
            && |p.text| == if |s| <= room then |s| else room
  {
  }

  /**
    * The bytes d are what data argument a should come back as when there is this much room for it: all of
    * the caller's bytes if they fit, otherwise as many as do, a string making way for the marker.
    */
  predicate AsPassed(env: Env, a: Arg, room: nat, d: seq<byte>)
    requires Readable(env, a) && IsData(a.t)
  {
    var xd := if a.t == XDUMP then env.xdumps[a.val] else XdumpArg([], a.val, a.len);
    var s := env.heap[xd.ptr..][..xd.len];
    if a.t == RAW then
      if |s| <= room then d == s else d == s[..room]
    else if a.t == XDUMP then
      if room < 4 || |s| >= WORD - 4 then d == []
      else d == xd.fmt + (if |s| <= room - 4 then s else s[..room - 4])
    else
      if room == 0 then d == []
      else if |s| < room then d == s
      else if room <= 4 then d == s[..room - 1]
      else d == s[..room - 4] + [62, 62, 62]
  }

  lemma SourceIs(env: Env, a: Arg)
    requires Readable(env, a) && IsData(a.t)
    ensures var xd := if a.t == XDUMP then env.xdumps[a.val] else XdumpArg([], a.val, a.len);
            xd.ptr + xd.len <= |env.heap| && Source(env, a) == env.heap[xd.ptr..][..xd.len]
  {
  }

  lemma PieceAsPassed(env: Env, a: Arg, room: nat)
    requires Readable(env, a) && IsData(a.t)
    ensures AsPassed(env, a, room, PieceOf(env, a, room).text)
  {
    hide Source, PieceOf;
    SourceIs(env, a);
    if a.t == RAW {
      StoredRaw(env, a, room);
    } else if a.t == XDUMP {
      StoredDump(env, a, room);
    } else {
      StringAsPassed(env, a, room);
    }
  }

  lemma StringAsPassed(env: Env, a: Arg, room: nat)
    requires Readable(env, a) && a.t == CSTR
    ensures AsPassed(env, a, room, PieceOf(env, a, room).text)
  {
    hide Source;
    SourceIs(env, a);
  }

  // ---------------------------------------------------------------- one argument

  /** What storing one argument writes: nothing, a word of k bytes, or a piece and its descriptor. */
  datatype Store = Nothing | Word(v: nat, k: nat) | Data(at: nat, p: Piece)

  predicate StoreOk(m: seq<byte>, i: nat, s: Store)
  {
    && ARG_AREA <= |m| && i < NARGS
    && match s
       case Nothing => true
       case Word(v, k) => k == 4 || k == 8
       case Data(at, p) => |p.text| <= |p.bytes| && at + |p.bytes| <= |m| < WORD && p.bytes[..|p.text|] == p.text
                           && (!p.placed ==> p.bytes == [])
  }

  function Apply(m: seq<byte>, i: nat, s: Store): (r: seq<byte>)
    requires StoreOk(m, i, s)
    ensures |r| == |m|
  {
    match s
    case Nothing => m
    case Word(v, k) => Put(m, 8 * i, LE(v, k))
    case Data(at, p) =>
      Put(Put(m, at, p.bytes), 8 * i, LE(if p.placed then at else 0, 4) + LE(|p.text|, 4))
  }

  function Val32(m: seq<byte>, i: nat): nat
    requires ARG_AREA <= |m| && i < NARGS
  {
    FromLE(m[8 * i..8 * i + 4])
  }

  function Val64(m: seq<byte>, i: nat): nat
    requires ARG_AREA <= |m| && i < NARGS
  {
    FromLE(m[8 * i..8 * i + 8])
  }

  function DataOffset(m: seq<byte>, i: nat): nat
    requires ARG_AREA <= |m| && i < NARGS
  {
    FromLE(m[8 * i..8 * i + 4])
  }

  function DataLen(m: seq<byte>, i: nat): nat
    requires ARG_AREA <= |m| && i < NARGS
  {
    FromLE(m[8 * i + 4..8 * i + 8])
  }

  predicate HasData(m: seq<byte>, i: nat)
    requires ARG_AREA <= |m| && i < NARGS
  {
    DataOffset(m, i) + DataLen(m, i) <= |m|
  }

  /** get_arg_data */
  function ArgData(m: seq<byte>, i: nat): seq<byte>
    requires ARG_AREA <= |m| && i < NARGS && HasData(m, i)
  {
    m[DataOffset(m, i)..DataOffset(m, i) + DataLen(m, i)]
  }

  /** The accessor of the argument's type returns what was stored. */
  predicate Holds(m: seq<byte>, i: nat, s: Store)
    requires StoreOk(m, i, s)
  {
    match s
    case Nothing => true
    case Word(v, k) => if k == 4 then Val32(m, i) == v % WORD else Val64(m, i) == v % 0x1_0000_0000_0000_0000
    case Data(at, p) =>
      && DataOffset(m, i) == (if p.placed then at else 0) && DataLen(m, i) == |p.text|
      && HasData(m, i) && ArgData(m, i) == p.text && m[at..at + |p.bytes|] == p.bytes
  }

  lemma SliceStart(m: seq<byte>, at: nat, k: nat, n: nat)
    requires k <= n && at + n <= |m|
    ensures m[at..at + n][..k] == m[at..at + k]
  {
  }
}
