/** The parser that reads raw records back, one call of next() at a time. */
module RawParsers {
  import opened Bytes
  import opened Bits
  import opened ArgTypes
  import opened Arguments
  import opened Packing
  import opened Overlaps
  import opened RawFormat
  import opened RecordBuffers
  import opened ReadBuffers

  const MAX_NAME_LEN: nat := 256

  /** How the parser stands after reading something: past it, or failed. */
  predicate Took<T(!new)>(r: Result<T>, failed: bool, remaining: seq<byte>)
  {
    match r
    case Parsed(_, rest) => !failed && remaining == rest
    case Short => failed && remaining == []
    case Bad => failed
  }

  /** How many bytes of a blob are copied, whether or not all of it is there. */
  function BlobRoom(bs: seq<byte>, k: nat): nat
  {
    if |bs| < k then 0 else Min(FromLE(bs[..k]), |bs| - k)
  }

  lemma BlobRoomIs(bs: seq<byte>, k: nat)
    ensures TakeBlob(bs, k).Parsed? ==> BlobRoom(bs, k) == |TakeBlob(bs, k).value|
  {
    hide FromLE;
  }

  // ---------------------------------------------------------------- where parsed arguments go

  function ParseStore(v: View, o: nat): Store
  {
    match v
    case Num32(_, n) => Word(n, 4)
    case Num64(_, n) => Word(n, 8)
    case Text(s) => Data(o, Piece(true, s, s + [0]))
    case Static(s) => Data(o, Piece(true, s, s + [0]))
    case Blob(_, s) => Data(o, Piece(true, s, s))
  }

  function StoreSize(v: View): nat { var s := ParseStore(v, 0); if s.Data? then |s.p.bytes| else 0 }

  /** The offset behind the data of `vs`, which starts behind all sixteen argument words. */
  function ParseOffset(vs: seq<View>): (o: nat)
    ensures o >= ARG_AREA
  {
    if vs == [] then ARG_AREA else ParseOffset(vs[..|vs| - 1]) + StoreSize(vs[|vs| - 1])
  }

  function ParseStores(vs: seq<View>): (ss: seq<Store>)
    ensures |ss| == |vs|
  {
    if vs == [] then []
    else
      var n := |vs| - 1;
      ParseStores(vs[..n]) + [ParseStore(vs[n], ParseOffset(vs[..n]))]
  }

  lemma ParseMore(vs: seq<View>, v: View)
    ensures ParseStores(vs + [v]) == ParseStores(vs) + [ParseStore(v, ParseOffset(vs))]
    ensures ParseOffset(vs + [v]) == ParseOffset(vs) + StoreSize(v)
  {
    assert (vs + [v])[..|vs|] == vs;
  }

  lemma {:induction false} ParseApart(vs: seq<View>)
    requires |vs| <= NARGS
    ensures Apart(ParseStores(vs))
    ensures forall i :: 0 <= i < |vs| && ParseStores(vs)[i].Data? ==>
      ARG_AREA <= ParseStores(vs)[i].at && ParseStores(vs)[i].at + |ParseStores(vs)[i].p.bytes| <= ParseOffset(vs)
  {
    if vs != [] {
      ParseApart(vs[..|vs| - 1]);
    }
  }

  lemma {:induction false} ParseOk(m: seq<byte>, vs: seq<View>)
    requires |vs| <= NARGS && ParseOffset(vs) <= |m| < WORD
    ensures StoresOk(m, ParseStores(vs))
  {
    if vs != [] {
      var n := |vs| - 1;
      ParseOk(m, vs[..n]);
      var s := ParseStore(vs[n], ParseOffset(vs[..n]));
      assert StoreOk(m, n, s);
    }
  }

  lemma {:induction false} AppliedPrefix(m: seq<byte>, ss: seq<Store>, s: Store, k: nat)
    requires StoresOk(m, ss) && StoresOk(m, ss + [s]) && k <= |ss|
    ensures Applied(m, ss + [s], k) == Applied(m, ss, k)
  {
    hide Apply, StoreOk;
    if k > 0 { AppliedPrefix(m, ss, s, k - 1); }
  }

  /** One more argument in the record. */
  lemma AppliedMore(m: seq<byte>, vs: seq<View>, v: View)
    requires |vs| < NARGS && ParseOffset(vs) + StoreSize(v) <= |m| < WORD
    ensures StoresOk(m, ParseStores(vs)) && StoresOk(m, ParseStores(vs + [v]))
    ensures var r := Applied(m, ParseStores(vs), |vs|);
            && StoreOk(r, |vs|, ParseStore(v, ParseOffset(vs)))
            && Applied(m, ParseStores(vs + [v]), |vs| + 1) == Apply(r, |vs|, ParseStore(v, ParseOffset(vs)))
    ensures ParseOffset(vs + [v]) == ParseOffset(vs) + StoreSize(v)
  {
    hide Apply, StoreOk, ParseStore, StoreSize;
    ParseMore(vs, v);
    ParseOk(m, vs);
    ParseOk(m, vs + [v]);
    AppliedPrefix(m, ParseStores(vs), ParseStore(v, ParseOffset(vs)), |vs|);
    AppliedNext(m, ParseStores(vs + [v]), |vs|);
  }

  // ---------------------------------------------------------------- what the record says afterwards

  /** Argument j has the type of view v, which is one a parser can produce. */
  predicate TypedAs(w: nat, j: nat, v: View)
  {
    GetArgType(w, j) == TypeOf(v) && TypeOf(v) != NONE && ViewOk(v) && !v.Static?
  }

  lemma HeldView(w: nat, m: seq<byte>, heap: seq<byte>, j: nat, v: View, o: nat)
    requires StoreOk(m, j, ParseStore(v, o)) && Holds(m, j, ParseStore(v, o)) && TypedAs(w, j, v)
    ensures ArgSound(w, m, heap, j) && ViewAt(w, m, heap, j) == v
  {
    hide FromLE, GetArgType;
  }

  lemma {:induction false} ParsedViews(w: nat, m: seq<byte>, heap: seq<byte>, vs: seq<View>, i: nat)
    requires i <= |vs| <= NARGS && ARG_AREA <= |m|
    requires forall j :: 0 <= j < |vs| ==>
      GetArgType(w, j) != NONE && ArgSound(w, m, heap, j) && ViewAt(w, m, heap, j) == vs[j]
    requires |vs| < NARGS ==> GetArgType(w, |vs|) == NONE
    ensures Sound(w, m, heap, i) && Views(w, m, heap, i) == vs[i..]
    decreases |vs| - i
  {
    hide GetArgType, ArgSound, ViewAt;
    if i < |vs| {
      ParsedViews(w, m, heap, vs, i + 1);
      assert vs[i..] == [vs[i]] + vs[i + 1..];
    }
  }

  /** The arguments just parsed can be read back from the record as they were parsed. */
  lemma RecordSays(w: nat, m0: seq<byte>, m: seq<byte>, heap: seq<byte>, vs: seq<View>)
    requires |vs| <= NARGS && ParseOffset(vs) <= |m0| < WORD && StoresOk(m0, ParseStores(vs))
    requires m == Applied(m0, ParseStores(vs), |vs|)
    requires forall j :: 0 <= j < |vs| ==> TypedAs(w, j, vs[j])
    requires |vs| < NARGS ==> GetArgType(w, |vs|) == NONE
    ensures Sound(w, m, heap, 0) && Views(w, m, heap, 0) == vs
  {
    hide GetArgType, Holds, StoreOk, Apply, Applied, ViewAt, ArgSound, ViewOk, Apart, ParseStore;
    ParseApart(vs);
    forall j | 0 <= j < |vs|
      ensures GetArgType(w, j) != NONE && ArgSound(w, m, heap, j) && ViewAt(w, m, heap, j) == vs[j]
    {
      ApartHold(m0, ParseStores(vs), j);
      assert TypedAs(w, j, vs[j]);
      StoreFrom(vs, j);
      HeldView(w, m, heap, j, vs[j], ParseOffset(vs[..j]));
    }
    ParsedViews(w, m, heap, vs, 0);
    assert vs[0..] == vs;
  }

  lemma {:induction false} StoreFrom(vs: seq<View>, j: nat)
    requires j < |vs|
    ensures ParseStores(vs)[j] == ParseStore(vs[j], ParseOffset(vs[..j]))
  {
    hide ParseStore;
    if j < |vs| - 1 {
      StoreFrom(vs[..|vs| - 1], j);
      assert vs[..|vs| - 1][..j] == vs[..j];
    }
  }

  // ---------------------------------------------------------------- reading arguments one by one

  /** The end of the memory that reading the arguments from i on writes to. */
  function Extent(w: nat, bs: seq<byte>, i: nat, o: nat): (e: nat)
    ensures e >= o
    decreases NARGS - i
  {
    if i >= NARGS || GetArgType(w, i) == NONE then o
    else
      var t := GetArgType(w, i);
      var r := TakeView(t, bs);
      if r.Parsed? then Extent(w, r.rest, i + 1, o + StoreSize(r.value))
      else if t == CSTR || t == GSTR then o + BlobRoom(bs, 2)
      else if t == XDUMP || t == RAW then o + BlobRoom(bs, 4)
      else o
  }

  function Prepend(vs: seq<View>, r: Result<seq<View>>): Result<seq<View>>
  {
    match r
    case Parsed(us, rest) => Parsed(vs + us, rest)
    case Short => Short
    case Bad => Bad
  }

  lemma TakenNext(w: nat, bs: seq<byte>, i: nat, vs: seq<View>)
    requires i < NARGS && GetArgType(w, i) != NONE
    ensures match TakeView(GetArgType(w, i), bs)
            case Parsed(v, rest) => Prepend(vs, TakeViews(w, bs, i)) == Prepend(vs + [v], TakeViews(w, rest, i + 1))
            case _ => Prepend(vs, TakeViews(w, bs, i)) == Short
  {
    hide TakeView, GetArgType;
    match TakeView(GetArgType(w, i), bs) {
      case Parsed(v, rest) =>
        var r := TakeViews(w, rest, i + 1);
        if r.Parsed? { assert vs + ([v] + r.value) == vs + [v] + r.value; }
      case _ =>
    }
  }

  lemma TakenType(t: nat, bs: seq<byte>)
    requires t < 16 && t != NONE
    ensures TakeView(t, bs).Parsed? ==>
      var v := TakeView(t, bs).value; TypeOf(v) == (if t == GSTR then CSTR else t) && ViewOk(v) && !v.Static?
  {
    hide FromLE, Pow256, TakeBlob;
    Widths();
    if |bs| >= 4 { FromLEBounded(bs[..4]); }
    if |bs| >= 8 { FromLEBounded(bs[..8]); }
  }

  /** How far the parser has come with the arguments: those of `vs` are in the record. */
  ghost predicate InRecord(w: nat, bs: seq<byte>, m0: seq<byte>, vs: seq<View>,
                           argtype: nat, m: seq<byte>, remaining: seq<byte>)
  {
    && |vs| <= NARGS && |m0| < WORD && ParseOffset(vs) <= |m0| && StoresOk(m0, ParseStores(vs))
    && m == Applied(m0, ParseStores(vs), |vs|)
    && argtype == Remap(w, |vs|)
    && (forall j :: 0 <= j < |vs| ==>
          && GetArgType(w, j) != NONE && ViewOk(vs[j]) && !vs[j].Static?
          && TypeOf(vs[j]) == (if GetArgType(w, j) == GSTR then CSTR else GetArgType(w, j)))
    && TakeViews(w, bs, 0) == Prepend(vs, TakeViews(w, remaining, |vs|))
    && Extent(w, remaining, |vs|, ParseOffset(vs)) <= |m0|
  }

  lemma InRecordStart(w: nat, bs: seq<byte>, m0: seq<byte>)
    requires ARG_AREA <= |m0| < WORD && Extent(w, bs, 0, ARG_AREA) <= |m0|
    ensures InRecord(w, bs, m0, [], w, m0, bs)
  {
    hide TakeViews, Extent;
    if TakeViews(w, bs, 0).Parsed? { assert [] + TakeViews(w, bs, 0).value == TakeViews(w, bs, 0).value; }
  }

  lemma InRecordNext(w: nat, bs: seq<byte>, m0: seq<byte>, vs: seq<View>, argtype: nat, m: seq<byte>,
                     remaining: seq<byte>)
    requires InRecord(w, bs, m0, vs, argtype, m, remaining) && |vs| < NARGS && GetArgType(w, |vs|) != NONE
    requires TakeView(GetArgType(w, |vs|), remaining).Parsed?
    ensures var t := TakeView(GetArgType(w, |vs|), remaining);
            var v, rest := t.value, t.rest;
            && StoreOk(m, |vs|, ParseStore(v, ParseOffset(vs)))
            && ParseOffset(vs + [v]) == ParseOffset(vs) + StoreSize(v) <= |m|
            && InRecord(w, bs, m0, vs + [v], Remap(w, |vs| + 1), Apply(m, |vs|, ParseStore(v, ParseOffset(vs))), rest)
  {
    hide TakeView, TakeViews, GetArgType, Remap, Apply, Applied, StoreOk, ParseStore, StoreSize, ViewOk,
      ParseStores, ParseOffset;
    var v, rest := TakeView(GetArgType(w, |vs|), remaining).value, TakeView(GetArgType(w, |vs|), remaining).rest;
    TakenNext(w, remaining, |vs|, vs);
    assert GetArgType(w, |vs|) < 16 by { GetIsNib(w, |vs|); }
    TakenType(GetArgType(w, |vs|), remaining);
    assert Extent(w, remaining, |vs|, ParseOffset(vs)) == Extent(w, rest, |vs| + 1, ParseOffset(vs) + StoreSize(v));
    AppliedMore(m0, vs, v);
  }

  /** Reading the arguments ends at a missing type or after the sixteenth. */
  lemma InRecordEnd(w: nat, bs: seq<byte>, m0: seq<byte>, vs: seq<View>, argtype: nat, m: seq<byte>,
                    remaining: seq<byte>, heap: seq<byte>)
    requires InRecord(w, bs, m0, vs, argtype, m, remaining)
    requires |vs| >= NARGS || GetArgType(w, |vs|) == NONE
    ensures TakeViews(w, bs, 0) == Parsed(vs, remaining)
    ensures ARG_AREA <= |m| && Sound(argtype, m, heap, 0) && Views(argtype, m, heap, 0) == vs
    ensures argtype == Remap(w, |vs|)
  {
    hide GetArgType, Remap, Apply, StoreOk, ParseStore, StoreSize, ViewOk, ParseStores, ParseOffset, Extent;
    forall j | 0 <= j < |vs| ensures TypedAs(argtype, j, vs[j]) {
      RemapTypes(w, |vs|, j);
    }
    if |vs| < NARGS { RemapTypes(w, |vs|, |vs|); }
    AppliedSize(m0, vs);
    RecordSays(argtype, m0, m, heap, vs);
    assert vs + [] == vs;
  }

  lemma AppliedSize(m0: seq<byte>, vs: seq<View>)
    requires StoresOk(m0, ParseStores(vs)) && |vs| <= NARGS
    ensures |Applied(m0, ParseStores(vs), |vs|)| == |m0|
  {
  }

  // ---------------------------------------------------------------- names

  /** A string that is followed by a zero ends there. */
  lemma {:induction false} UpToNulStops(s: seq<byte>, t: seq<byte>)
    ensures UpToNul(s + [0] + t) == UpToNul(s)
  {
    var z := s + [0] + t;
    if s != [] && s[0] != 0 {
      assert z[1..] == s[1..] + [0] + t;
      UpToNulStops(s[1..], t);
    }
  }

  lemma {:induction false} UpToNulAt(s: seq<byte>, k: nat)
    requires k < |s| && s[k] == 0 && forall i :: 0 <= i < k ==> s[i] != 0
    ensures UpToNul(s) == s[..k]
  {
    if k > 0 {
      UpToNulAt(s[1..], k - 1);
      assert s[..k] == [s[0]] + s[1..][..k - 1];
    }
  }

  lemma {:induction false} HasNul(s: seq<byte>, k: nat)
    requires k < |s| && s[k] == 0
    ensures |UpToNul(s)| <= k
  {
    if k > 0 && s[0] != 0 { HasNul(s[1..], k - 1); }
  }

  /** valid_name: the C string is 2 to 128 printable characters. */
  method CheckName(str: array<byte>) returns (ok: bool)
    requires exists k :: 0 <= k < str.Length && str[k] == 0
    ensures ok == ValidName(UpToNul(str[..]))
  {
    var n := 0;
    while str[n] != 0
      invariant 0 <= n < str.Length
      invariant forall i :: 0 <= i < n ==> str[i] != 0 && Printable(str[i])
      invariant exists k :: n <= k < str.Length && str[k] == 0
      decreases str.Length - n
    {
      if !Printable(str[n]) {
        NameRejected(str[..], n);
        return false;
      }
      n := n + 1;
    }
    UpToNulAt(str[..], n);
    assert forall i :: 0 <= i < n ==> str[..n][i] == str[i];
    ok := 2 <= n <= 128;
  }

  lemma {:induction false} NameRejected(s: seq<byte>, n: nat)
    requires n < |s| && s[n] != 0 && !Printable(s[n]) && forall i :: 0 <= i < n ==> s[i] != 0
    ensures n < |UpToNul(s)| && UpToNul(s)[n] == s[n] && !ValidName(UpToNul(s))
  {
    if n > 0 {
      NameRejected(s[1..], n - 1);
      assert UpToNul(s)[n] == UpToNul(s[1..])[n - 1];
    }
  }
}
