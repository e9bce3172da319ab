/** How large the parser's record buffer has to be for a given stream. */
module Fitting {
  import opened Bytes
  import opened ArgTypes
  import opened Arguments
  import opened RawFormat
  import opened RawStreams
  import opened RawParsers
  import opened RawReaders

  /** The memory that the data of these arguments takes when they are parsed. */
  function DataSize(vs: seq<View>): nat
  {
    if vs == [] then 0 else StoreSize(NormalView(vs[0])) + DataSize(vs[1..])
  }

  lemma UintCut(p: seq<byte>, q: seq<byte>, k: nat, e: seq<byte>, v: nat, rest: seq<byte>)
    requires p + q == e + rest && |e| == k && TakeUint(e + rest, k) == Parsed(v, rest)
    ensures TakeUint(p, k).Parsed? ==> TakeUint(p, k).value == v && TakeUint(p, k).rest + q == rest
  {
    hide FromLE;
    UintMore(p, q, k);
  }

  /** A blob that is cut short needs no more room than the whole. */
  lemma BlobCut(s: seq<byte>, k: nat, rest: seq<byte>, p: seq<byte>, q: seq<byte>)
    requires p + q == EncodeBlob(s, k) + rest
    ensures BlobRoom(p, k) <= Min(|s|, Pow256(k) - 1)
    ensures TakeBlob(p, k).Parsed? ==>
      TakeBlob(p, k).value == s[..Min(|s|, Pow256(k) - 1)] && TakeBlob(p, k).rest + q == rest
  {
    hide LE, FromLE, Pow256;
    var n := Min(|s|, Pow256(k) - 1);
    BlobBack(s, k, rest);
    BlobMore(p, q, k);
    if |p| >= k {
      FromLEOfLE(n, k);
      assert p[..k] == (p + q)[..k] == LE(n, k);
    }
  }

  lemma ViewCut(v: View, rest: seq<byte>, p: seq<byte>, q: seq<byte>)
    requires ViewOk(v) && p + q == EncodeView(v) + rest
    ensures TakeView(TypeOf(v), p).Parsed? ==>
      TakeView(TypeOf(v), p).value == NormalView(v) && TakeView(TypeOf(v), p).rest + q == rest
    ensures !TakeView(TypeOf(v), p).Parsed? ==>
      && (TypeOf(v) == CSTR || TypeOf(v) == GSTR ==> BlobRoom(p, 2) <= StoreSize(NormalView(v)))
      && (TypeOf(v) == XDUMP || TypeOf(v) == RAW ==> BlobRoom(p, 4) <= StoreSize(NormalView(v)))
  {
    hide TakeView, EncodeBlob, BlobRoom, Pow256;
    Widths();
    ViewBack(v, rest);
    ViewMore(TypeOf(v), p, q);
    match v
    case Text(s) => BlobCut(s, 2, rest, p, q);
    case Static(s) => BlobCut(s, 2, rest, p, q);
    case Blob(_, s) => BlobCut(s, 4, rest, p, q);
    case _ =>
  }

  lemma {:induction false} ExtentCut(w: nat, vs: seq<View>, i: nat, rest: seq<byte>, p: seq<byte>, q: seq<byte>, o: nat)
    requires Announced(w, vs, i) && p + q == EncodeViews(vs) + rest
    ensures Extent(w, p, i, o) <= o + DataSize(vs)
    decreases |vs|
  {
    hide TakeView, EncodeView, NormalView, GetArgType, ViewOk, StoreSize, BlobRoom;
    if vs != [] {
      var more := EncodeViews(vs[1..]) + rest;
      assert EncodeViews(vs) + rest == EncodeView(vs[0]) + more;
      ViewCut(vs[0], more, p, q);
      var r := TakeView(TypeOf(vs[0]), p);
      if r.Parsed? { ExtentCut(w, vs[1..], i + 1, rest, r.rest, q, o + StoreSize(NormalView(vs[0]))); }
    }
  }

  lemma NameCut(s: seq<byte>, rest: seq<byte>, p: seq<byte>, q: seq<byte>)
    requires ZeroFree(s) && p + q == EncodeBlob(s, 1) + rest
    ensures TakeName(p).Parsed? ==> TakeName(p).rest + q == rest
  {
    hide TakeName, EncodeBlob, ValidName;
    NameBack(s, rest);
    NameMore(p, q);
  }

  lemma UintRest(v: nat, k: nat, rest: seq<byte>, p: seq<byte>, q: seq<byte>)
    requires v < Pow256(k) && p + q == LE(v, k) + rest
    ensures TakeUint(p, k).Parsed? ==> TakeUint(p, k).value == v && TakeUint(p, k).rest + q == rest
  {
    hide LE, Pow256;
    UintBack(v, k, rest);
    UintCut(p, q, k, LE(v, k), v, rest);
  }

  /** Any first part of a stream that begins with record m needs no more memory for it than m does. */
  lemma FootprintCut(m: Message, rest: seq<byte>, p: seq<byte>, q: seq<byte>)
    requires Packable(m) && p + q == Encode(m) + rest
    ensures Footprint(p) <= ARG_AREA + DataSize(m.views)
  {
    hide TakeUint, TakeName, LE, EncodeBlob, Announced, ZeroFree, Extent, EncodeViews;
    Widths();
    var b5 := EncodeViews(m.views) + rest;
    var b4 := LE(m.argtype, 8) + b5;
    var b3 := EncodeBlob(m.section, 1) + b4;
    var b2 := EncodeBlob(m.area, 1) + b3;
    var b1 := EncodeBlob(m.ring, 1) + b2;
    var b0 := LE(m.seqnum, 8) + b1;
    assert Encode(m) + rest == LE(m.ts, 8) + b0;
    UintRest(m.ts, 8, b0, p, q);
    var ts := TakeUint(p, 8);
    if ts.Parsed? {
      UintRest(m.seqnum, 8, b1, ts.rest, q);
      var seqnum := TakeUint(ts.rest, 8);
      if seqnum.Parsed? {
        NameCut(m.ring, b2, seqnum.rest, q);
        var ring := TakeName(seqnum.rest);
        if ring.Parsed? {
          NameCut(m.area, b3, ring.rest, q);
          var area := TakeName(ring.rest);
          if area.Parsed? {
            NameCut(m.section, b4, area.rest, q);
            var section := TakeName(area.rest);
            if section.Parsed? {
              UintRest(m.argtype, 8, b5, section.rest, q);
              var w := TakeUint(section.rest, 8);
              if w.Parsed? { ExtentCut(m.argtype, m.views, 0, rest, w.rest, q, ARG_AREA); }
            }
          }
        }
      }
    }
  }

  /**
    * A stream fits a record buffer, however it is cut, if every record's data does behind the sixteen argument
    * words.
    */
  lemma {:induction false} FitsWhen(ms: seq<Message>, p: seq<byte>, size: nat)
    requires forall i :: 0 <= i < |ms| ==> Printed(ms[i]) && ARG_AREA + DataSize(ms[i].views) <= size
    requires size >= ARG_AREA && p <= EncodeAll(ms)
    ensures Fits(p, size)
    decreases |ms|
  {
    hide Encode, Footprint, Decode, Packable, WellNamed, DataSize, Normal;
    var q := EncodeAll(ms)[|p|..];
    assert p + q == EncodeAll(ms);
    GotShrinks(p);
    if ms == [] {
      NothingNeeded(p);
    } else {
      var m, rest := ms[0], EncodeAll(ms[1..]);
      FootprintCut(m, rest, p, q);
      if |Encode(m)| <= |p| {
        var p1 := p[|Encode(m)|..];
        assert p == Encode(m) + p1 by { assert (Encode(m) + rest)[..|Encode(m)|] == Encode(m); }
        DecodeDecides(m, p1);
        assert p1 <= rest;
        FitsWhen(ms[1..], p1, size);
      } else {
        assert p < Encode(m);
        CutShort(m, p);
      }
    }
  }

  lemma NothingNeeded(p: seq<byte>)
    requires p == []
    ensures Footprint(p) == ARG_AREA && !Decode(p).Got?
  {
  }
}
