/** The buffered output stream and the packer that prints raw records into it. */
module RawPackers {
  import opened Wrappers
  import opened Bytes
  import opened Bits
  import opened ArgTypes
  import opened Arguments
  import opened RawFormat
  import opened RecordBuffers

  /** An output stream with a buffer of any size, none included; `sink` is what the file has received. */
  class OstrBuf {
    const data: array<byte>
    var size: nat
    var sink: seq<byte>

    ghost predicate Valid()
      reads this
    {
      size <= data.Length
    }

    /** Everything that has been pushed, in order. */
    ghost function Stream(): seq<byte>
      reads this, data
      requires Valid()
    {
      sink + data[..size]
    }

    constructor (capacity: nat)
      ensures Valid() && Stream() == [] && sink == [] && fresh(data) && data.Length == capacity
    {
      data := new byte[capacity](_ => 0);
      size, sink := 0, [];
    }

    function Room(): (r: int)
      reads this
    {
      data.Length - size
    }

    method DoCopy(s: seq<byte>)
      requires Valid() && |s| <= Room()
      modifies this`size, data
      ensures Valid() && Stream() == old(Stream()) + s
    {
      forall k | 0 <= k < |s| {
        data[size + k] := s[k];
      }
      assert data[..size + |s|] == old(data[..size]) + s;
      size := size + |s|;
    }

    /** Write out what is buffered, then the new data. */
    method DoFlush(s: seq<byte>)
      requires Valid()
      modifies this`size, this`sink
      ensures Valid() && size == 0 && sink == old(Stream()) + s && Stream() == sink
    {
      sink := sink + data[..size] + s;
      size := 0;
    }

    /** Data that does not fit goes straight through, behind what is buffered. */
    method PushBack(s: seq<byte>)
      requires Valid()
      modifies this, data
      ensures Valid() && Stream() == old(Stream()) + s
    {
      if |s| > Room() {
        DoFlush(s);
      } else {
        DoCopy(s);
      }
    }

    method Flush()
      requires Valid()
      modifies this`size, this`sink
      ensures Valid() && size == 0 && sink == old(Stream()) && Stream() == sink
    {
      DoFlush([]);
    }
  }

  /** An area with its section names. */
  datatype Area = Area(name: seq<byte>, sections: seq<seq<byte>>)

  /** What a record says beside its arguments. */
  datatype Header = Header(ts: nat, seqnum: nat, ring: seq<byte>, area: Option<Area>, section: nat)

  const INVALID: seq<byte> := [73, 78, 86, 65, 76, 73, 68]   // "INVALID"

  function AreaName(h: Header): seq<byte> { if h.area.Some? then h.area.value.name else INVALID }

  function SectionName(h: Header): seq<byte>
  {
    if h.area.Some? && h.section < |h.area.value.sections| then h.area.value.sections[h.section] else INVALID
  }

  /** The record that a header and the argument memory stand for. */
  function MessageOf(h: Header, w: nat, m: seq<byte>, heap: seq<byte>): Message
    requires ARG_AREA <= |m| && Sound(w, m, heap, 0)
  {
    Message(h.ts, h.seqnum, h.ring, AreaName(h), SectionName(h), w, Views(w, m, heap, 0))
  }

  lemma ViewsNext(w: nat, m: seq<byte>, heap: seq<byte>, i: nat)
    requires ARG_AREA <= |m| && Sound(w, m, heap, i) && i < NARGS && GetArgType(w, i) != NONE
    ensures ArgSound(w, m, heap, i) && Sound(w, m, heap, i + 1)
    ensures EncodeViews(Views(w, m, heap, i))
      == EncodeView(ViewAt(w, m, heap, i)) + EncodeViews(Views(w, m, heap, i + 1))
  {
    hide EncodeView, ViewAt, ArgSound, GetArgType;
    assert Views(w, m, heap, i)[1..] == Views(w, m, heap, i + 1);
  }

  lemma ViewsEnd(w: nat, m: seq<byte>, heap: seq<byte>, i: nat)
    requires ARG_AREA <= |m| && Sound(w, m, heap, i) && (i >= NARGS || GetArgType(w, i) == NONE)
    ensures EncodeViews(Views(w, m, heap, i)) == []
  {
  }

  class RawPacker {
    const sb: OstrBuf

    constructor (sb: OstrBuf)
      ensures this.sb == sb
    {
      this.sb := sb;
    }

    method AddUint(v: nat, k: nat)
      requires sb.Valid()
      modifies sb, sb.data
      ensures sb.Valid() && sb.Stream() == old(sb.Stream()) + LE(v, k)
    {
      sb.PushBack(LE(v, k));
    }

    /** A blob is cut to the length its prefix can express. */
    method AddBlob(s: seq<byte>, k: nat)
      requires sb.Valid()
      modifies sb, sb.data
      ensures sb.Valid() && sb.Stream() == old(sb.Stream()) + EncodeBlob(s, k)
    {
      hide LE;
      var n := Min(|s|, Pow256(k) - 1);
      AddUint(n, k);
      sb.PushBack(s[..n]);
    }

    /** One argument, by its type. */
    method AddArg(r: RecordBuf, heap: seq<byte>, i: nat)
      requires sb.Valid() && r.Valid() && i < NARGS && r.argval != sb.data
      requires ArgSound(r.argtype, r.argval[..], heap, i)
      modifies sb, sb.data
      ensures sb.Valid()
      ensures sb.Stream() == old(sb.Stream()) + EncodeView(ViewAt(r.argtype, r.argval[..], heap, i))
    {
      hide LE, EncodeBlob, ArgData, Val32, Val64, GetArgType, CString;
      var t := GetArgType(r.argtype, i);
      if t == XDUMP || t == RAW {
        AddBlob(ArgData(r.argval[..], i), 4);
      } else if t == CSTR {
        AddBlob(ArgData(r.argval[..], i), 2);
      } else if t == GSTR {
        AddBlob(CString(heap, Val64(r.argval[..], i)), 2);
      } else if t == INT32 || t == UINT32 {
        AddUint(Val32(r.argval[..], i), 4);
      } else {
        AddUint(Val64(r.argval[..], i), 8);
      }
    }

    /** The type word, then the arguments up to the first missing one. */
    method AddArgs(r: RecordBuf, heap: seq<byte>)
      requires sb.Valid() && r.Valid() && r.argval != sb.data
      requires Sound(r.argtype, r.argval[..], heap, 0)
      modifies sb, sb.data
      ensures sb.Valid()
      ensures sb.Stream() == old(sb.Stream()) + EncodeArgs(r.argtype, Views(r.argtype, r.argval[..], heap, 0))
    {
      hide LE, GetArgType, EncodeView, EncodeViews, ViewAt, ArgSound, Sound, Views;
      ghost var w, m := r.argtype, r.argval[..];
      ghost var all := old(sb.Stream()) + EncodeArgs(w, Views(w, m, heap, 0));
      AddUint(r.argtype, 8);
      assert sb.Stream() + EncodeViews(Views(w, m, heap, 0)) == all;
      var i := 0;
      while i < NARGS
        invariant 0 <= i <= NARGS && sb.Valid() && Sound(w, m, heap, i) && r.argval[..] == m
        invariant sb.Stream() + EncodeViews(Views(w, m, heap, i)) == all
      {
        if GetArgType(r.argtype, i) == NONE {
          ViewsEnd(w, m, heap, i);
          return;
        }
        ViewsNext(w, m, heap, i);
        ghost var before := sb.Stream();
        AddArg(r, heap, i);
        assert before + (EncodeView(ViewAt(w, m, heap, i)) + EncodeViews(Views(w, m, heap, i + 1)))
            == sb.Stream() + EncodeViews(Views(w, m, heap, i + 1));
        i := i + 1;
      }
      ViewsEnd(w, m, heap, i);
    }

    /** Print a record; one without an area is printed with placeholder names. */
    method Pack(h: Header, r: RecordBuf, heap: seq<byte>)
      requires sb.Valid() && r.Valid() && r.argval != sb.data
      requires Sound(r.argtype, r.argval[..], heap, 0)
      modifies sb, sb.data
      ensures sb.Valid()
      ensures sb.Stream() == old(sb.Stream()) + Encode(MessageOf(h, r.argtype, r.argval[..], heap))
    {
      hide LE, EncodeBlob, EncodeArgs, Sound, Views, OstrBuf.Stream;
      var areaName, sectName := INVALID, INVALID;
      match h.area {
        case Some(area) =>
          areaName := area.name;
          if h.section < |area.sections| {
            sectName := area.sections[h.section];
          }
        case None =>
      }
      ghost var s := sb.Stream();
      ghost var args := EncodeArgs(r.argtype, Views(r.argtype, r.argval[..], heap, 0));
      AddUint(h.ts, 8);
      AddUint(h.seqnum, 8);
      AddBlob(h.ring, 1);
      AddBlob(areaName, 1);
      AddBlob(sectName, 1);
      AddArgs(r, heap);
      Regroup(s, LE(h.ts, 8), LE(h.seqnum, 8), EncodeBlob(h.ring, 1), EncodeBlob(areaName, 1),
              EncodeBlob(sectName, 1), args);
    }
  }

  lemma Regroup(s: seq<byte>, a: seq<byte>, b: seq<byte>, c: seq<byte>, d: seq<byte>, e: seq<byte>, f: seq<byte>)
    ensures s + a + b + c + d + e + f == s + (a + (b + (c + (d + (e + f)))))
  {
    assert e + f + [] == e + f;
    assert s + a + b + c + d + e + f == s + a + b + c + d + (e + f) == s + a + b + c + (d + (e + f));
    assert s + a + b + c + (d + (e + f)) == s + a + b + (c + (d + (e + f))) == s + a + (b + (c + (d + (e + f))));
  }
}
