/** Streams of raw records: what comes back from a whole stream and from any truncation of one. */
module RawStreams {
  import opened Bytes
  import opened RawFormat
  import ArgTypes

  function EncodeAll(ms: seq<Message>): seq<byte>
  {
    if ms == [] then [] else Encode(ms[0]) + EncodeAll(ms[1..])
  }

  /** Calling next() until it returns nothing. */
  datatype Stream = Stream(msgs: seq<Message>, failed: bool)

  function DecodeAll(bs: seq<byte>): Stream
    decreases |bs|
  {
    match Decode(bs)
    case End => Stream([], false)
    case Failure => Stream([], true)
    case Got(m, rest) =>
      GotShrinks(bs);
      var more := DecodeAll(rest);
      Stream([m] + more.msgs, more.failed)
  }

  lemma GotShrinks(bs: seq<byte>)
    ensures Decode(bs).Got? ==> |Decode(bs).rest| < |bs|
  {
    hide TakeBody, FromLE;
    var b1 := TakeUint(bs, 8);
    if b1.Parsed? && TakeUint(b1.rest, 8).Parsed? {
      BodyShrinks(b1.value, TakeUint(b1.rest, 8).value % SEQNUM_RANGE, TakeUint(b1.rest, 8).rest);
    }
  }

  lemma BlobShrinks(bs: seq<byte>, k: nat)
    ensures TakeBlob(bs, k).Parsed? ==> |TakeBlob(bs, k).rest| <= |bs|
  {
    hide FromLE;
  }

  lemma ViewShrinks(t: nat, bs: seq<byte>)
    ensures TakeView(t, bs).Parsed? ==> |TakeView(t, bs).rest| <= |bs|
  {
    hide TakeBlob, FromLE;
    BlobShrinks(bs, 2);
    BlobShrinks(bs, 4);
  }

  lemma {:induction false} ViewsShrink(w: nat, bs: seq<byte>, i: nat)
    ensures TakeViews(w, bs, i).Parsed? ==> |TakeViews(w, bs, i).rest| <= |bs|
    decreases ArgTypes.NARGS - i
  {
    hide TakeView, ArgTypes.GetArgType;
    if i < ArgTypes.NARGS && ArgTypes.GetArgType(w, i) != ArgTypes.NONE {
      ViewShrinks(ArgTypes.GetArgType(w, i), bs);
      if TakeView(ArgTypes.GetArgType(w, i), bs).Parsed? {
        ViewsShrink(w, TakeView(ArgTypes.GetArgType(w, i), bs).rest, i + 1);
      }
    }
  }

  lemma NameShrinks(bs: seq<byte>)
    ensures TakeName(bs).Parsed? ==> |TakeName(bs).rest| <= |bs|
  {
    hide TakeBlob, ValidName, UpToNul;
    BlobShrinks(bs, 1);
  }

  lemma BodyShrinks(ts: nat, seqnum: nat, bs: seq<byte>)
    ensures TakeBody(ts, seqnum, bs).Parsed? ==> |TakeBody(ts, seqnum, bs).rest| <= |bs|
  {
    hide TakeName, TakeViews, FromLE, Remap;
    NameShrinks(bs);
    if TakeName(bs).Parsed? {
      var b1 := TakeName(bs).rest;
      NameShrinks(b1);
      if TakeName(b1).Parsed? {
        var b2 := TakeName(b1).rest;
        NameShrinks(b2);
        if TakeName(b2).Parsed? {
          var b3 := TakeUint(TakeName(b2).rest, 8);
          if b3.Parsed? { ViewsShrink(b3.value, b3.rest, 0); }
        }
      }
    }
  }

  function NormalAll(ms: seq<Message>): (r: seq<Message>)
    ensures |r| == |ms| && forall i :: 0 <= i < |ms| ==> r[i] == Normal(ms[i])
  {
    seq(|ms|, i requires 0 <= i < |ms| => Normal(ms[i]))
  }

  predicate AllPrinted(ms: seq<Message>) { forall i :: 0 <= i < |ms| ==> Printed(ms[i]) }

  /** How many whole records the first n bytes of the stream contain. */
  function Whole(ms: seq<Message>, n: nat): (k: nat)
    ensures k <= |ms|
  {
    if ms == [] || |Encode(ms[0])| > n then 0 else 1 + Whole(ms[1..], n - |Encode(ms[0])|)
  }

  /** Whole counts as many records as fit, and not one more. */
  lemma {:induction false} WholeIsMost(ms: seq<Message>, n: nat)
    ensures |EncodeAll(ms[..Whole(ms, n)])| <= n
    ensures Whole(ms, n) < |ms| ==> |EncodeAll(ms[..Whole(ms, n) + 1])| > n
  {
    hide Encode;
    if ms != [] {
      if |Encode(ms[0])| <= n {
        var k := Whole(ms[1..], n - |Encode(ms[0])|);
        WholeIsMost(ms[1..], n - |Encode(ms[0])|);
        assert ms[..k + 1][1..] == ms[1..][..k];
        if k < |ms| - 1 { assert ms[..k + 2][1..] == ms[1..][..k + 1]; }
      } else {
        assert ms[..1][0] == ms[0] && EncodeAll(ms[..1]) == Encode(ms[0]) + EncodeAll(ms[..1][1..]);
      }
    }
  }

  /**
    * Reading any truncation of a printed stream returns exactly the records that are wholly present,
    * in order; the parser then reports a failure if and only if at least eight bytes of the next
    * record were left.
    */
  lemma {:induction false} ReadTruncated(ms: seq<Message>, p: seq<byte>)
    requires AllPrinted(ms) && p <= EncodeAll(ms)
    ensures |EncodeAll(ms[..Whole(ms, |p|)])| <= |p|
    ensures DecodeAll(p) == Stream(NormalAll(ms[..Whole(ms, |p|)]), |p| - |EncodeAll(ms[..Whole(ms, |p|)])| >= 8)
  {
    hide Encode, Normal, Packable, WellNamed, Decode, TakeUint, NormalAll;
    WholeIsMost(ms, |p|);
    if ms == [] {
      assert Decode(p) == End by { NothingThere(p); }
      assert NormalAll(ms[..0]) == [];
    } else if |Encode(ms[0])| > |p| {
      assert p < Encode(ms[0]) by {
        assert p == EncodeAll(ms)[..|p|] == Encode(ms[0])[..|p|];
      }
      assert NormalAll(ms[..0]) == [];
      CutShort(ms[0], p);
    } else {
      var rest := p[|Encode(ms[0])|..];
      FirstWhole(ms, p);
      DecodeDecides(ms[0], rest);
      GotShrinks(p);
      ReadTruncated(ms[1..], rest);
      FirstAndMore(ms, Whole(ms[1..], |rest|));
    }
  }

  lemma FirstWhole(ms: seq<Message>, p: seq<byte>)
    requires ms != [] && p <= EncodeAll(ms) && |Encode(ms[0])| <= |p|
    ensures p == Encode(ms[0]) + p[|Encode(ms[0])|..] && p[|Encode(ms[0])|..] <= EncodeAll(ms[1..])
  {
    hide Encode;
    var a, b := Encode(ms[0]), EncodeAll(ms[1..]);
    assert EncodeAll(ms) == a + b;
    assert p == (a + b)[..|p|];
  }

  lemma FirstAndMore(ms: seq<Message>, k: nat)
    requires ms != [] && k < |ms|
    ensures EncodeAll(ms[..k + 1]) == Encode(ms[0]) + EncodeAll(ms[1..][..k])
    ensures NormalAll(ms[..k + 1]) == [Normal(ms[0])] + NormalAll(ms[1..][..k])
  {
    hide Encode, Normal;
    assert ms[..k + 1][1..] == ms[1..][..k];
  }

  lemma NothingThere(p: seq<byte>)
    requires |p| == 0
    ensures Decode(p) == End
  {
  }

  /** The whole stream comes back, in normal form, and reading ends without failure. */
  lemma ReadBack(ms: seq<Message>)
    requires AllPrinted(ms)
    ensures DecodeAll(EncodeAll(ms)) == Stream(NormalAll(ms), false)
  {
    hide Printed, DecodeAll, NormalAll;
    ReadTruncated(ms, EncodeAll(ms));
    WholeAll(ms);
    assert ms[..|ms|] == ms;
  }

  lemma {:induction false} WholeAll(ms: seq<Message>)
    ensures Whole(ms, |EncodeAll(ms)|) == |ms|
  {
    hide Encode;
    if ms != [] { WholeAll(ms[1..]); }
  }
}
