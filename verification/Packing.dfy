/** Packing an argument list into a record, directly or by way of an argpack. */
module Packing {
  import opened Bytes
  import opened Bits
  import opened ArgTypes
  import opened Arguments

  predicate ArgsOk(env: Env, args: seq<Arg>)
  {
    |args| == NARGS && forall i :: 0 <= i < NARGS ==> Readable(env, args[i])
  }

  /** The number of arguments among the first k. */
  function Count(args: seq<Arg>, k: nat): (n: nat)
    requires k <= |args|
    ensures n <= k
  {
    if k == 0 then 0 else Count(args, k - 1) + (if args[k - 1].t != NONE then 1 else 0)
  }

  /** Data arguments need the argument words to fit in front of them; every ring gives 128 bytes or more. */
  predicate Roomy(args: seq<Arg>, start: nat, tailroom: nat)
  {
    forall i :: 0 <= i < |args| && IsData(args[i].t) ==> start <= tailroom
  }

  /** Where the data of argument k begins. */
  function Offset(env: Env, args: seq<Arg>, start: nat, tailroom: nat, k: nat): (o: nat)
    requires k <= |args| && Roomy(args, start, tailroom)
    requires forall i :: 0 <= i < |args| ==> Readable(env, args[i])
    ensures start <= o && (start <= tailroom ==> o <= tailroom) && (start > tailroom ==> o == start)
  {
    if k == 0 then start
    else
      var o := Offset(env, args, start, tailroom, k - 1);
      if IsData(args[k - 1].t) then o + |PieceOf(env, args[k - 1], tailroom - o).bytes| else o
  }

  lemma {:induction false} OffsetGrows(env: Env, args: seq<Arg>, start: nat, tailroom: nat, j: nat, k: nat)
    requires j <= k <= |args| && Roomy(args, start, tailroom)
    requires forall i :: 0 <= i < |args| ==> Readable(env, args[i])
    ensures Offset(env, args, start, tailroom, j) <= Offset(env, args, start, tailroom, k)
  {
    hide PieceOf, Source, Readable;
    if j < k { OffsetGrows(env, args, start, tailroom, j, k - 1); }
  }

  /** The region that argument i's data occupies. */
  function RegionEnd(env: Env, args: seq<Arg>, start: nat, tailroom: nat, i: nat): nat
    requires i < |args| && Roomy(args, start, tailroom) && IsData(args[i].t)
    requires forall k :: 0 <= k < |args| ==> Readable(env, args[k])
  {
    var o := Offset(env, args, start, tailroom, i);
    o + |PieceOf(env, args[i], tailroom - o).bytes|
  }

  lemma OffsetNext(env: Env, args: seq<Arg>, start: nat, tailroom: nat, i: nat)
    requires i < |args| && Roomy(args, start, tailroom) && IsData(args[i].t)
    requires forall k :: 0 <= k < |args| ==> Readable(env, args[k])
    ensures Offset(env, args, start, tailroom, i + 1) == RegionEnd(env, args, start, tailroom, i)
  {
    hide PieceOf, Source, Readable;
  }

  /**
    * Argument layout: whatever the list, each data argument gets a region between the argument words
    * and the end of the tailroom, and the regions follow each other in argument order.
    */
  lemma ArgumentLayout(env: Env, args: seq<Arg>, start: nat, tailroom: nat, i: nat)
    requires i < |args| && Roomy(args, start, tailroom) && IsData(args[i].t)
    requires forall k :: 0 <= k < |args| ==> Readable(env, args[k])
    ensures start <= Offset(env, args, start, tailroom, i) <= RegionEnd(env, args, start, tailroom, i) <= tailroom
    ensures forall j :: i < j < |args| ==>
      RegionEnd(env, args, start, tailroom, i) <= Offset(env, args, start, tailroom, j)
  {
    hide Offset, PieceOf, Source, Readable;
    OffsetNext(env, args, start, tailroom, i);
    forall j | i < j < |args|
      ensures RegionEnd(env, args, start, tailroom, i) <= Offset(env, args, start, tailroom, j)
    {
      OffsetGrows(env, args, start, tailroom, i + 1, j);
    }
  }

  lemma OffsetStart(env: Env, args: seq<Arg>, start: nat, tailroom: nat)
    requires Roomy(args, start, tailroom) && forall i :: 0 <= i < |args| ==> Readable(env, args[i])
    ensures Offset(env, args, start, tailroom, 0) == start
  {
    hide PieceOf, Source, Readable;
  }

  lemma OffsetAfter(env: Env, args: seq<Arg>, start: nat, tailroom: nat, k: nat)
    requires Roomy(args, start, tailroom) && k < |args| && forall i :: 0 <= i < |args| ==> Readable(env, args[i])
    ensures var o := Offset(env, args, start, tailroom, k);
            && (IsData(args[k].t) ==> o <= tailroom)
            && Offset(env, args, start, tailroom, k + 1)
               == if IsData(args[k].t) then o + |PieceOf(env, args[k], tailroom - o).bytes| else o
  {
    hide PieceOf, Source, Readable;
  }

  // ---------------------------------------------------------------- sequences of stores

  predicate StoresOk(m: seq<byte>, ss: seq<Store>)
  {
    |ss| <= NARGS && forall i :: 0 <= i < |ss| ==> StoreOk(m, i, ss[i])
  }

  /** The memory after the first k stores. */
  function Applied(m: seq<byte>, ss: seq<Store>, k: nat): (r: seq<byte>)
    requires StoresOk(m, ss) && k <= |ss|
    ensures |r| == |m|
  {
    if k == 0 then m else Apply(Applied(m, ss, k - 1), k - 1, ss[k - 1])
  }

  /** Data lies behind every word that is used, and in the order of the arguments. */
  ghost predicate Apart(ss: seq<Store>)
  {
    && (forall i, j :: 0 <= i < |ss| && 0 <= j < |ss| && ss[i].Data? && !ss[j].Nothing? ==> 8 * j + 8 <= ss[i].at)
    && (forall i, j :: 0 <= i < j < |ss| && ss[i].Data? && ss[j].Data? ==> ss[i].at + |ss[i].p.bytes| <= ss[j].at)
  }

  lemma StoreOkSame(m: seq<byte>, r: seq<byte>, i: nat, s: Store)
    requires StoreOk(m, i, s) && |r| == |m|
    ensures StoreOk(r, i, s)
  {
  }

  lemma NothingApplied(m: seq<byte>, i: nat, s: Store)
    requires StoreOk(m, i, s) && s.Nothing?
    ensures Apply(m, i, s) == m
  {
  }

  // ---------------------------------------------------------------- the direct form

  /** set_arg */
  function StoreOf(env: Env, a: Arg, o: nat, tailroom: nat): Store
    requires Readable(env, a) && (IsData(a.t) ==> o <= tailroom)
  {
    if a.t == NONE then Nothing
    else if IsData(a.t) then Data(o, PieceOf(env, a, tailroom - o))
    else if Is32(a.t) then Word(a.val, 4)
    else Word(a.val, 8)
  }

  function Stores(env: Env, args: seq<Arg>, tailroom: nat): (ss: seq<Store>)
    requires ArgsOk(env, args) && Roomy(args, 8 * Count(args, NARGS), tailroom)
    ensures |ss| == NARGS
  {
    seq(NARGS, i requires 0 <= i < NARGS =>
      StoreOf(env, args[i], Offset(env, args, 8 * Count(args, NARGS), tailroom, i), tailroom))
  }

  lemma StoresAt(env: Env, args: seq<Arg>, tailroom: nat, i: nat)
    requires ArgsOk(env, args) && Roomy(args, 8 * Count(args, NARGS), tailroom) && i < NARGS
    ensures var o := Offset(env, args, 8 * Count(args, NARGS), tailroom, i);
            && (IsData(args[i].t) ==> o <= tailroom)
            && Stores(env, args, tailroom)[i] == StoreOf(env, args[i], o, tailroom)
  {
    hide PieceOf, Source, Offset, Count, StoreOf;
  }

  /** Arguments come first, then only empty places. */
  ghost predicate GapFree(args: seq<Arg>, n: nat)
  {
    && n <= |args|
    && (forall i :: 0 <= i < n ==> args[i].t != NONE)
    && (forall i :: n <= i < |args| ==> args[i].t == NONE)
  }

  lemma {:induction false} GapFreeCount(args: seq<Arg>, n: nat, k: nat)
    requires GapFree(args, n) && k <= |args|
    ensures Count(args, k) == Min(k, n)
  {
    if k > 0 { GapFreeCount(args, n, k - 1); }
  }

  lemma StoresAreOk(m: seq<byte>, env: Env, args: seq<Arg>, tailroom: nat)
    requires ArgsOk(env, args) && Roomy(args, 8 * Count(args, NARGS), tailroom)
    requires ARG_AREA <= |m| < WORD && tailroom <= |m|
    ensures StoresOk(m, Stores(env, args, tailroom))
  {
    hide PieceOf, Count, Offset, Source;
  }

  lemma StoresApart(env: Env, args: seq<Arg>, tailroom: nat, n: nat)
    requires ArgsOk(env, args) && GapFree(args, n) && Roomy(args, 8 * n, tailroom)
    ensures Count(args, NARGS) == n && Apart(Stores(env, args, tailroom))
  {
    hide PieceOf, Count, Offset, Source, Readable;
    GapFreeCount(args, n, NARGS);
    var ss := Stores(env, args, tailroom);
    forall i, j | 0 <= i < j < |ss| && ss[i].Data? && ss[j].Data? ensures ss[i].at + |ss[i].p.bytes| <= ss[j].at {
      ArgumentLayout(env, args, 8 * n, tailroom, i);
    }
  }

  /** The type word that set_args and populate build up. */
  function TypeWord(args: seq<Arg>, k: nat): nat
    requires k <= |args|
  {
    if k == 0 then 0
    else if args[k - 1].t == NONE then TypeWord(args, k - 1)
    else SetArgType(TypeWord(args, k - 1), k - 1, args[k - 1].t)
  }

  /** Reading the types back. */
  lemma {:induction false} TypesStored(args: seq<Arg>, k: nat, j: nat)
    requires k <= |args| && forall i :: 0 <= i < |args| ==> args[i].t < 16
    ensures GetArgType(TypeWord(args, k), j) == if j < k then args[j].t else NONE
  {
    hide GetArgType, SetArgType;
    if k == 0 {
      GetIsNib(0, j);
      NibZero(j);
    } else {
      TypesStored(args, k - 1, j);
      if args[k - 1].t != NONE {
        SetThenGet(TypeWord(args, k - 1), k - 1, args[k - 1].t, j);
      }
    }
  }

  lemma {:induction false} TypeWordBounded(args: seq<Arg>, k: nat)
    requires k <= |args| <= NARGS
    ensures TypeWord(args, k) < Pow2(64)
  {
    hide SetArgType, Pow2;
    if k > 0 {
      TypeWordBounded(args, k - 1);
      SetBounded(TypeWord(args, k - 1), k - 1, args[k - 1].t);
    }
  }

  /** The last argument is the n-th, with gaps before it or not. */
  ghost predicate Ends(args: seq<Arg>, n: nat)
  {
    n <= |args| && (n > 0 ==> args[n - 1].t != NONE) && forall i :: n <= i < |args| ==> args[i].t == NONE
  }

  lemma TypeWordCount(args: seq<Arg>, n: nat)
    requires |args| == NARGS && Ends(args, n) && forall i :: 0 <= i < |args| ==> args[i].t < 16
    ensures TypeCount(TypeWord(args, NARGS)) == n
  {
    hide GetArgType, TypeWord, TypeCount, Nib;
    var w := TypeWord(args, NARGS);
    forall j: nat ensures Nib(w, j) == if j < NARGS then args[j].t else NONE {
      TypesStored(args, NARGS, j);
      GetIsNib(w, j);
    }
    TypeCountIs(w, n);
  }
}
