/**
  * The engine's drop count and statistics: what they say about a ring, also when the ring has left the
  * index and come back.
  */
module DropCounts {
  import opened Wrappers
  import opened Rings
  import opened Sharing
  import opened Index
  import opened PollSteps
  import opened Orphans
  import opened Rebuild
  import opened Sorting
  import Tso

  // ---------------------------------------------------------------- drops

  /** The sequence numbers below the expected one that no delivered record carries. */
  ghost function Skipped(pub: seq<Record>, d: nat): set<int>
    requires d <= |pub|
  {
    set s | 0 <= s < Expected(pub, d) && !Carried(pub, d, s)
  }

  /** One of the first d records carries sequence number s. */
  ghost predicate Carried(pub: seq<Record>, d: nat, s: int)
    requires d <= |pub|
  {
    exists i :: 0 <= i < d && pub[i].seqnum == s
  }

  /** n numbers from a on. */
  ghost function Range(a: nat, n: nat): set<int>
  {
    if n == 0 then {} else Range(a, n - 1) + {a + n - 1}
  }

  lemma {:induction false} RangeSize(a: nat, n: nat)
    ensures |Range(a, n)| == n && forall s :: s in Range(a, n) <==> a <= s < a + n
  {
    if n > 0 { RangeSize(a, n - 1); }
  }

  lemma CarriedStep(pub: seq<Record>, d: nat, s: int)
    requires 0 < d <= |pub|
    ensures Carried(pub, d, s) <==> Carried(pub, d - 1, s) || s == pub[d - 1].seqnum
  {
    if Carried(pub, d - 1, s) {
      var i :| 0 <= i < d - 1 && pub[i].seqnum == s;
    }
  }

  lemma SkippedAt(pub: seq<Record>, d: nat, a: nat, b: nat, s: int)
    requires 0 < d <= |pub| && forall i, j :: 0 <= i < j < |pub| ==> pub[i].seqnum < pub[j].seqnum
    requires a == Expected(pub, d - 1) && b == pub[d - 1].seqnum
    ensures s in Skipped(pub, d) <==> s in Skipped(pub, d - 1) || a <= s < b
  {
    CarriedStep(pub, d, s);
    if Carried(pub, d - 1, s) {
      var i :| 0 <= i < d - 1 && pub[i].seqnum == s;
      assert pub[i].seqnum <= pub[d - 2].seqnum;
    }
  }

  /** Below the d-th expected number lie d carried numbers and otherwise skipped ones. */
  lemma {:induction false} SkippedSize(pub: seq<Record>, d: nat)
    requires d <= |pub| && forall i, j :: 0 <= i < j < |pub| ==> pub[i].seqnum < pub[j].seqnum
    ensures d <= Expected(pub, d) && |Skipped(pub, d)| == Expected(pub, d) - d
  {
    if d == 0 {
      assert Skipped(pub, 0) == {};
    } else {
      SkippedSize(pub, d - 1);
      var a, b := Expected(pub, d - 1), pub[d - 1].seqnum;
      var n := b - a;
      RangeSize(a, n);
      var old_, gap, all := Skipped(pub, d - 1), Range(a, n), Skipped(pub, d);
      assert all == old_ + gap by {
        forall s ensures s in all <==> s in old_ + gap {
          SkippedAt(pub, d, a, b, s);
        }
      }
      assert old_ !! gap;
    }
  }

  /** Sequence numbers between the d-th record and the end of the ring are at least as many as the records. */
  lemma {:induction false} Spread(pub: seq<Record>, d: nat, n: nat)
    requires d <= n <= |pub| && forall i, j :: 0 <= i < j < |pub| ==> pub[i].seqnum < pub[j].seqnum
    ensures n - d <= Expected(pub, n) - Expected(pub, d)
    decreases n - d
  {
    if d < n { Spread(pub, d, n - 1); }
  }

  lemma UpToTheEnd(r: Ring, d: nat)
    requires SeqnumsOk(r) && d <= |r.pub|
    ensures Expected(r.pub, d) - d <= r.dropcnt + r.timeouts
  {
    Spread(r.pub, d, |r.pub|);
  }

  /**
    * A ring's share of the drop count is never less than the number of sequence numbers below the last
    * delivered one that were taken but not published.  For a ring that has not come back after an
    * absence it is exactly that number, and when the last record taken from the ring has been
    * delivered, that is the pushes a full ring refused plus the flushes that timed out waiting for room.
    */
  lemma DropShare(sh: Shared, es: seq<IndexEntry>, done: map<RingId, nat>, owed: Option<RingId>,
                  log: seq<Delivery>, base: map<RingId, nat>, k: RingId)
    requires Core(sh, es, done, owed, log, base) && k in sh.mem
    ensures Done(done, k) <= |sh.mem[k].pub|
    ensures Missed(log, k) >= |Skipped(sh.mem[k].pub, Done(done, k))|
    ensures Base(base, k) == 0 ==>
      && Missed(log, k) == |Skipped(sh.mem[k].pub, Done(done, k))| <= sh.mem[k].dropcnt + sh.mem[k].timeouts
      && (Done(done, k) == |sh.mem[k].pub| && Expected(sh.mem[k].pub, Done(done, k)) == sh.mem[k].seqnum ==>
            Missed(log, k) == sh.mem[k].dropcnt + sh.mem[k].timeouts)
  {
    hide LifeInv, IndexOk, EntriesOk, LogInv, Missed, TailOk, SlotOk;
    var r, d := sh.mem[k], Done(done, k);
    assert RingInv(r, d) && DropOk(sh.mem, done, log, base, k);
    SkippedSize(r.pub, d);
    UpToTheEnd(r, d);
  }

  // ---------------------------------------------------------------- rings that come back

  /**
    * The drop count of an indexed ring that has delivered since it came into the index is too high by
    * exactly what the ring had accounted for when it came in.  So it is right if and only if that was
    * nothing.
    */
  lemma ReturningRing(sh: Shared, es: seq<IndexEntry>, done: map<RingId, nat>, owed: Option<RingId>,
                      log: seq<Delivery>, base: map<RingId, nat>, i: nat, k: RingId)
    requires Core(sh, es, done, owed, log, base) && i < |es| && es[i].ring == Some(k) && es[i].seqnum > 0
    ensures k in sh.mem && Done(done, k) <= |sh.mem[k].pub|
    ensures Missed(log, k) == |Skipped(sh.mem[k].pub, Done(done, k))| + Base(base, k)
    ensures Missed(log, k) == |Skipped(sh.mem[k].pub, Done(done, k))| <==> Base(base, k) == 0
  {
    hide LifeInv, IndexOk, EntriesOk, LogInv, Missed, TailOk, SlotOk;
    assert k in sh.mem && es[i].seqnum + Base(base, k) == Accounted(log, done, k);
    assert RingInv(sh.mem[k], Done(done, k)) && DropOk(sh.mem, done, log, base, k);
    SkippedSize(sh.mem[k].pub, Done(done, k));
  }

  /** What the shared state and the index are after ring k of entry i has been killed and released. */
  function AfterKill(sh: Shared, k: RingId): Shared
    requires k in sh.life
  {
    ReleasedShared(KilledShared(sh, k), k)
  }

  /**
    * How a ring comes back: it is killed although a thread has found it again, that thread registers
    * it, and the next poll rebuilds the index.  The ring's new entry expects sequence number 0, and
    * everything the ring has accounted for so far becomes the error of its drop count, as
    * `ReturningRing` says.
    */
  lemma KilledAndBack(sh: Shared, es: seq<IndexEntry>, done: map<RingId, nat>, log: seq<Delivery>,
                      base: map<RingId, nat>, i: nat, k: RingId, sh': Shared, es': seq<IndexEntry>)
    requires Core(sh, es, done, None, log, base) && !sh.quiet
    requires PollOk(sh.mem, done, es, 0) && PollOk(sh.mem, done, es, |es|) && TsoInv(sh.mem, done, es, |es|, multiset{})
    requires i < |es| && es[i].ring == Some(k) && k in sh.mem && k in sh.life && sh.life[k].holders > 0
    requires Done(done, k) == sh.mem[k].h == es[i].pos
    requires EnvEnabled(AfterKill(sh, k), Register(k)) ==>
      sh' == EnvDo(AfterKill(sh, k), Register(k)) && Rebuilt(sh', es[i := KilledEntry(es[i])], es')
    ensures EnvEnabled(AfterKill(sh, k), Register(k))
    ensures Core(sh'.(dirty := false), es', done, None, log,
                 Rebased(sh'.mem, es[i := KilledEntry(es[i])], es', done, log, base))
    ensures exists j :: 0 <= j < |es'| && es'[j].ring == Some(k) && es'[j].seqnum == 0
    ensures Base(Rebased(sh'.mem, es[i := KilledEntry(es[i])], es', done, log, base), k) == Accounted(log, done, k)
  {
    hide RingInv, LifeInv, LogInv, DropInv, EntriesOk, MemInv, SortedBy, TsoInv, Accounted, MemRely, LifeRely,
      OldSeqnum;
    KillStep(sh, es, done, log, base, |es|, multiset{}, i, k);
    var es1, sh1 := es[i := KilledEntry(es[i])], AfterKill(sh, k);
    ReleaseStep(KilledShared(sh, k), es1, done, log, base, k);
    EnvSafe(sh1, Register(k), done, None);
    CoreStable(sh1, sh', es1, done, None, log, base);
    RebuildStep(sh', es1, es', done, log, base);
    KillIndexed(es, i, k);
    assert Indexed(es', sh'.regs[sh.life[k].name]);
    var j :| 0 <= j < |es'| && es'[j].ring == Some(k);
    NewEntry(sh', es1, es', j);
  }

  lemma NewEntry(sh: Shared, old_: seq<IndexEntry>, es: seq<IndexEntry>, j: nat)
    requires Rebuilt(sh, old_, es) && j < |es| && es[j].ring.Some? && !Indexed(old_, es[j].ring.value)
    ensures es[j].seqnum == 0
  {
    hide SortedBy;
    assert FreshEntry(sh, old_, es[j]);
  }

  const RECORD0 := Record(1, 0, 10, 0, 0, 0, [])
  const RECORD1 := Record(1, 0, 11, 1, 0, 0, [])

  /** Ring 0 has published and delivered two records, without a drop. */
  const TWO_OUT := Ring(2, false, [RECORD0, RECORD1], 2, [RECORD0, RECORD1], 2, 0, 0, Idle)

  /** It came back into the index between them. */
  const BACK :=
    Shared(map[0 := TWO_OUT], map[0 := Life("ring", 0, false, 2, 1, true)], map["ring" := 0], false, 0, false, [])
  const BACK_INDEX := [IndexEntry(Some(0), 2, 2, None, 2)]
  const BACK_DONE: map<RingId, nat> := map[0 := 2]
  const BACK_LOG := [Delivery(Tso.Entry(10, 0, 0, 0), RECORD0, 0), Delivery(Tso.Entry(11, 0, 1, 0), RECORD1, 1)]

  lemma BackRing()
    ensures RingInv(TWO_OUT, 2) && MemInv(BACK.mem, BACK_DONE)
  {
    assert Addr(0, 2) == 0 && Addr(1, 2) == 1;
  }

  lemma BackLife()
    ensures LifeInv(BACK.life, BACK.regs, None) && IndexOk(BACK, BACK_INDEX)
  {
    assert Registered(BACK.life, BACK.regs, 0);
    assert BACK_INDEX[0].ring == Some(0) && Indexed(BACK_INDEX, 0);
  }

  lemma BackLog()
    ensures LogInv(BACK.mem, BACK_DONE, BACK_LOG) && Missed(BACK_LOG, 0) == 1
  {
    var log := BACK_LOG;
    assert log[..0] == [] && log[..1] == [log[0]] && log[..1][..0] == [];
    assert Missed(log[..1], 0) == 0;
    assert Proj(log[..1], 0) == [RECORD0] && Proj(log, 0) == [RECORD0, RECORD1];
    assert DeliveryOk(BACK.mem, log, 0) && DeliveryOk(BACK.mem, log, 1);
  }

  lemma NothingSkipped()
    ensures Skipped(TWO_OUT.pub, 2) == {}
  {
    forall s ensures s !in Skipped(TWO_OUT.pub, 2) {
      assert TWO_OUT.pub[0].seqnum == 0 && TWO_OUT.pub[1].seqnum == 1;
    }
  }

  /** A state in which one drop has been counted although no sequence number was skipped. */
  lemma Miscounted()
    ensures Core(BACK, BACK_INDEX, BACK_DONE, None, BACK_LOG, map[0 := 1])
    ensures Missed(BACK_LOG, 0) == 1 && Skipped(TWO_OUT.pub, 2) == {} && TWO_OUT.dropcnt == TWO_OUT.timeouts == 0
  {
    hide MemInv, LifeInv, IndexOk, LogInv, Missed, Skipped;
    BackRing();
    BackLife();
    BackLog();
    NothingSkipped();
    assert Indexed(BACK_INDEX, 0) by { assert BACK_INDEX[0].ring == Some(0); }
  }

  // ---------------------------------------------------------------- statistics

  ghost function Total(ks: set<RingId>, w: RingId -> int): int
  {
    if ks == {} then 0 else
      var k :| k in ks;
      Total(ks - {k}, w) + w(k)
  }

  /** The order in which a total is added up does not matter. */
  lemma {:induction false} TotalTakeOut(ks: set<RingId>, w: RingId -> int, k: RingId)
    requires k in ks
    ensures Total(ks, w) == Total(ks - {k}, w) + w(k)
    decreases |ks|
  {
    var j :| j in ks && Total(ks, w) == Total(ks - {j}, w) + w(j);
    if j != k {
      TotalTakeOut(ks - {j}, w, k);
      TotalTakeOut(ks - {k}, w, j);
      assert ks - {j} - {k} == ks - {k} - {j};
    }
  }

  /** Two weights that differ by v at k and agree elsewhere. */
  lemma {:induction false} TotalChange(ks: set<RingId>, w: RingId -> int, w': RingId -> int, k: RingId, v: int)
    requires k in ks && w'(k) == w(k) + v && forall j :: j in ks && j != k ==> w'(j) == w(j)
    ensures Total(ks, w') == Total(ks, w) + v
  {
    TotalTakeOut(ks, w, k);
    TotalTakeOut(ks, w', k);
    TotalSame(ks - {k}, w, w');
  }

  lemma {:induction false} TotalSame(ks: set<RingId>, w: RingId -> int, w': RingId -> int)
    requires forall j :: j in ks ==> w'(j) == w(j)
    ensures Total(ks, w') == Total(ks, w)
    decreases |ks|
  {
    if ks != {} {
      var j :| j in ks;
      TotalTakeOut(ks, w, j);
      TotalTakeOut(ks, w', j);
      TotalSame(ks - {j}, w, w');
    }
  }

  /** What ring k has contributed to recs_out and recs_dropped. */
  function Contributed(log: seq<Delivery>): RingId -> int { (k: RingId) => |Proj(log, k)| + Missed(log, k) }

  lemma {:induction false} LogTotals(log: seq<Delivery>, ks: set<RingId>)
    requires forall j :: 0 <= j < |log| ==> log[j].te.ring in ks
    ensures |log| + TotalMissed(log) == Total(ks, Contributed(log))
  {
    if log == [] {
      TotalSame(ks, k => 0, Contributed(log));
      TotalZero(ks);
    } else {
      var n := |log| - 1;
      LogTotals(log[..n], ks);
      TotalChange(ks, Contributed(log[..n]), Contributed(log), log[n].te.ring, 1 + log[n].missed);
    }
  }

  lemma {:induction false} TotalZero(ks: set<RingId>)
    ensures Total(ks, k => 0) == 0
    decreases |ks|
  {
    if ks != {} {
      var w: RingId -> int := k => 0;
      var j :| j in ks;
      TotalTakeOut(ks, w, j);
      TotalZero(ks - {j});
      TotalSame(ks - {j}, k => 0, w);
      TotalSame(ks, k => 0, w);
    }
  }

  lemma {:induction false} TotalAdds(ks: set<RingId>, u: RingId -> int, v: RingId -> int, w: RingId -> int)
    requires forall k :: k in ks ==> w(k) == u(k) + v(k)
    ensures Total(ks, w) == Total(ks, u) + Total(ks, v)
    decreases |ks|
  {
    if ks != {} {
      var j :| j in ks;
      TotalTakeOut(ks, u, j);
      TotalTakeOut(ks, v, j);
      TotalTakeOut(ks, w, j);
      TotalAdds(ks - {j}, u, v, w);
    }
  }

  lemma {:induction false} TotalZeroIff(ks: set<RingId>, w: RingId -> int)
    requires forall k :: k in ks ==> w(k) >= 0
    ensures Total(ks, w) >= 0 && (Total(ks, w) == 0 <==> forall k :: k in ks ==> w(k) == 0)
    decreases |ks|
  {
    if ks != {} {
      var j :| j in ks;
      TotalTakeOut(ks, w, j);
      TotalZeroIff(ks - {j}, w);
      if Total(ks, w) == 0 {
        assert forall k :: k in ks ==> k == j || k in ks - {j};
      }
    }
  }

  /** The sequence number after the last delivered record of ring k. */
  ghost function ExpectedSeqnums(mem: map<RingId, Ring>, done: map<RingId, nat>): RingId -> int
  {
    (k: RingId) => if k in mem && Done(done, k) <= |mem[k].pub| then Expected(mem[k].pub, Done(done, k)) else 0
  }

  /** By how much the count of ring k is too high: by its base, once it has delivered on top of it. */
  ghost function Excess(mem: map<RingId, Ring>, done: map<RingId, nat>, log: seq<Delivery>,
                        base: map<RingId, nat>): RingId -> int
  {
    (k: RingId) =>
      Base(base, k) - (if Accounted(log, done, k) == Base(base, k) then ExpectedSeqnums(mem, done)(k) else 0)
  }

  /**
    * Conservation: recs_out + recs_dropped is the sum, over all rings there have ever been, of the
    * sequence number that follows the ring's last delivered record, plus the excess of the rings that
    * came back.  It is exactly the former if and only if no ring has an excess.
    */
  lemma Conservation(sh: Shared, es: seq<IndexEntry>, done: map<RingId, nat>, owed: Option<RingId>,
                     log: seq<Delivery>, base: map<RingId, nat>)
    requires Core(sh, es, done, owed, log, base)
    ensures |log| + TotalMissed(log)
      == Total(sh.mem.Keys, ExpectedSeqnums(sh.mem, done)) + Total(sh.mem.Keys, Excess(sh.mem, done, log, base))
    ensures |log| + TotalMissed(log) == Total(sh.mem.Keys, ExpectedSeqnums(sh.mem, done))
      <==> forall k :: k in sh.mem ==> Excess(sh.mem, done, log, base)(k) == 0
    ensures forall k :: k in sh.mem && Base(base, k) == 0 ==> Excess(sh.mem, done, log, base)(k) == 0
  {
    hide SharedInv, IndexOk, EntriesOk, Proj, Missed, Steady, TotalMissed, Total;
    forall j | 0 <= j < |log| ensures log[j].te.ring in sh.mem.Keys {
      assert DeliveryOk(sh.mem, log, j);
    }
    LogTotals(log, sh.mem.Keys);
    var x, e := ExpectedSeqnums(sh.mem, done), Excess(sh.mem, done, log, base);
    forall k | k in sh.mem
      ensures Contributed(log)(k) == x(k) + e(k) && e(k) >= 0 && (Base(base, k) == 0 ==> e(k) == 0)
    {
      assert DropOk(sh.mem, done, log, base, k);
    }
    TotalAdds(sh.mem.Keys, x, e, Contributed(log));
    TotalZeroIff(sh.mem.Keys, e);
  }
}
