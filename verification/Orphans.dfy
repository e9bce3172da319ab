/** Taking orphaned rings out of the index and out of the ring map. */
module Orphans {
  import opened Wrappers
  import opened Rings
  import opened Sharing
  import opened Sums
  import opened Index
  import opened PollSteps
  import opened Backlogs
  import Tso

  /** kill_orphan under the lock: the ring leaves the map, its entry is invalidated, the index is dirty. */
  function KilledShared(sh: Shared, k: RingId): Shared
    requires k in sh.life
  {
    sh.(regs := sh.regs - {sh.life[k].name}, dirty := true)
  }

  function KilledEntry(e: IndexEntry): IndexEntry { e.(ring := None, pos := 0, lim := 0) }

  /** release() of the reference that the map held. */
  function ReleasedShared(sh: Shared, k: RingId): Shared
    requires k in sh.life
  {
    sh.(life := sh.life[k := DropRef(sh.life[k])])
  }

  lemma KillLife(life: map<RingId, Life>, regs: map<string, RingId>, k: RingId)
    requires LifeInv(life, regs, None) && k in life && Registered(life, regs, k)
    ensures LifeInv(life, regs - {life[k].name}, Some(k))
    ensures forall j :: j in life && j != k && Registered(life, regs, j) ==> Registered(life, regs - {life[k].name}, j)
  {
    var regs' := regs - {life[k].name};
    forall j | j in life ensures LifeOk(life, regs', Some(k), j) {
      assert LifeOk(life, regs, None, j);
    }
  }

  lemma KillIndexed(es: seq<IndexEntry>, i: nat, k: RingId)
    requires Distinct(es) && i < |es| && es[i].ring == Some(k)
    ensures var es' := es[i := KilledEntry(es[i])];
            && Distinct(es') && !Indexed(es', k)
            && forall j: RingId :: j != k ==> (Indexed(es', j) <==> Indexed(es, j))
  {
    var es' := es[i := KilledEntry(es[i])];
    forall j: RingId | j != k ensures Indexed(es', j) <==> Indexed(es, j) {
      if Indexed(es, j) {
        var a :| 0 <= a < |es| && es[a].ring == Some(j);
        assert es'[a].ring == Some(j);
      }
      if Indexed(es', j) {
        var a :| 0 <= a < |es'| && es'[a].ring == Some(j);
        assert es[a].ring == Some(j);
      }
    }
    forall a | 0 <= a < |es'| ensures es'[a].ring != Some(k) {
      if a != i { assert es[a].ring != Some(k); }
    }
  }

  lemma KillEntries(mem: map<RingId, Ring>, done: map<RingId, nat>, es: seq<IndexEntry>, n: nat, i: nat, k: RingId)
    requires EntriesOk(mem, done, es) && PollOk(mem, done, es, n) && Distinct(es)
    requires i < n && es[i].ring == Some(k) && k in mem && Done(done, k) == mem[k].h == es[i].pos
    ensures var es' := es[i := KilledEntry(es[i])];
            && EntriesOk(mem, done, es') && PollOk(mem, done, es', n)
            && Seqnums(es') == Seqnums(es)
  {
    hide Indexed;
    var es' := es[i := KilledEntry(es[i])];
    KillIndexed(es, i, k);
    forall j | 0 <= j < |es'| ensures EntryOk(mem, done, es'[j]) {
      assert EntryOk(mem, done, es[j]);
    }
  }

  lemma KillUnflushed(done: map<RingId, nat>, es: seq<IndexEntry>, n: nat, i: nat, k: RingId)
    requires i < n <= |es| && es[i].ring == Some(k) && Done(done, k) == es[i].pos
    ensures Sum(Unflushed(es[i := KilledEntry(es[i])], done, n)) == Sum(Unflushed(es, done, n))
  {
    assert Unflushed(es[i := KilledEntry(es[i])], done, n) == Unflushed(es, done, n)[i := 0];
    SumUpdate(Unflushed(es, done, n), i, 0);
  }

  /** A ring that is empty has nothing in the buffer, so no buffered entry loses its index entry. */
  lemma KillTso(mem: map<RingId, Ring>, done: map<RingId, nat>, es: seq<IndexEntry>, n: nat,
                m: multiset<Tso.Entry>, i: nat, k: RingId)
    requires TsoInv(mem, done, es, n, m) && i < n <= |es| && es[i].ring == Some(k) && k in mem
    requires Done(done, k) == es[i].pos
    ensures TsoInv(mem, done, es[i := KilledEntry(es[i])], n, m)
  {
    hide Steady, Holds;
    var es' := es[i := KilledEntry(es[i])];
    forall e | e in m ensures TsoEntryOk(mem, done, es', n, e) {
      assert TsoEntryOk(mem, done, es, n, e);
    }
  }

  /**
    * Killing an orphan is safe for the poll in progress: no buffered entry is tagged with the
    * invalidated entry, and every invariant of the engine survives.
    */
  lemma KillStep(sh: Shared, es: seq<IndexEntry>, done: map<RingId, nat>, log: seq<Delivery>, base: map<RingId, nat>,
                 n: nat, m: multiset<Tso.Entry>, i: nat, k: RingId)
    requires Core(sh, es, done, None, log, base)
    requires PollOk(sh.mem, done, es, n) && TsoInv(sh.mem, done, es, n, m)
    requires i < n && i < |es| && es[i].ring == Some(k) && k in sh.mem
    requires Done(done, k) == sh.mem[k].h == es[i].pos
    ensures k in sh.life && Registered(sh.life, sh.regs, k) && sh.life[k].alive
    ensures var es' := es[i := KilledEntry(es[i])];
            && Core(KilledShared(sh, k), es', done, Some(k), log, base)
            && PollOk(sh.mem, done, es', n) && TsoInv(sh.mem, done, es', n, m)
            && Sum(Unflushed(es', done, n)) == Sum(Unflushed(es, done, n)) && Seqnums(es') == Seqnums(es)
  {
    hide RingInv, LogInv, EntriesOk, TsoInv, MemInv, LifeInv, Sum, Missed, Unflushed;
    KillLife(sh.life, sh.regs, k);
    KillIndexed(es, i, k);
    KillEntries(sh.mem, done, es, n, i, k);
    KillUnflushed(done, es, n, i, k);
    KillTso(sh.mem, done, es, n, m, i, k);
    LifeOkOf(sh.life, sh.regs, None, k);
  }

  lemma ReleaseLife(life: map<RingId, Life>, regs: map<string, RingId>, k: RingId)
    requires LifeInv(life, regs, Some(k)) && k in life
    ensures life[k].alive && life[k].refs >= 1
    ensures LifeInv(life[k := DropRef(life[k])], regs, None)
  {
    var life' := life[k := DropRef(life[k])];
    assert LifeOk(life, regs, Some(k), k);
    forall j | j in life' ensures LifeOk(life', regs, None, j) {
      assert LifeOk(life, regs, Some(k), j);
    }
  }

  lemma ReleaseStep(sh: Shared, es: seq<IndexEntry>, done: map<RingId, nat>, log: seq<Delivery>, base: map<RingId, nat>,
                    k: RingId)
    requires Core(sh, es, done, Some(k), log, base)
    ensures k in sh.life && sh.life[k].alive && sh.life[k].refs >= 1
    ensures Core(ReleasedShared(sh, k), es, done, None, log, base)
  {
    hide RingInv, LogInv, EntriesOk, MemInv, Missed, DropInv;
    ReleaseLife(sh.life, sh.regs, k);
    assert ReleasedShared(sh, k).life.Keys == sh.life.Keys;
  }
}
