/** Giving flushed records back to the writers: rewind to the last flushed record and commit the head. */
module Commits {
  import opened Wrappers
  import opened Rings
  import opened Sharing
  import opened Index
  import opened PollSteps
  import opened Backlogs

  function CommittedEntry(e: IndexEntry): IndexEntry
    requires e.lastrec.Some?
  {
    e.(pos := e.lastrec.value + 1, lastrec := None)
  }

  function CommittedShared(sh: Shared, k: RingId, h: nat): Shared
    requires k in sh.mem
  {
    sh.(mem := sh.mem[k := CommitHead(sh.mem[k], h)])
  }

  lemma LogSamePubs(mem: map<RingId, Ring>, mem': map<RingId, Ring>, done: map<RingId, nat>, log: seq<Delivery>)
    requires LogInv(mem, done, log) && SamePubs(mem, mem')
    ensures LogInv(mem', done, log)
  {
    hide Steady, Proj;
    forall j | 0 <= j < |log| ensures DeliveryOk(mem', log, j) {
      assert DeliveryOk(mem, log, j);
    }
  }

  lemma CommitEntries(mem: map<RingId, Ring>, done: map<RingId, nat>, es: seq<IndexEntry>, i: nat, k: RingId)
    requires EntriesOk(mem, done, es) && Distinct(es)
    requires i < |es| && es[i].ring == Some(k) && k in mem && es[i].lastrec.Some?
    ensures Done(done, k) == es[i].lastrec.value + 1 && !mem[k].Empty()
    ensures EntriesOk(mem[k := CommitHead(mem[k], Done(done, k))], done, es[i := CommittedEntry(es[i])])
    ensures Seqnums(es[i := CommittedEntry(es[i])]) == Seqnums(es)
  {
    var mem', es' := mem[k := CommitHead(mem[k], Done(done, k))], es[i := CommittedEntry(es[i])];
    IndexedKept(es, i, es'[i]);
    assert EntryOk(mem, done, es[i]);
    assert Indexed(es, k);
    forall j | 0 <= j < |es'| ensures EntryOk(mem', done, es'[j]) {
      assert EntryOk(mem, done, es[j]);
      if j != i { assert es[j].ring != Some(k); }
    }
  }

  lemma DropsCommitted(mem: map<RingId, Ring>, mem': map<RingId, Ring>, done: map<RingId, nat>, es: seq<IndexEntry>,
                       log: seq<Delivery>, base: map<RingId, nat>, i: nat, e: IndexEntry)
    requires DropInv(mem, done, es, log, base) && SamePubs(mem, mem') && i < |es|
    requires e.ring == es[i].ring && e.seqnum == es[i].seqnum
    ensures DropInv(mem', done, es[i := e], log, base)
  {
    hide Accounted;
    forall k | k in mem' ensures DropOk(mem', done, log, base, k) {
      assert DropOk(mem, done, log, base, k);
    }
  }

  lemma MemCommitted(mem: map<RingId, Ring>, done: map<RingId, nat>, k: RingId)
    requires MemInv(mem, done) && k in mem
    ensures MemInv(mem[k := CommitHead(mem[k], Done(done, k))], done)
  {
    hide RingInv;
    CommitHeadSafe(mem[k], Done(done, k));
  }

  /** Committing moves the head exactly past what has been delivered. */
  lemma CommitStep(sh: Shared, es: seq<IndexEntry>, done: map<RingId, nat>, log: seq<Delivery>, base: map<RingId, nat>,
                   i: nat, k: RingId)
    requires Core(sh, es, done, None, log, base)
    requires i < |es| && es[i].ring == Some(k) && es[i].lastrec.Some?
    ensures k in sh.mem && !sh.mem[k].Empty()
    ensures var sh' := CommittedShared(sh, k, es[i].lastrec.value + 1);
            var es' := es[i := CommittedEntry(es[i])];
            && Core(sh', es', done, None, log, base)
            && SamePubs(sh.mem, sh'.mem) && PubsGrow(sh.mem, sh'.mem)
            && Seqnums(es') == Seqnums(es)
  {
    hide MemInv, LogInv, EntriesOk, LifeInv, DropInv;
    var h := Done(done, k);
    var sh' := CommittedShared(sh, k, h);
    CommitEntries(sh.mem, done, es, i, k);
    MemCommitted(sh.mem, done, k);
    LogSamePubs(sh.mem, sh'.mem, done, log);
    DropsCommitted(sh.mem, sh'.mem, done, es, log, base, i, CommittedEntry(es[i]));
    IndexOkKept(sh, sh', es, i, CommittedEntry(es[i]));
  }
}
