/**
  * The engine's private state during a poll, as predicates over values, and the lemmas that say
  * which steps keep them: the ring index, the contents of the ordering buffer and the delivery log.
  */
module Index {
  import opened Wrappers
  import opened Rings
  import opened Sharing
  import opened Sums
  import Tso

  /** An index entry: iterator (next position, snapshot limit), last flushed position, expected seqnum. */
  datatype IndexEntry = IndexEntry(ring: Option<RingId>, pos: nat, lim: nat, lastrec: Option<nat>, seqnum: nat)

  /** One call of flush_record: the entry popped, the record read, and the drops counted just before. */
  datatype Delivery = Delivery(te: Tso.Entry, rec: Record, missed: nat)

  // ---------------------------------------------------------------- the index

  ghost predicate Indexed(es: seq<IndexEntry>, k: RingId)
  {
    exists i :: 0 <= i < |es| && es[i].ring == Some(k)
  }

  ghost predicate Distinct(es: seq<IndexEntry>)
  {
    forall i, j :: 0 <= i < j < |es| && es[i].ring.Some? ==> es[i].ring != es[j].ring
  }

  /** Valid entries belong to registered (hence live) rings, no ring is indexed twice, none is forgotten. */
  ghost predicate IndexOk(sh: Shared, es: seq<IndexEntry>)
  {
    && (forall i :: 0 <= i < |es| && es[i].ring.Some? ==>
          var k := es[i].ring.value; k in sh.mem && k in sh.life && Registered(sh.life, sh.regs, k))
    && Distinct(es)
    && (!sh.dirty ==> forall i :: 0 <= i < |es| ==> es[i].ring.Some?)
    && (Settled(sh) ==> forall n :: n in sh.regs ==> Indexed(es, sh.regs[n]))
  }

  /** The sequence number that follows the first d records. */
  function Expected(pub: seq<Record>, d: nat): nat
    requires d <= |pub|
  {
    if d == 0 then 0 else pub[d - 1].seqnum + 1
  }

  /** `lastrec` says exactly how far past the committed head the ring has been flushed. */
  ghost predicate EntryOk(mem: map<RingId, Ring>, done: map<RingId, nat>, e: IndexEntry)
  {
    match e.ring
    case None => e.lastrec == None
    case Some(k) =>
      && k in mem
      && mem[k].h <= Done(done, k) <= |mem[k].pub|
      && Done(done, k) == (if e.lastrec.Some? then e.lastrec.value + 1 else mem[k].h)
      && (e.lastrec.Some? ==> mem[k].h < Done(done, k))
      && e.seqnum <= Expected(mem[k].pub, Done(done, k))
  }

  ghost predicate EntriesOk(mem: map<RingId, Ring>, done: map<RingId, nat>, es: seq<IndexEntry>)
  {
    && (forall i :: 0 <= i < |es| ==> EntryOk(mem, done, es[i]))
    && (forall k :: k in mem && !Indexed(es, k) ==> Done(done, k) == mem[k].h)
  }

  /** Entries below n have been iterated in this poll, the others have not been touched. */
  ghost predicate PollOk(mem: map<RingId, Ring>, done: map<RingId, nat>, es: seq<IndexEntry>, n: nat)
  {
    && n <= |es|
    && (forall i :: 0 <= i < n && es[i].ring.Some? ==>
          var k := es[i].ring.value;
          k in mem && Done(done, k) <= es[i].pos <= es[i].lim <= |mem[k].pub|)
    && (forall i :: n <= i < |es| ==> es[i].lastrec == None)
  }

  // ---------------------------------------------------------------- the ordering buffer

  /** The timestamp of the record before position i, zero at the start. */
  function Before(pub: seq<Record>, i: nat): nat
    requires i <= |pub|
  {
    if i == 0 then 0 else pub[i - 1].timestamp
  }

  /** Timestamps of a ring that start above zero and strictly increase. */
  ghost predicate Steady(pub: seq<Record>)
  {
    forall i :: 0 <= i < |pub| ==> Before(pub, i) < pub[i].timestamp
  }

  /** An entry of the buffer points at a record that was read in this poll and is not flushed yet. */
  ghost predicate TsoEntryOk(mem: map<RingId, Ring>, done: map<RingId, nat>, es: seq<IndexEntry>, n: nat, e: Tso.Entry)
  {
    && e.tag < n <= |es|
    && es[e.tag].ring == Some(e.ring)
    && e.ring in mem
    && Done(done, e.ring) <= e.pos < es[e.tag].pos
    && e.pos < |mem[e.ring].pub|
    && (Steady(mem[e.ring].pub) ==> e.timestamp == mem[e.ring].pub[e.pos].timestamp)
  }

  ghost predicate Holds(m: multiset<Tso.Entry>, k: RingId, p: nat)
  {
    exists e :: e in m && e.ring == k && e.pos == p
  }

  /**
    * The buffer holds exactly one entry for every record read in this poll and not flushed yet,
    * and the entries of one ring have timestamps in the order of their positions.
    */
  ghost predicate TsoInv(mem: map<RingId, Ring>, done: map<RingId, nat>, es: seq<IndexEntry>, n: nat,
                         m: multiset<Tso.Entry>)
  {
    && (forall e :: e in m ==> TsoEntryOk(mem, done, es, n, e))
    && (forall e :: m[e] <= 1)
    && (forall e, f :: e in m && f in m && e.ring == f.ring ==>
          (e.pos < f.pos ==> e.timestamp < f.timestamp) && (e.pos == f.pos ==> e == f))
    && (forall i, p :: 0 <= i < n <= |es| && es[i].ring.Some? && Done(done, es[i].ring.value) <= p < es[i].pos ==>
          Holds(m, es[i].ring.value, p))
  }

  /** How many records each entry has read in this poll and not flushed. */
  function Unflushed(es: seq<IndexEntry>, done: map<RingId, nat>, n: nat): seq<int>
  {
    seq(n, i requires 0 <= i < n =>
      if i < |es| && es[i].ring.Some? then es[i].pos - Done(done, es[i].ring.value) else 0)
  }

  function Seqnums(es: seq<IndexEntry>): seq<int>
  {
    seq(|es|, i requires 0 <= i < |es| => es[i].seqnum)
  }

  // ---------------------------------------------------------------- the log

  /** The records of ring k that have been through flush_record, in order. */
  function Proj(log: seq<Delivery>, k: RingId): (s: seq<Record>)
    ensures |s| <= |log|
  {
    if log == [] then []
    else
      var n := |log| - 1;
      Proj(log[..n], k) + (if log[n].te.ring == k then [log[n].rec] else [])
  }

  /** The drops the engine has counted against ring k. */
  function Missed(log: seq<Delivery>, k: RingId): nat
  {
    if log == [] then 0
    else
      var n := |log| - 1;
      Missed(log[..n], k) + (if log[n].te.ring == k then log[n].missed else 0)
  }

  function TotalMissed(log: seq<Delivery>): nat
  {
    if log == [] then 0 else TotalMissed(log[..|log| - 1]) + log[|log| - 1].missed
  }

  lemma LogAppend(log: seq<Delivery>, d: Delivery)
    ensures forall k :: Proj(log + [d], k) == Proj(log, k) + (if d.te.ring == k then [d.rec] else [])
    ensures forall k :: Missed(log + [d], k) == Missed(log, k) + (if d.te.ring == k then d.missed else 0)
    ensures TotalMissed(log + [d]) == TotalMissed(log) + d.missed
  {
    assert (log + [d])[..|log|] == log;
  }

  /** The j-th delivery took the record at the ring's next position, unchanged since it was published. */
  ghost predicate DeliveryOk(mem: map<RingId, Ring>, log: seq<Delivery>, j: nat)
    requires j < |log|
  {
    var k := log[j].te.ring;
    && k in mem
    && log[j].te.pos == |Proj(log[..j], k)| < |mem[k].pub|
    && log[j].rec == mem[k].pub[log[j].te.pos]
    && (Steady(mem[k].pub) ==> log[j].te.timestamp == log[j].rec.timestamp)
  }

  /** What has been delivered from a ring is exactly the published records up to its `done` count. */
  ghost predicate LogInv(mem: map<RingId, Ring>, done: map<RingId, nat>, log: seq<Delivery>)
  {
    && (forall k :: k in mem ==> Done(done, k) <= |mem[k].pub| && Proj(log, k) == mem[k].pub[..Done(done, k)])
    && (forall j :: 0 <= j < |log| ==> DeliveryOk(mem, log, j))
  }

  /**
    * What had been delivered from ring k, or counted as missed on it, when it last came into the
    * index: 0 unless it has come back after an absence.
    */
  function Base(base: map<RingId, nat>, k: RingId): nat { if k in base then base[k] else 0 }

  /** The sequence numbers that ring k accounts for: delivered records and counted drops. */
  function Accounted(log: seq<Delivery>, done: map<RingId, nat>, k: RingId): nat { Missed(log, k) + Done(done, k) }

  /**
    * Drops are never under-reported.  Once a ring has delivered since it came into the index, what it
    * accounts for is the sequence number after its last delivered record, plus all it had accounted
    * for before it came back.
    */
  ghost predicate DropOk(mem: map<RingId, Ring>, done: map<RingId, nat>, log: seq<Delivery>, base: map<RingId, nat>,
                         k: RingId)
    requires k in mem
  {
    && Done(done, k) <= |mem[k].pub|
    && var expected := Expected(mem[k].pub, Done(done, k));
       && expected <= Accounted(log, done, k)
       && (Accounted(log, done, k) == Base(base, k) + expected || Accounted(log, done, k) == Base(base, k))
  }

  /** An index entry expects what its ring has accounted for since it came into the index. */
  ghost predicate DropInv(mem: map<RingId, Ring>, done: map<RingId, nat>, es: seq<IndexEntry>,
                          log: seq<Delivery>, base: map<RingId, nat>)
  {
    && base.Keys <= mem.Keys
    && (forall k :: k in mem ==> DropOk(mem, done, log, base, k))
    && (forall i :: 0 <= i < |es| && es[i].ring.Some? ==>
          var k := es[i].ring.value;
          k in mem && es[i].seqnum + Base(base, k) == Accounted(log, done, k))
  }

  // ---------------------------------------------------------------- interference

  lemma SteadyPrefix(p: seq<Record>, q: seq<Record>)
    requires p <= q && Steady(q)
    ensures Steady(p)
  {
    forall i | 0 <= i < |p| ensures Before(p, i) < p[i].timestamp {
      assert Before(q, i) < q[i].timestamp;
    }
  }

  /** The part of the memory a poll's bookkeeping talks about: heads stay, publications only grow. */
  ghost predicate Grows(mem: map<RingId, Ring>, mem': map<RingId, Ring>)
  {
    && (forall k :: k in mem ==> k in mem' && mem'[k].h == mem[k].h && mem[k].pub <= mem'[k].pub)
    && (forall k :: k in mem' && k !in mem ==> mem'[k].h == 0)
  }

  /** Publications only grow; nothing is said about heads. */
  ghost predicate PubsGrow(mem: map<RingId, Ring>, mem': map<RingId, Ring>)
  {
    forall k :: k in mem ==> k in mem' && mem[k].pub <= mem'[k].pub
  }

  lemma RelyGrows(mem: map<RingId, Ring>, mem': map<RingId, Ring>)
    requires MemRely(mem, mem')
    ensures Grows(mem, mem')
  {
  }

  lemma IndexStable(sh: Shared, sh': Shared, es: seq<IndexEntry>)
    requires IndexOk(sh, es) && EnvRely(sh, sh')
    ensures IndexOk(sh', es)
  {
    hide Rely;
  }

  lemma EntriesStable(mem: map<RingId, Ring>, mem': map<RingId, Ring>, done: map<RingId, nat>,
                      es: seq<IndexEntry>, n: nat)
    requires EntriesOk(mem, done, es) && done.Keys <= mem.Keys && Grows(mem, mem')
    ensures EntriesOk(mem', done, es)
    ensures PollOk(mem, done, es, n) ==> PollOk(mem', done, es, n)
  {
    forall i | 0 <= i < |es| ensures EntryOk(mem', done, es[i]) {
      assert EntryOk(mem, done, es[i]);
    }
  }

  lemma TsoStable(mem: map<RingId, Ring>, mem': map<RingId, Ring>, done: map<RingId, nat>,
                  es: seq<IndexEntry>, n: nat, m: multiset<Tso.Entry>)
    requires TsoInv(mem, done, es, n, m) && Grows(mem, mem')
    ensures TsoInv(mem', done, es, n, m)
  {
    hide Steady, Holds;
    forall e | e in m ensures TsoEntryOk(mem', done, es, n, e) {
      assert TsoEntryOk(mem, done, es, n, e);
      if Steady(mem'[e.ring].pub) { SteadyPrefix(mem[e.ring].pub, mem'[e.ring].pub); }
    }
  }

  lemma LogStable(mem: map<RingId, Ring>, mem': map<RingId, Ring>, done: map<RingId, nat>, log: seq<Delivery>)
    requires LogInv(mem, done, log) && done.Keys <= mem.Keys && Grows(mem, mem')
    ensures LogInv(mem', done, log)
  {
    hide Steady, Proj;
    forall j | 0 <= j < |log| ensures log[j].te.ring in mem {
      assert DeliveryOk(mem, log, j);
    }
    forall k | k in mem' && k !in mem ensures Proj(log, k) == [] {
      NothingLogged(mem, log, k);
    }
    forall j | 0 <= j < |log| ensures DeliveryOk(mem', log, j) {
      assert DeliveryOk(mem, log, j);
      var k := log[j].te.ring;
      if Steady(mem'[k].pub) { SteadyPrefix(mem[k].pub, mem'[k].pub); }
    }
  }

  lemma DropsStable(mem: map<RingId, Ring>, mem': map<RingId, Ring>, done: map<RingId, nat>,
                    es: seq<IndexEntry>, log: seq<Delivery>, base: map<RingId, nat>)
    requires LogInv(mem, done, log) && DropInv(mem, done, es, log, base)
    requires done.Keys <= mem.Keys && Grows(mem, mem')
    ensures DropInv(mem', done, es, log, base)
  {
    hide Steady, Proj, Missed;
    forall j | 0 <= j < |log| ensures log[j].te.ring in mem {
      assert DeliveryOk(mem, log, j);
    }
    forall k | k in mem' ensures DropOk(mem', done, log, base, k) {
      if k in mem { assert DropOk(mem, done, log, base, k); } else { NothingLogged(mem, log, k); }
    }
  }

  lemma {:induction false} NothingLogged(mem: map<RingId, Ring>, log: seq<Delivery>, k: RingId)
    requires k !in mem && forall j :: 0 <= j < |log| ==> log[j].te.ring in mem
    ensures Proj(log, k) == [] && Missed(log, k) == 0
  {
    if log != [] { NothingLogged(mem, log[..|log| - 1], k); }
  }

  // ---------------------------------------------------------------- everything together

  /** What holds at every point of the engine thread. */
  ghost predicate Core(sh: Shared, es: seq<IndexEntry>, done: map<RingId, nat>, owed: Option<RingId>,
                       log: seq<Delivery>, base: map<RingId, nat>)
  {
    && SharedInv(sh, done, owed)
    && IndexOk(sh, es)
    && EntriesOk(sh.mem, done, es)
    && LogInv(sh.mem, done, log)
    && DropInv(sh.mem, done, es, log, base)
  }

  lemma DoneKeys(mem: map<RingId, Ring>, done: map<RingId, nat>)
    requires MemInv(mem, done)
    ensures done.Keys <= mem.Keys
  {
    hide RingInv;
  }

  lemma CoreStable(sh: Shared, sh': Shared, es: seq<IndexEntry>, done: map<RingId, nat>, owed: Option<RingId>,
                   log: seq<Delivery>, base: map<RingId, nat>)
    requires Core(sh, es, done, owed, log, base) && EnvRely(sh, sh') && SharedInv(sh', done, owed)
    ensures Core(sh', es, done, owed, log, base) && Grows(sh.mem, sh'.mem)
  {
    hide RingInv, LifeInv, MemRely, LogInv, DropInv, EntriesOk, IndexOk, Grows, EnvRely, MemInv;
    assert done.Keys <= sh.mem.Keys by { DoneKeys(sh.mem, done); }
    assert Grows(sh.mem, sh'.mem) by { RelyGrowsAll(sh, sh'); }
    IndexStable(sh, sh', es);
    EntriesStable(sh.mem, sh'.mem, done, es, 0);
    LogStable(sh.mem, sh'.mem, done, log);
    DropsStable(sh.mem, sh'.mem, done, es, log, base);
  }

  lemma RelyGrowsAll(sh: Shared, sh': Shared)
    requires EnvRely(sh, sh')
    ensures Grows(sh.mem, sh'.mem)
  {
    hide LifeRely;
    RelyGrows(sh.mem, sh'.mem);
  }

  lemma CoreRely(sh: Shared, es: seq<IndexEntry>, done: map<RingId, nat>, owed: Option<RingId>,
                 log: seq<Delivery>, base: map<RingId, nat>)
    requires Core(sh, es, done, owed, log, base)
    ensures SharedInv(sh, done, owed) && EnvRely(sh, sh)
  {
    hide SharedInv, LogInv, DropInv, EntriesOk, IndexOk, EnvRely;
    RelyReflexive(sh, done, owed);
  }

  /** A poll in progress is not disturbed by other threads. */
  lemma PollStable(sh: Shared, sh': Shared, es: seq<IndexEntry>, done: map<RingId, nat>, owed: Option<RingId>,
                   log: seq<Delivery>, base: map<RingId, nat>, n: nat, m: multiset<Tso.Entry>)
    requires Core(sh, es, done, owed, log, base) && Grows(sh.mem, sh'.mem)
    ensures PollOk(sh.mem, done, es, n) ==> PollOk(sh'.mem, done, es, n)
    ensures TsoInv(sh.mem, done, es, n, m) ==> TsoInv(sh'.mem, done, es, n, m)
  {
    hide RingInv, LifeInv, LogInv, DropInv, EntriesOk, IndexOk, Grows, MemInv, PollOk, TsoInv;
    assert done.Keys <= sh.mem.Keys by { DoneKeys(sh.mem, done); }
    EntriesStable(sh.mem, sh'.mem, done, es, n);
    if TsoInv(sh.mem, done, es, n, m) { TsoStable(sh.mem, sh'.mem, done, es, n, m); }
  }
}
