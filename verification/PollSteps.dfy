/** Each step of a poll, as a change of values, keeps the invariants of module Index. */
module PollSteps {
  import opened Wrappers
  import opened Rings
  import opened Sharing
  import opened Sums
  import opened Index
  import Tso

  /** Changing an entry without changing its ring changes nothing about which rings are indexed. */
  lemma IndexedKept(es: seq<IndexEntry>, i: nat, e: IndexEntry)
    requires i < |es| && e.ring == es[i].ring
    ensures forall k :: Indexed(es[i := e], k) <==> Indexed(es, k)
  {
    var es' := es[i := e];
    forall k: RingId ensures Indexed(es', k) <==> Indexed(es, k) {
      if Indexed(es, k) {
        var j :| 0 <= j < |es| && es[j].ring == Some(k);
        assert es'[j].ring == Some(k);
      }
      if Indexed(es', k) {
        var j :| 0 <= j < |es'| && es'[j].ring == Some(k);
        assert es[j].ring == Some(k);
      }
    }
  }

  lemma IndexOkKept(sh: Shared, sh': Shared, es: seq<IndexEntry>, i: nat, e: IndexEntry)
    requires IndexOk(sh, es) && i < |es| && e.ring == es[i].ring
    requires sh'.mem.Keys == sh.mem.Keys && sh'.life == sh.life && sh'.regs == sh.regs
    requires sh'.dirty == sh.dirty && sh'.unset == sh.unset
    ensures IndexOk(sh', es[i := e])
  {
    IndexedKept(es, i, e);
  }

  // ---------------------------------------------------------------- reset and next

  /** it.reset(): the iterator takes the ring's committed head and its current tail. */
  function ResetEntry(r: Ring, e: IndexEntry): IndexEntry { e.(pos := r.h, lim := |r.pub|) }

  /** it.next(): the iterator is one record further. */
  function NextEntry(e: IndexEntry): IndexEntry { e.(pos := e.pos + 1) }

  lemma EntriesKept(mem: map<RingId, Ring>, done: map<RingId, nat>, es: seq<IndexEntry>, i: nat, e: IndexEntry)
    requires EntriesOk(mem, done, es) && i < |es| && e == es[i].(pos := e.pos, lim := e.lim)
    ensures EntriesOk(mem, done, es[i := e])
  {
    IndexedKept(es, i, e);
    assert EntryOk(mem, done, es[i]);
  }

  lemma ResetStep(mem: map<RingId, Ring>, done: map<RingId, nat>, es: seq<IndexEntry>, n: nat,
                  m: multiset<Tso.Entry>, k: RingId)
    requires EntriesOk(mem, done, es) && PollOk(mem, done, es, n) && TsoInv(mem, done, es, n, m)
    requires n < |es| && es[n].ring == Some(k) && k in mem
    ensures var es' := es[n := ResetEntry(mem[k], es[n])];
            && EntriesOk(mem, done, es') && PollOk(mem, done, es', n + 1) && TsoInv(mem, done, es', n + 1, m)
            && Sum(Unflushed(es', done, n + 1)) == Sum(Unflushed(es, done, n))
  {
    hide TsoInv, EntriesOk, Sum;
    var es' := es[n := ResetEntry(mem[k], es[n])];
    EntriesKept(mem, done, es, n, es'[n]);
    assert EntryOk(mem, done, es[n]) by { EntryOf(mem, done, es, n); }
    ResetTso(mem, done, es, n, m, k);
    assert Unflushed(es', done, n + 1) == Unflushed(es, done, n) + [0];
    SumAppend(Unflushed(es, done, n), 0);
  }

  lemma EntryOf(mem: map<RingId, Ring>, done: map<RingId, nat>, es: seq<IndexEntry>, i: nat)
    requires EntriesOk(mem, done, es) && i < |es|
    ensures EntryOk(mem, done, es[i])
  {
    hide EntryOk;
  }

  lemma ResetTso(mem: map<RingId, Ring>, done: map<RingId, nat>, es: seq<IndexEntry>, n: nat,
                 m: multiset<Tso.Entry>, k: RingId)
    requires TsoInv(mem, done, es, n, m) && n < |es| && es[n].ring == Some(k) && k in mem
    requires mem[k].h == Done(done, k)
    ensures TsoInv(mem, done, es[n := ResetEntry(mem[k], es[n])], n + 1, m)
  {
    hide Steady, Holds;
    var es' := es[n := ResetEntry(mem[k], es[n])];
    forall e | e in m ensures TsoEntryOk(mem, done, es', n + 1, e) {
      assert TsoEntryOk(mem, done, es, n, e);
    }
  }

  /** An entry whose ring has been killed is skipped. */
  lemma SkipStep(mem: map<RingId, Ring>, done: map<RingId, nat>, es: seq<IndexEntry>, n: nat,
                 m: multiset<Tso.Entry>)
    requires PollOk(mem, done, es, n) && TsoInv(mem, done, es, n, m)
    requires n < |es| && es[n].ring == None
    ensures PollOk(mem, done, es, n + 1) && TsoInv(mem, done, es, n + 1, m)
    ensures Sum(Unflushed(es, done, n + 1)) == Sum(Unflushed(es, done, n))
  {
    hide Steady, Holds, Sum;
    SkipTso(mem, done, es, n, m);
    assert Unflushed(es, done, n + 1) == Unflushed(es, done, n) + [0];
    SumAppend(Unflushed(es, done, n), 0);
  }

  lemma SkipTso(mem: map<RingId, Ring>, done: map<RingId, nat>, es: seq<IndexEntry>, n: nat,
                m: multiset<Tso.Entry>)
    requires TsoInv(mem, done, es, n, m) && n < |es| && es[n].ring == None
    ensures TsoInv(mem, done, es, n + 1, m)
  {
    hide Steady, Holds;
    forall e | e in m ensures TsoEntryOk(mem, done, es, n + 1, e) {
      assert TsoEntryOk(mem, done, es, n, e);
    }
  }

  /** The timestamp the engine gives the next record: at least one more than the ring's previous one. */
  function Adjust(ts: nat, prev: nat): nat { if ts <= prev then prev + 1 else ts }

  /** `prev` bounds the timestamps of ring k in the buffer; without adjustments it is the last record's own. */
  ghost predicate PrevOk(mem: map<RingId, Ring>, e: IndexEntry, k: RingId, m: multiset<Tso.Entry>, prev: nat)
  {
    && k in mem && e.ring == Some(k) && mem[k].h <= e.pos <= |mem[k].pub|
    && (forall f :: f in m && f.ring == k ==> f.timestamp <= prev)
    && (Steady(mem[k].pub) ==> e.pos > mem[k].h ==> prev == Before(mem[k].pub, e.pos))
    && (e.pos == mem[k].h ==> prev == 0)
  }

  lemma PrevStable(mem: map<RingId, Ring>, mem': map<RingId, Ring>, e: IndexEntry, k: RingId,
                   m: multiset<Tso.Entry>, prev: nat)
    requires PrevOk(mem, e, k, m, prev) && Grows(mem, mem')
    ensures PrevOk(mem', e, k, m, prev)
  {
    if Steady(mem'[k].pub) { SteadyPrefix(mem[k].pub, mem'[k].pub); }
  }

  /** it.next() and _tso.push(): the next record of entry i goes into the buffer. */
  lemma PushStep(mem: map<RingId, Ring>, done: map<RingId, nat>, es: seq<IndexEntry>, i: nat,
                 m: multiset<Tso.Entry>, k: RingId, prev: nat)
    requires EntriesOk(mem, done, es) && PollOk(mem, done, es, i + 1) && TsoInv(mem, done, es, i + 1, m)
    requires Distinct(es) && i < |es| && es[i].ring == Some(k) && k in mem && es[i].pos < es[i].lim
    requires PrevOk(mem, es[i], k, m, prev)
    ensures var te := Tso.Entry(Adjust(mem[k].pub[es[i].pos].timestamp, prev), k, es[i].pos, i);
            var es' := es[i := NextEntry(es[i])];
            var m' := m + multiset{te};
            && EntriesOk(mem, done, es') && PollOk(mem, done, es', i + 1) && TsoInv(mem, done, es', i + 1, m')
            && Distinct(es') && PrevOk(mem, es'[i], k, m', te.timestamp)
            && Sum(Unflushed(es', done, i + 1)) == Sum(Unflushed(es, done, i + 1)) + 1
  {
    hide TsoInv, PrevOk, EntriesOk;
    var te := Tso.Entry(Adjust(mem[k].pub[es[i].pos].timestamp, prev), k, es[i].pos, i);
    var es' := es[i := NextEntry(es[i])];
    EntriesKept(mem, done, es, i, es'[i]);
    PushPrev(mem, es[i], k, m, prev, i);
    PushTso(mem, done, es, i, m, te);
    assert Unflushed(es', done, i + 1)
        == Unflushed(es, done, i + 1)[i := es[i].pos + 1 - Done(done, k)];
    SumUpdate(Unflushed(es, done, i + 1), i, es[i].pos + 1 - Done(done, k));
  }

  lemma PushPrev(mem: map<RingId, Ring>, e: IndexEntry, k: RingId, m: multiset<Tso.Entry>, prev: nat, tag: nat)
    requires PrevOk(mem, e, k, m, prev) && e.pos < |mem[k].pub|
    ensures var ts := mem[k].pub[e.pos].timestamp;
            var te := Tso.Entry(Adjust(ts, prev), k, e.pos, tag);
            && (forall f :: f in m && f.ring == k ==> f.timestamp < te.timestamp)
            && (Steady(mem[k].pub) ==> te.timestamp == ts)
            && PrevOk(mem, e.(pos := e.pos + 1), k, m + multiset{te}, te.timestamp)
  {
    if Steady(mem[k].pub) {
      assert Before(mem[k].pub, e.pos) < mem[k].pub[e.pos].timestamp;
    }
  }

  /** Every record that has been read and not flushed is still buffered when one more is read. */
  lemma PushHolds(mem: map<RingId, Ring>, done: map<RingId, nat>, es: seq<IndexEntry>, i: nat,
                  m: multiset<Tso.Entry>, te: Tso.Entry, j: nat, p: nat)
    requires TsoInv(mem, done, es, i + 1, m) && i < |es| && es[i].ring == Some(te.ring) && te.pos == es[i].pos
    requires j <= i && es[j].ring.Some?
    requires Done(done, es[j].ring.value) <= p < if j == i then te.pos + 1 else es[j].pos
    ensures Holds(m + multiset{te}, es[j].ring.value, p)
  {
    hide TsoEntryOk;
    var m' := m + multiset{te};
    if j == i && p == te.pos {
      assert te in m';
    } else {
      assert Holds(m, es[j].ring.value, p);
      var e :| e in m && e.ring == es[j].ring.value && e.pos == p;
      assert e in m';
    }
  }

  lemma PushTso(mem: map<RingId, Ring>, done: map<RingId, nat>, es: seq<IndexEntry>, i: nat,
                m: multiset<Tso.Entry>, te: Tso.Entry)
    requires TsoInv(mem, done, es, i + 1, m) && Distinct(es)
    requires i < |es| && es[i].ring == Some(te.ring) && te.ring in mem && te.tag == i && te.pos == es[i].pos
    requires Done(done, te.ring) <= te.pos < |mem[te.ring].pub|
    requires Steady(mem[te.ring].pub) ==> te.timestamp == mem[te.ring].pub[te.pos].timestamp
    requires forall f :: f in m && f.ring == te.ring ==> f.timestamp < te.timestamp
    ensures TsoInv(mem, done, es[i := es[i].(pos := te.pos + 1)], i + 1, m + multiset{te})
  {
    hide Steady, Holds;
    var es' := es[i := es[i].(pos := te.pos + 1)];
    var m' := m + multiset{te};
    forall e | e in m ensures TsoEntryOk(mem, done, es', i + 1, e) && (e.ring == te.ring ==> e.pos < te.pos) {
      assert TsoEntryOk(mem, done, es, i + 1, e);
      if e.ring == te.ring { assert e.tag == i; }
    }
    forall j, p | 0 <= j < i + 1 && es'[j].ring.Some? && Done(done, es'[j].ring.value) <= p < es'[j].pos
      ensures Holds(m', es'[j].ring.value, p)
    {
      PushHolds(mem, done, es, i, m, te, j, p);
    }
  }

  // ---------------------------------------------------------------- flushing one entry

  ghost predicate Oldest(m: multiset<Tso.Entry>, te: Tso.Entry)
  {
    te in m && forall e :: e in m ==> te.timestamp <= e.timestamp
  }

  /** The oldest entry of the buffer is the next undelivered record of its ring. */
  lemma OldestIsNext(mem: map<RingId, Ring>, done: map<RingId, nat>, es: seq<IndexEntry>, n: nat,
                     m: multiset<Tso.Entry>, te: Tso.Entry)
    requires TsoInv(mem, done, es, n, m) && Oldest(m, te)
    ensures TsoEntryOk(mem, done, es, n, te) && te.pos == Done(done, te.ring)
  {
    hide Steady;
    assert TsoEntryOk(mem, done, es, n, te);
    assert Holds(m, te.ring, Done(done, te.ring));
  }

  function FlushedEntry(e: IndexEntry, pos: nat, r: Record): IndexEntry
  {
    e.(lastrec := Some(pos), seqnum := r.seqnum + 1)
  }

  lemma OtherEntry(mem: map<RingId, Ring>, mem': map<RingId, Ring>, done: map<RingId, nat>, e: IndexEntry, k: RingId,
                   d: nat)
    requires EntryOk(mem, done, e) && e.ring != Some(k) && Grows(mem, mem')
    requires mem'.Keys == mem.Keys && forall j :: j in mem ==> mem'[j].pub == mem[j].pub
    ensures EntryOk(mem', done[k := d], e)
  {
    hide Expected;
  }

  lemma FlushEntries(mem: map<RingId, Ring>, done: map<RingId, nat>, es: seq<IndexEntry>,
                     te: Tso.Entry, r: Record, mem': map<RingId, Ring>)
    requires EntriesOk(mem, done, es) && Distinct(es)
    requires te.tag < |es| && es[te.tag].ring == Some(te.ring) && te.ring in mem
    requires te.pos == Done(done, te.ring) < |mem[te.ring].pub| && r == mem[te.ring].pub[te.pos]
    requires Grows(mem, mem') && mem'.Keys == mem.Keys && forall k :: k in mem ==> mem'[k].pub == mem[k].pub
    ensures EntriesOk(mem', done[te.ring := te.pos + 1], es[te.tag := FlushedEntry(es[te.tag], te.pos, r)])
  {
    var i, k := te.tag, te.ring;
    var done', es' := done[k := te.pos + 1], es[i := FlushedEntry(es[i], te.pos, r)];
    hide Indexed;
    IndexedKept(es, i, es'[i]);
    IndexedAt(es, i, k);
    assert EntryOk(mem, done, es[i]);
    assert EntryOk(mem', done', es'[i]);
    forall j | 0 <= j < |es'| && j != i ensures EntryOk(mem', done', es'[j]) {
      assert es[j].ring != Some(k);
      OtherEntry(mem, mem', done, es[j], k, te.pos + 1);
    }
  }

  lemma IndexedAt(es: seq<IndexEntry>, i: nat, k: RingId)
    requires i < |es| && es[i].ring == Some(k)
    ensures Indexed(es, k)
  {
  }

  lemma FlushPoll(mem: map<RingId, Ring>, done: map<RingId, nat>, es: seq<IndexEntry>, n: nat,
                  te: Tso.Entry, r: Record, mem': map<RingId, Ring>)
    requires PollOk(mem, done, es, n) && Distinct(es)
    requires te.tag < n && es[te.tag].ring == Some(te.ring) && te.pos == Done(done, te.ring) < es[te.tag].pos
    requires Grows(mem, mem')
    ensures var done', es' := done[te.ring := te.pos + 1], es[te.tag := FlushedEntry(es[te.tag], te.pos, r)];
            && PollOk(mem', done', es', n) && Distinct(es')
  {
    forall j | 0 <= j < |es| && j != te.tag ensures es[j].ring != Some(te.ring) {}
  }

  lemma FlushUnflushed(done: map<RingId, nat>, es: seq<IndexEntry>, n: nat, te: Tso.Entry, r: Record)
    requires Distinct(es) && te.tag < n <= |es| && es[te.tag].ring == Some(te.ring) && te.pos == Done(done, te.ring)
    ensures var done', es' := done[te.ring := te.pos + 1], es[te.tag := FlushedEntry(es[te.tag], te.pos, r)];
            Sum(Unflushed(es', done', n)) == Sum(Unflushed(es, done, n)) - 1
  {
    hide Sum;
    var i := te.tag;
    var done', es' := done[te.ring := te.pos + 1], es[i := FlushedEntry(es[i], te.pos, r)];
    var u, u' := Unflushed(es, done, n), Unflushed(es', done', n);
    forall j | 0 <= j < n ensures u'[j] == u[i := es[i].pos - (te.pos + 1)][j] {
      if j != i { assert es[j].ring != Some(te.ring); }
    }
    assert u' == u[i := es[i].pos - (te.pos + 1)];
    SumUpdate(u, i, es[i].pos - (te.pos + 1));
  }

  lemma FlushHolds(m: multiset<Tso.Entry>, te: Tso.Entry, k: RingId, p: nat)
    requires Holds(m, k, p) && (k != te.ring || p != te.pos)
    ensures Holds(m - multiset{te}, k, p)
  {
    var e :| e in m && e.ring == k && e.pos == p;
    assert e != te && e in m - multiset{te};
  }

  lemma FlushTso(mem: map<RingId, Ring>, done: map<RingId, nat>, es: seq<IndexEntry>, n: nat,
                 m: multiset<Tso.Entry>, te: Tso.Entry, e': IndexEntry)
    requires TsoInv(mem, done, es, n, m) && Oldest(m, te) && te.tag < n <= |es|
    requires te.pos == Done(done, te.ring) && e' == es[te.tag].(lastrec := e'.lastrec, seqnum := e'.seqnum)
    ensures TsoInv(mem, done[te.ring := te.pos + 1], es[te.tag := e'], n, m - multiset{te})
  {
    hide Steady, Holds;
    var done', es', m' := done[te.ring := te.pos + 1], es[te.tag := e'], m - multiset{te};
    forall e | e in m' ensures e in m && e != te && TsoEntryOk(mem, done', es', n, e) {
      assert m'[e] > 0;
      assert m[e] <= 1 && m[te] <= 1;
      assert TsoEntryOk(mem, done, es, n, e);
      if e.ring == te.ring { assert e.pos != te.pos; }
    }
    forall i, p | 0 <= i < n && es'[i].ring.Some? && Done(done', es'[i].ring.value) <= p < es'[i].pos
      ensures Holds(m', es'[i].ring.value, p)
    {
      assert Holds(m, es[i].ring.value, p);
      FlushHolds(m, te, es[i].ring.value, p);
    }
  }

  /** The log after delivering r, the next record of its ring. */
  lemma FlushLog(mem: map<RingId, Ring>, mem': map<RingId, Ring>, done: map<RingId, nat>,
                 log: seq<Delivery>, d: Delivery)
    requires LogInv(mem, done, log) && d.te.ring in mem
    requires d.te.pos == Done(done, d.te.ring) < |mem[d.te.ring].pub| && d.rec == mem[d.te.ring].pub[d.te.pos]
    requires Steady(mem[d.te.ring].pub) ==> d.te.timestamp == d.rec.timestamp
    requires mem'.Keys == mem.Keys && forall k :: k in mem ==> mem'[k].pub == mem[k].pub
    ensures LogInv(mem', done[d.te.ring := d.te.pos + 1], log + [d])
  {
    hide Steady, Proj;
    var k, log' := d.te.ring, log + [d];
    LogAppend(log, d);
    assert mem[k].pub[..d.te.pos + 1] == mem[k].pub[..d.te.pos] + [d.rec];
    forall j | 0 <= j < |log'| ensures DeliveryOk(mem', log', j) {
      assert log'[..j] == log[..j];
      if j == |log| { assert log[..j] == log; } else { assert DeliveryOk(mem, log, j); }
    }
  }

  /** A delivery and the drops counted with it are accounted to its ring, and to no other. */
  lemma FlushAccounted(log: seq<Delivery>, done: map<RingId, nat>, d: Delivery, k: RingId)
    requires d.te.pos == Done(done, d.te.ring)
    ensures Accounted(log + [d], done[d.te.ring := d.te.pos + 1], k)
      == Accounted(log, done, k) + (if k == d.te.ring then d.missed + 1 else 0)
  {
    hide Missed;
    LogAppend(log, d);
  }

  lemma DropOkFlushed(mem: map<RingId, Ring>, mem': map<RingId, Ring>, done: map<RingId, nat>, seqnum: nat,
                      log: seq<Delivery>, base: map<RingId, nat>, d: Delivery, k: RingId)
    requires k in mem && k in mem' && mem'[k].pub == mem[k].pub && DropOk(mem, done, log, base, k)
    requires d.te.pos == Done(done, d.te.ring)
    requires k == d.te.ring ==>
      && d.te.pos < |mem[k].pub| && d.rec == mem[k].pub[d.te.pos] && seqnum + d.missed == d.rec.seqnum
      && seqnum + Base(base, k) == Accounted(log, done, k)
    ensures DropOk(mem', done[d.te.ring := d.te.pos + 1], log + [d], base, k)
  {
    hide Accounted;
    FlushAccounted(log, done, d, k);
  }

  /** The drops counted just before delivering r close the gap up to its sequence number. */
  lemma FlushDrops(mem: map<RingId, Ring>, mem': map<RingId, Ring>, done: map<RingId, nat>, es: seq<IndexEntry>,
                   log: seq<Delivery>, base: map<RingId, nat>, te: Tso.Entry, r: Record)
    requires DropInv(mem, done, es, log, base) && Distinct(es)
    requires te.tag < |es| && es[te.tag].ring == Some(te.ring) && te.ring in mem
    requires te.pos == Done(done, te.ring) < |mem[te.ring].pub| && r == mem[te.ring].pub[te.pos]
    requires es[te.tag].seqnum <= r.seqnum
    requires mem'.Keys == mem.Keys && forall k :: k in mem ==> mem'[k].pub == mem[k].pub
    ensures DropInv(mem', done[te.ring := te.pos + 1], es[te.tag := FlushedEntry(es[te.tag], te.pos, r)],
                    log + [Delivery(te, r, r.seqnum - es[te.tag].seqnum)], base)
  {
    hide Accounted, DropOk;
    var d := Delivery(te, r, r.seqnum - es[te.tag].seqnum);
    var log', done', es' := log + [d], done[te.ring := te.pos + 1], es[te.tag := FlushedEntry(es[te.tag], te.pos, r)];
    forall k | k in mem' ensures DropOk(mem', done', log', base, k) {
      DropOkFlushed(mem, mem', done, es[te.tag].seqnum, log, base, d, k);
    }
    forall j | 0 <= j < |es'| && es'[j].ring.Some?
      ensures var k := es'[j].ring.value; k in mem' && es'[j].seqnum + Base(base, k) == Accounted(log', done', k)
    {
      if j != te.tag { assert es[j].ring != Some(te.ring); }
      FlushAccounted(log, done, d, es'[j].ring.value);
    }
  }

  /** A record not yet delivered is numbered at least as high as the engine expects. */
  lemma SeqnumNotBelow(mem: map<RingId, Ring>, done: map<RingId, nat>, e: IndexEntry, k: RingId)
    requires EntryOk(mem, done, e) && e.ring == Some(k) && RingInv(mem[k], Done(done, k))
    requires Done(done, k) < |mem[k].pub|
    ensures e.seqnum <= mem[k].pub[Done(done, k)].seqnum
  {
  }

  lemma FlushMem(mem: map<RingId, Ring>, done: map<RingId, nat>, k: RingId)
    requires MemInv(mem, done) && k in mem && Done(done, k) < |mem[k].pub|
    ensures mem[k].Shaped() && mem[k].Slot(Done(done, k)) == mem[k].pub[Done(done, k)]
    ensures var mem' := mem[k := AckSlot(mem[k], Done(done, k))];
            && MemInv(mem', done[k := Done(done, k) + 1]) && Grows(mem, mem')
            && mem'.Keys == mem.Keys && (forall j :: j in mem ==> mem'[j].pub == mem[j].pub)
  {
    hide RingInv;
    assert RingInv(mem[k], Done(done, k));
    DeliverSafe(mem[k], Done(done, k));
    assert mem[k].Shaped() by { RingShaped(mem[k], Done(done, k)); }
  }

  lemma RingShaped(r: Ring, d: nat)
    requires RingInv(r, d)
    ensures r.Shaped() && r.h <= d <= |r.pub| <= r.h + r.cap - 1
  {
  }

  /**
    * Reading through the pointer of the oldest buffered entry yields, whatever other threads have
    * done since it was pushed, the next undelivered record of its ring as the writer published it.
    */
  lemma ReadNext(sh: Shared, es: seq<IndexEntry>, done: map<RingId, nat>, owed: Option<RingId>,
                 log: seq<Delivery>, base: map<RingId, nat>, n: nat, m: multiset<Tso.Entry>, te: Tso.Entry)
    requires Core(sh, es, done, owed, log, base)
    requires PollOk(sh.mem, done, es, n) && TsoInv(sh.mem, done, es, n, m) && Oldest(m, te)
    ensures te.tag < n <= |es| && es[te.tag].ring == Some(te.ring) && te.ring in sh.mem
    ensures sh.mem[te.ring].Shaped() && te.pos == Done(done, te.ring) < |sh.mem[te.ring].pub|
    ensures sh.mem[te.ring].Slot(te.pos) == sh.mem[te.ring].pub[te.pos]
    ensures es[te.tag].seqnum <= sh.mem[te.ring].Slot(te.pos).seqnum
  {
    hide RingInv, LifeInv, LogInv, DropInv, EntriesOk, IndexOk, PollOk, TsoInv, Oldest, MemInv, Steady;
    OldestIsNext(sh.mem, done, es, n, m, te);
    FlushMem(sh.mem, done, te.ring);
    NextSeqnum(sh.mem, done, es, te.tag, te.ring);
  }

  /** Delivering that record keeps the index, the buffer, the log and the ring consistent. */
  lemma FlushStep(sh: Shared, es: seq<IndexEntry>, done: map<RingId, nat>, owed: Option<RingId>,
                  log: seq<Delivery>, base: map<RingId, nat>, n: nat, m: multiset<Tso.Entry>, te: Tso.Entry,
                  r: Record, sh': Shared, es': seq<IndexEntry>, done': map<RingId, nat>, d: Delivery)
    requires Core(sh, es, done, owed, log, base)
    requires PollOk(sh.mem, done, es, n) && TsoInv(sh.mem, done, es, n, m) && Oldest(m, te)
    requires te.tag < |es| && te.ring in sh.mem && sh.mem[te.ring].Shaped() && r == sh.mem[te.ring].Slot(te.pos)
    requires sh' == sh.(mem := sh.mem[te.ring := AckSlot(sh.mem[te.ring], te.pos)])
    requires es' == es[te.tag := FlushedEntry(es[te.tag], te.pos, r)]
    requires done' == done[te.ring := te.pos + 1]
    requires es[te.tag].seqnum <= r.seqnum && d == Delivery(te, r, r.seqnum - es[te.tag].seqnum)
    ensures Core(sh', es', done', owed, log + [d], base)
    ensures PollOk(sh'.mem, done', es', n) && TsoInv(sh'.mem, done', es', n, m - multiset{te})
    ensures Sum(Unflushed(es', done', n)) == Sum(Unflushed(es, done, n)) - 1
    ensures Sum(Seqnums(es')) == Sum(Seqnums(es)) - es[te.tag].seqnum + r.seqnum + 1
    ensures Grows(sh.mem, sh'.mem)
  {
    hide RingInv, LifeInv, LogInv, DropInv, EntriesOk, IndexOk, Grows, PollOk, TsoInv, Oldest, MemInv, Sum, Steady;
    var k, i := te.ring, te.tag;
    OldestIsNext(sh.mem, done, es, n, m, te);
    EntryOf(sh.mem, done, es, i);
    assert Distinct(es) by { IndexDistinct(sh, es); }
    FlushMem(sh.mem, done, k);
    FlushEntries(sh.mem, done, es, te, r, sh'.mem);
    FlushPoll(sh.mem, done, es, n, te, r, sh'.mem);
    FlushUnflushed(done, es, n, te, r);
    FlushTso(sh.mem, done, es, n, m, te, es'[i]);
    TsoStable(sh.mem, sh'.mem, done', es', n, m - multiset{te});
    FlushLog(sh.mem, sh'.mem, done, log, d);
    FlushDrops(sh.mem, sh'.mem, done, es, log, base, te, r);
    IndexOkKept(sh, sh', es, i, es'[i]);
    assert Seqnums(es') == Seqnums(es)[i := r.seqnum + 1];
    SumUpdate(Seqnums(es), i, r.seqnum + 1);
  }

  lemma IndexDistinct(sh: Shared, es: seq<IndexEntry>)
    requires IndexOk(sh, es)
    ensures Distinct(es)
  {
  }

  lemma NextSeqnum(mem: map<RingId, Ring>, done: map<RingId, nat>, es: seq<IndexEntry>, i: nat, k: RingId)
    requires EntriesOk(mem, done, es) && MemInv(mem, done) && i < |es| && es[i].ring == Some(k) && k in mem
    requires Done(done, k) < |mem[k].pub|
    ensures es[i].seqnum <= mem[k].pub[Done(done, k)].seqnum
  {
    hide RingInv;
    assert EntryOk(mem, done, es[i]);
    SeqnumNotBelow(mem, done, es[i], k);
  }
}
