/** The polls of a run, and the theorem that their output is in time order. */
module History {
  import opened Wrappers
  import opened Rings
  import opened Sharing
  import opened Sorting
  import opened Index
  import Tso

  /**
    * One poll: the deliveries it made are log[start..end]; `snap` says up to which position it saw
    * each ring; `full` says that the ordering buffer filled up.
    */
  datatype Poll = Poll(start: nat, end: nat, snap: map<RingId, nat>, full: bool)

  ghost predicate AllSteady(mem: map<RingId, Ring>) { forall k :: k in mem ==> Steady(mem[k].pub) }

  ghost predicate InOrder(log: seq<Delivery>, lo: nat, hi: nat)
    requires lo <= hi <= |log|
  {
    forall a, b :: lo <= a < b < hi ==> log[a].rec.timestamp <= log[b].rec.timestamp
  }

  /** Nothing the poll saw and kept back is older than what it delivered. */
  ghost predicate KeptIsLater(p: Poll, log: seq<Delivery>, mem: map<RingId, Ring>)
    requires p.start <= p.end <= |log|
  {
    forall a, k, q ::
      (p.start <= a < p.end && k in p.snap && k in mem && |Proj(log[..p.end], k)| <= q < p.snap[k] && q < |mem[k].pub|)
      ==> log[a].rec.timestamp <= mem[k].pub[q].timestamp
  }

  ghost predicate PollSound(p: Poll, log: seq<Delivery>, mem: map<RingId, Ring>)
  {
    && p.start <= p.end <= |log|
    && (forall k :: k in p.snap ==> k in mem && p.snap[k] <= |mem[k].pub|)
    && (!p.full && AllSteady(mem) ==> InOrder(log, p.start, p.end) && KeptIsLater(p, log, mem))
  }

  /** Where the log stood before poll j. */
  function StartOf(polls: seq<Poll>, j: nat): nat
    requires j <= |polls|
  {
    if j == 0 then 0 else polls[j - 1].end
  }

  /** The polls cut a log of length n into consecutive pieces. */
  ghost predicate Chain(polls: seq<Poll>, n: nat)
  {
    && (forall j :: 0 <= j < |polls| ==> polls[j].start == StartOf(polls, j) <= polls[j].end)
    && n == StartOf(polls, |polls|)
  }

  ghost predicate PollsOk(polls: seq<Poll>, log: seq<Delivery>, mem: map<RingId, Ring>)
  {
    && Chain(polls, |log|)
    && (forall j :: 0 <= j < |polls| ==> PollSound(polls[j], log, mem))
  }

  /** No poll has filled the buffer as long as no emergency flush has been counted. */
  ghost predicate FullCounted(polls: seq<Poll>, tsoFull: nat)
  {
    tsoFull == 0 ==> forall j :: 0 <= j < |polls| ==> !polls[j].full
  }

  lemma FullCountedMore(polls: seq<Poll>, tsoFull: nat, p: Poll, tsoFull': nat)
    requires FullCounted(polls, tsoFull) && tsoFull <= tsoFull' && p.full == (tsoFull' != tsoFull)
    ensures FullCounted(polls + [p], tsoFull')
  {
  }

  lemma AllSteadyEarlier(mem: map<RingId, Ring>, mem': map<RingId, Ring>)
    requires PubsGrow(mem, mem') && AllSteady(mem')
    ensures AllSteady(mem)
  {
    hide Steady;
    forall k | k in mem ensures Steady(mem[k].pub) {
      assert Steady(mem'[k].pub);
      SteadyPrefix(mem[k].pub, mem'[k].pub);
    }
  }

  lemma PollLater(p: Poll, log: seq<Delivery>, log': seq<Delivery>, mem: map<RingId, Ring>, mem': map<RingId, Ring>)
    requires PollSound(p, log, mem) && log <= log' && PubsGrow(mem, mem')
    ensures PollSound(p, log', mem')
  {
    hide Steady, Proj;
    assert log'[..p.end] == log[..p.end];
    if AllSteady(mem') { AllSteadyEarlier(mem, mem'); }
  }

  lemma ChainExtend(polls: seq<Poll>, n: nat, p: Poll)
    requires Chain(polls, n) && p.start == n <= p.end
    ensures Chain(polls + [p], p.end)
  {
    var polls' := polls + [p];
    forall j | 0 <= j < |polls'| ensures polls'[j].start == StartOf(polls', j) <= polls'[j].end {
      assert j < |polls| ==> polls[j].start == StartOf(polls, j);
    }
  }

  lemma PollsExtend(polls: seq<Poll>, log: seq<Delivery>, log': seq<Delivery>,
                    mem: map<RingId, Ring>, mem': map<RingId, Ring>, p: Poll)
    requires PollsOk(polls, log, mem) && log <= log' && PubsGrow(mem, mem')
    requires p.start == |log| && p.end == |log'| && PollSound(p, log', mem')
    ensures PollsOk(polls + [p], log', mem')
  {
    hide PollSound;
    forall j | 0 <= j < |polls| ensures PollSound(polls[j], log', mem') {
      PollLater(polls[j], log, log', mem, mem');
    }
    var polls' := polls + [p];
    forall j | 0 <= j < |polls'| ensures PollSound(polls'[j], log', mem') {
      assert j < |polls| ==> polls'[j] == polls[j];
    }
    ChainExtend(polls, |log|, p);
  }

  /** Growth of the memory alone, between polls. */
  lemma PollsStable(polls: seq<Poll>, log: seq<Delivery>, mem: map<RingId, Ring>, mem': map<RingId, Ring>)
    requires PollsOk(polls, log, mem) && PubsGrow(mem, mem')
    ensures PollsOk(polls, log, mem')
  {
    hide PollSound;
    forall j | 0 <= j < |polls| ensures PollSound(polls[j], log, mem') {
      PollLater(polls[j], log, log, mem, mem');
    }
  }

  /** Up to which position a poll saw ring k. */
  ghost function SeenTo(es: seq<IndexEntry>, done: map<RingId, nat>, k: RingId): nat
  {
    if Indexed(es, k) then
      var i :| 0 <= i < |es| && es[i].ring == Some(k);
      es[i].lim
    else Done(done, k)
  }

  ghost function Snapshot(mem: map<RingId, Ring>, es: seq<IndexEntry>, done: map<RingId, nat>): map<RingId, nat>
  {
    map k | k in mem :: SeenTo(es, done, k)
  }

  /**
    * A poll whose buffer never filled makes one sorted flush: `s` is the sorted buffer, the first
    * `cut` entries are delivered and the rest is kept for the next poll.
    */
  lemma NormalPollSound(mem: map<RingId, Ring>, es: seq<IndexEntry>, done: map<RingId, nat>,
                        log: seq<Delivery>, start: nat, s: seq<Tso.Entry>, cut: nat)
    requires LogInv(mem, done, log) && EntriesOk(mem, done, es) && Distinct(es) && PollOk(mem, done, es, |es|)
    requires cut <= |s| && SortedBy(Tso.Time, s) && start + cut == |log|
    requires forall j :: 0 <= j < cut ==> log[start + j].te == s[j]
    requires TsoInv(mem, done, es, |es|, multiset(s[cut..]))
    requires forall i :: 0 <= i < |es| && es[i].ring.Some? ==> es[i].pos == es[i].lim
    ensures PollSound(Poll(start, |log|, Snapshot(mem, es, done), false), log, mem)
  {
    hide Proj, Steady, Holds, LogInv, TsoInv, EntriesOk, PollOk;
    var p := Poll(start, |log|, Snapshot(mem, es, done), false);
    SnapshotBounded(mem, es, done, log);
    if AllSteady(mem) {
      forall a | start <= a < |log| ensures log[a].rec.timestamp == s[a - start].timestamp {
        LogTimestamp(mem, done, log, a);
        assert log[start + (a - start)].te == s[a - start];
      }
      forall a, b | start <= a < b < |log| ensures log[a].rec.timestamp <= log[b].rec.timestamp {
        assert Tso.Time(s[a - start]) <= Tso.Time(s[b - start]);
      }
      assert log[..p.end] == log;
      forall a, k, q | p.start <= a < p.end && k in p.snap && k in mem && q < |mem[k].pub|
        && |Proj(log[..p.end], k)| <= q < p.snap[k]
        ensures log[a].rec.timestamp <= mem[k].pub[q].timestamp
      {
        assert |Proj(log, k)| == Done(done, k) by { LogDone(mem, done, log, k); }
        var e := KeptEntry(mem, es, done, s, cut, k, q);
        var j :| cut <= j < |s| && s[j] == e;
        assert Tso.Time(s[a - start]) <= Tso.Time(s[j]);
      }
    }
  }

  lemma LogTimestamp(mem: map<RingId, Ring>, done: map<RingId, nat>, log: seq<Delivery>, a: nat)
    requires LogInv(mem, done, log) && a < |log| && AllSteady(mem)
    ensures log[a].rec.timestamp == log[a].te.timestamp
  {
    hide Proj, Steady;
    assert DeliveryOk(mem, log, a);
  }

  lemma LogDone(mem: map<RingId, Ring>, done: map<RingId, nat>, log: seq<Delivery>, k: RingId)
    requires LogInv(mem, done, log) && k in mem
    ensures |Proj(log, k)| == Done(done, k) <= |mem[k].pub|
  {
    hide Proj, DeliveryOk;
  }

  lemma SnapshotBounded(mem: map<RingId, Ring>, es: seq<IndexEntry>, done: map<RingId, nat>, log: seq<Delivery>)
    requires LogInv(mem, done, log) && PollOk(mem, done, es, |es|)
    ensures forall k :: k in mem ==> SeenTo(es, done, k) <= |mem[k].pub|
  {
    hide Proj, DeliveryOk;
  }

  /** A record that was seen but not delivered is still in the buffer, with its own timestamp. */
  lemma KeptEntry(mem: map<RingId, Ring>, es: seq<IndexEntry>, done: map<RingId, nat>,
                  s: seq<Tso.Entry>, cut: nat, k: RingId, q: nat) returns (e: Tso.Entry)
    requires Distinct(es) && cut <= |s| && k in mem && AllSteady(mem) && q < |mem[k].pub|
    requires TsoInv(mem, done, es, |es|, multiset(s[cut..]))
    requires forall i :: 0 <= i < |es| && es[i].ring.Some? ==> es[i].pos == es[i].lim
    requires Done(done, k) <= q < SeenTo(es, done, k)
    ensures e in s[cut..] && e.timestamp == mem[k].pub[q].timestamp
  {
    hide Steady;
    var m := multiset(s[cut..]);
    var i :| 0 <= i < |es| && es[i].ring == Some(k) && es[i].lim == SeenTo(es, done, k);
    assert Holds(m, k, q);
    e :| e in m && e.ring == k && e.pos == q;
    assert TsoEntryOk(mem, done, es, |es|, e);
    assert Steady(mem[k].pub);
  }

  // ---------------------------------------------------------------- the whole run

  lemma {:induction false} ProjMonotone(log: seq<Delivery>, a: nat, b: nat, k: RingId)
    requires a <= b <= |log|
    ensures |Proj(log[..a], k)| <= |Proj(log[..b], k)|
  {
    if a < b {
      ProjMonotone(log, a, b - 1, k);
      assert log[..b][..b - 1] == log[..b - 1];
    }
  }

  /** Every record that a poll had not seen is at least as new as what the poll delivered. */
  ghost predicate NothingLate(polls: seq<Poll>, log: seq<Delivery>, mem: map<RingId, Ring>)
  {
    forall j, a, k, q ::
      (0 <= j < |polls| && polls[j].start <= a < polls[j].end && 0 <= a < |log|
       && k in mem && (k in polls[j].snap ==> polls[j].snap[k] <= q) && 0 <= q < |mem[k].pub|)
      ==> log[a].rec.timestamp <= mem[k].pub[q].timestamp
  }

  /** The poll that made delivery a. */
  lemma {:induction false} PollOf(polls: seq<Poll>, len: nat, n: nat, a: nat) returns (j: nat)
    requires Chain(polls, len) && n <= |polls| && a < StartOf(polls, n)
    ensures j < n && polls[j].start <= a < polls[j].end
  {
    assert polls[n - 1].start == StartOf(polls, n - 1);
    if polls[n - 1].start <= a {
      j := n - 1;
    } else {
      j := PollOf(polls, len, n - 1, a);
    }
  }

  lemma {:induction false} PollEndsGrow(polls: seq<Poll>, len: nat, i: nat, j: nat)
    requires Chain(polls, len) && i < j < |polls|
    ensures polls[i].end <= polls[j].start
  {
    assert polls[j].start == StartOf(polls, j) && polls[j - 1].start <= polls[j - 1].end;
    if i < j - 1 { PollEndsGrow(polls, len, i, j - 1); }
  }

  /** A delivery of a later poll is no older than one of an earlier poll: it was either kept or not seen. */
  lemma AcrossPolls(polls: seq<Poll>, log: seq<Delivery>, mem: map<RingId, Ring>, i: nat, a: nat, b: nat)
    requires i < |polls| && PollSound(polls[i], log, mem) && !polls[i].full && AllSteady(mem)
    requires polls[i].start <= a < polls[i].end <= b < |log| && DeliveryOk(mem, log, b)
    requires NothingLate(polls, log, mem)
    ensures log[a].rec.timestamp <= log[b].rec.timestamp
  {
    hide Proj, AllSteady, Steady;
    var p, k, q := polls[i], log[b].te.ring, log[b].te.pos;
    ProjMonotone(log, p.end, b, k);
    if k in p.snap && q < p.snap[k] {
      assert KeptIsLater(p, log, mem);
    } else {
      assert log[b].rec == mem[k].pub[q];
    }
  }

  /**
    * Time order of a whole run.  If the buffer never filled, every ring's timestamps start above
    * zero and strictly increase, and no record is older than what a poll that missed it delivered,
    * then everything ever delivered, from all rings, is in timestamp order.
    */
  lemma TimeOrder(polls: seq<Poll>, log: seq<Delivery>, mem: map<RingId, Ring>, done: map<RingId, nat>)
    requires PollsOk(polls, log, mem) && LogInv(mem, done, log)
    requires AllSteady(mem) && (forall j :: 0 <= j < |polls| ==> !polls[j].full)
    requires NothingLate(polls, log, mem)
    ensures InOrder(log, 0, |log|)
  {
    hide AllSteady, Proj, Chain, NothingLate, KeptIsLater;
    forall a, b | 0 <= a < b < |log| ensures log[a].rec.timestamp <= log[b].rec.timestamp {
      assert |log| == StartOf(polls, |polls|) by { ChainLength(polls, |log|); }
      var i := PollOf(polls, |log|, |polls|, a);
      var j := PollOf(polls, |log|, |polls|, b);
      assert PollSound(polls[i], log, mem) && PollSound(polls[j], log, mem);
      if i == j {
        assert InOrder(log, polls[i].start, polls[i].end);
      } else {
        if j < i { PollEndsGrow(polls, |log|, j, i); } else { PollEndsGrow(polls, |log|, i, j); }
        assert DeliveryOk(mem, log, b);
        AcrossPolls(polls, log, mem, i, a, b);
      }
    }
  }

  lemma ChainLength(polls: seq<Poll>, n: nat)
    requires Chain(polls, n)
    ensures n == StartOf(polls, |polls|)
  {
  }
}
