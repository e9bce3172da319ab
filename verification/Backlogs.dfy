/** How many published records of the indexed rings are still undelivered. */
module Backlogs {
  import opened Wrappers
  import opened Rings
  import opened Sharing
  import opened Sums
  import opened Index
  import opened PollSteps
  import Tso

  function Undelivered(mem: map<RingId, Ring>, done: map<RingId, nat>, e: IndexEntry): int
  {
    if e.ring.Some? && e.ring.value in mem then |mem[e.ring.value].pub| - Done(done, e.ring.value) else 0
  }

  function Backlog(mem: map<RingId, Ring>, done: map<RingId, nat>, es: seq<IndexEntry>): seq<int>
  {
    seq(|es|, i requires 0 <= i < |es| => Undelivered(mem, done, es[i]))
  }

  /** The rings' publications, which is all of the memory the backlog depends on. */
  ghost predicate SamePubs(mem: map<RingId, Ring>, mem': map<RingId, Ring>)
  {
    mem'.Keys == mem.Keys && forall k :: k in mem ==> mem'[k].pub == mem[k].pub
  }

  /** A ring with nothing in it stays that way. */
  ghost predicate EmptyStays(mem: map<RingId, Ring>, mem': map<RingId, Ring>)
  {
    forall k :: k in mem && k in mem' && mem[k].Empty() ==> mem'[k].Empty()
  }

  /** Nothing has been published to the ring of entry e. */
  ghost predicate SameNews(mem: map<RingId, Ring>, mem': map<RingId, Ring>, e: IndexEntry)
  {
    e.ring.Some? ==>
      var k := e.ring.value;
      (k in mem' <==> k in mem) && (k in mem ==> |mem'[k].pub| == |mem[k].pub|)
  }

  /** Nothing has been published to any indexed ring. */
  ghost predicate NoNews(mem: map<RingId, Ring>, mem': map<RingId, Ring>, es: seq<IndexEntry>)
  {
    forall i :: 0 <= i < |es| ==> SameNews(mem, mem', es[i])
  }

  lemma SamePubsNoNews(mem: map<RingId, Ring>, mem': map<RingId, Ring>, es: seq<IndexEntry>)
    requires SamePubs(mem, mem')
    ensures NoNews(mem, mem', es)
  {
  }

  lemma BacklogSame(mem: map<RingId, Ring>, mem': map<RingId, Ring>, done: map<RingId, nat>,
                    es: seq<IndexEntry>, es': seq<IndexEntry>)
    requires NoNews(mem, mem', es) && |es| == |es'| && forall i :: 0 <= i < |es| ==> es'[i].ring == es[i].ring
    ensures Backlog(mem', done, es') == Backlog(mem, done, es)
  {
    assert forall i :: 0 <= i < |es| ==> SameNews(mem, mem', es[i]);
  }

  /** Delivering one record takes one off the backlog. */
  lemma BacklogFlush(mem: map<RingId, Ring>, mem': map<RingId, Ring>, done: map<RingId, nat>,
                     es: seq<IndexEntry>, es': seq<IndexEntry>, i: nat, k: RingId)
    requires Distinct(es) && i < |es| && es[i].ring == Some(k) && k in mem
    requires SamePubs(mem, mem') && |es| == |es'| && forall j :: 0 <= j < |es| ==> es'[j].ring == es[j].ring
    ensures Sum(Backlog(mem', done[k := Done(done, k) + 1], es')) == Sum(Backlog(mem, done, es)) - 1
  {
    var v := |mem[k].pub| - (Done(done, k) + 1);
    assert Backlog(mem', done[k := Done(done, k) + 1], es') == Backlog(mem, done, es)[i := v];
    SumUpdate(Backlog(mem, done, es), i, v);
  }

  /** Taking an entry with nothing undelivered out of the index leaves the backlog alone. */
  lemma BacklogKill(mem: map<RingId, Ring>, done: map<RingId, nat>, es: seq<IndexEntry>, i: nat, e: IndexEntry)
    requires i < |es| && Undelivered(mem, done, es[i]) == 0 && e.ring == None
    ensures Sum(Backlog(mem, done, es[i := e])) == Sum(Backlog(mem, done, es))
  {
    assert Backlog(mem, done, es[i := e]) == Backlog(mem, done, es)[i := 0];
    SumUpdate(Backlog(mem, done, es), i, 0);
  }

  lemma {:induction false} SumPointwise(a: seq<int>, b: seq<int>)
    requires |a| <= |b|
    requires forall i :: 0 <= i < |a| ==> a[i] <= b[i]
    requires forall i :: |a| <= i < |b| ==> 0 <= b[i]
    ensures Sum(a) <= Sum(b)
    decreases |b|
  {
    if |a| < |b| {
      SumPointwise(a, b[..|b| - 1]);
    } else if b != [] {
      SumPointwise(a[..|a| - 1], b[..|b| - 1]);
    }
  }

  /** What is in the buffer is part of the backlog. */
  lemma UnflushedBounded(mem: map<RingId, Ring>, done: map<RingId, nat>, es: seq<IndexEntry>, n: nat)
    requires EntriesOk(mem, done, es) && PollOk(mem, done, es, n)
    ensures 0 <= Sum(Unflushed(es, done, n)) <= Sum(Backlog(mem, done, es))
  {
    assert forall i :: 0 <= i < |es| ==> EntryOk(mem, done, es[i]);
    SumBounds(Unflushed(es, done, n));
    SumPointwise(Unflushed(es, done, n), Backlog(mem, done, es));
  }

  lemma BacklogNonNegative(mem: map<RingId, Ring>, done: map<RingId, nat>, es: seq<IndexEntry>)
    requires EntriesOk(mem, done, es)
    ensures Sum(Backlog(mem, done, es)) >= 0
    ensures forall i :: 0 <= i < |es| ==> 0 <= Undelivered(mem, done, es[i]) <= Sum(Backlog(mem, done, es))
  {
    assert forall i :: 0 <= i < |es| ==> EntryOk(mem, done, es[i]);
    SumBounds(Backlog(mem, done, es));
    assert forall i :: 0 <= i < |es| ==> Backlog(mem, done, es)[i] == Undelivered(mem, done, es[i]);
  }

  /** When every ring has been seen to its end, buffer and backlog are the same thing. */
  lemma AllSeen(mem: map<RingId, Ring>, done: map<RingId, nat>, es: seq<IndexEntry>)
    requires forall i :: 0 <= i < |es| && es[i].ring.Some? ==>
      es[i].ring.value in mem && es[i].pos == |mem[es[i].ring.value].pub|
    ensures Unflushed(es, done, |es|) == Backlog(mem, done, es)
  {
  }
}
