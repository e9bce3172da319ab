/** What the engine's invariants mean to a user of the library. */
module Guarantees {
  import opened Wrappers
  import opened Rings
  import opened Sharing
  import opened Chronicles
  import opened Sums
  import opened Index
  import opened Backlogs
  import opened PollSteps
  import opened Output
  import opened History
  import Tso

  // ---------------------------------------------------------------- exactly once, in order

  /** Deliveries of one ring take its positions one by one. */
  lemma {:induction false} PositionsGrow(log: seq<Delivery>, i: nat, j: nat)
    requires i <= j < |log| && log[i].te.ring == log[j].te.ring
    ensures |Proj(log[..i], log[i].te.ring)| + (if i < j then 1 else 0) <= |Proj(log[..j], log[j].te.ring)|
    decreases j
  {
    var k := log[i].te.ring;
    ProjStep(log, i, k);
    if i < j { ProjGrows(log, i + 1, j, k); }
  }

  lemma ProjStep(log: seq<Delivery>, i: nat, k: RingId)
    requires i < |log|
    ensures Proj(log[..i + 1], k) == Proj(log[..i], k) + (if log[i].te.ring == k then [log[i].rec] else [])
  {
    assert log[..i + 1] == log[..i] + [log[i]];
    LogAppend(log[..i], log[i]);
  }

  lemma {:induction false} ProjGrows(log: seq<Delivery>, a: nat, b: nat, k: RingId)
    requires a <= b <= |log|
    ensures Proj(log[..a], k) <= Proj(log[..b], k)
  {
    if a < b {
      ProjGrows(log, a, b - 1, k);
      ProjStep(log, b - 1, k);
    }
  }

  /** The delivery that took ring k's position p. */
  lemma {:induction false} DeliveryOf(log: seq<Delivery>, k: RingId, p: nat) returns (j: nat)
    requires p < |Proj(log, k)|
    ensures j < |log| && log[j].te.ring == k && |Proj(log[..j], k)| == p
  {
    var n := |log| - 1;
    assert log == log[..n + 1];
    ProjStep(log, n, k);
    if p < |Proj(log[..n], k)| {
      j := DeliveryOf(log[..n], k, p);
      assert log[..n][..j] == log[..j];
    } else {
      j := n;
    }
  }

  /** Some call of flush_record was given record r from position p of ring k. */
  ghost predicate DeliveredAt(log: seq<Delivery>, k: RingId, p: nat, r: Record)
  {
    exists j :: 0 <= j < |log| && log[j].te.ring == k && log[j].te.pos == p && log[j].rec == r
  }

  /**
    * Exactly once, in order: what has been delivered from a ring is a prefix of what was published
    * to it; each of those records was delivered by exactly one call of flush_record, and the calls
    * came in publication order.
    */
  lemma ExactlyOnce(sh: Shared, es: seq<IndexEntry>, done: map<RingId, nat>, owed: Option<RingId>,
                    log: seq<Delivery>, base: map<RingId, nat>, k: RingId)
    requires Core(sh, es, done, owed, log, base) && k in sh.mem
    ensures Proj(log, k) <= sh.mem[k].pub && |Proj(log, k)| == Done(done, k)
    ensures forall i, j :: 0 <= i < j < |log| && log[i].te.ring == log[j].te.ring == k ==> log[i].te.pos < log[j].te.pos
    ensures forall p: nat :: p < Done(done, k) ==> DeliveredAt(log, k, p, sh.mem[k].pub[p])
    ensures forall j :: 0 <= j < |log| && log[j].te.ring == k ==> log[j].te.pos < Done(done, k)
  {
    hide SharedInv, IndexOk, EntriesOk, DropInv, Proj, Steady;
    forall i, j | 0 <= i < j < |log| && log[i].te.ring == log[j].te.ring == k ensures log[i].te.pos < log[j].te.pos {
      assert DeliveryOk(sh.mem, log, i) && DeliveryOk(sh.mem, log, j);
      PositionsGrow(log, i, j);
    }
    forall p: nat | p < Done(done, k) ensures DeliveredAt(log, k, p, sh.mem[k].pub[p]) {
      var j := DeliveryOf(log, k, p);
      assert DeliveryOk(sh.mem, log, j);
    }
    forall j | 0 <= j < |log| && log[j].te.ring == k ensures log[j].te.pos < Done(done, k) {
      assert DeliveryOk(sh.mem, log, j);
      ProjStep(log, j, k);
      ProjGrows(log, j + 1, |log|, k);
      assert log[..|log|] == log;
    }
  }

  /** Each of these records is what one of the posts among the steps `steps` has passed. */
  ghost predicate AllPosted(recs: seq<Record>, steps: seq<Act>)
  {
    forall p :: 0 <= p < |recs| ==> Posted(steps, recs[p])
  }

  /**
    * What is delivered is what was posted: every record delivered from a ring that other threads have added is
    * the one that some post of theirs has passed, with its timestamp, area, section, type word and
    * arguments, and with the number of posts and flushes begun before it as its sequence number.
    */
  lemma DeliveredAsPosted(sh: Shared, es: seq<IndexEntry>, done: map<RingId, nat>, owed: Option<RingId>,
                          log: seq<Delivery>, base: map<RingId, nat>, k: RingId)
    requires Core(sh, es, done, owed, log, base) && Recorded(sh) && k in sh.mem && Added(sh.acts, k)
    ensures AllPosted(Proj(log, k), RingActs(sh.acts, k))
  {
    hide IndexOk, EntriesOk, DropInv, Proj, LifeInv, MemInv, Posted, RingActs, Added, Progress, DeliveryOk;
    assert Explained(sh, k);
    assert Proj(log, k) == sh.mem[k].pub[..Done(done, k)];
  }

  /** The record lines that came from ring k. */
  function LinesOf(lines: seq<(RingId, Record)>, k: RingId): seq<Record>
  {
    if lines == [] then []
    else
      var n := |lines| - 1;
      LinesOf(lines[..n], k) + (if lines[n].0 == k then [lines[n].1] else [])
  }

  function RegularOnly(s: seq<Record>): seq<Record>
  {
    if s == [] then []
    else RegularOnly(s[..|s| - 1]) + (if s[|s| - 1].Special() then [] else [s[|s| - 1]])
  }

  lemma {:induction false} LinesAreRegulars(log: seq<Delivery>, k: RingId)
    ensures LinesOf(Regulars(log), k) == RegularOnly(Proj(log, k))
  {
    if log != [] {
      var n := |log| - 1;
      LinesAreRegulars(log[..n], k);
      var a, b, d := Regulars(log[..n]), Proj(log[..n], k), log[n];
      assert (a + [(d.te.ring, d.rec)])[..|a|] == a && a + [] == a;
      assert (b + [d.rec])[..|b|] == b && b + [] == b;
    }
  }

  /** The output shows, ring by ring, the regular records of a prefix of what was published. */
  lemma OutputIsPublished(sh: Shared, es: seq<IndexEntry>, done: map<RingId, nat>, owed: Option<RingId>,
                          log: seq<Delivery>, base: map<RingId, nat>, output: seq<Item>, k: RingId)
    requires Core(sh, es, done, owed, log, base) && Lines(output) == Regulars(log) && k in sh.mem
    ensures Done(done, k) <= |sh.mem[k].pub|
    ensures LinesOf(Lines(output), k) == RegularOnly(sh.mem[k].pub[..Done(done, k)])
  {
    hide SharedInv, IndexOk, EntriesOk, DropInv, DeliveryOk, Proj;
    LinesAreRegulars(log, k);
  }

  /** The record lines of the output come in time order. */
  ghost predicate LinesInOrder(lines: seq<(RingId, Record)>)
  {
    forall a, b :: 0 <= a < b < |lines| ==> lines[a].1.timestamp <= lines[b].1.timestamp
  }

  lemma {:induction false} RegularsUpTo(log: seq<Delivery>, t: nat)
    requires forall j :: 0 <= j < |log| ==> log[j].rec.timestamp <= t
    ensures forall a :: 0 <= a < |Regulars(log)| ==> Regulars(log)[a].1.timestamp <= t
  {
    if log != [] { RegularsUpTo(log[..|log| - 1], t); }
  }

  /** If the records were delivered in time order, then their lines stand in time order. */
  lemma {:induction false} OrderedLines(log: seq<Delivery>)
    requires InOrder(log, 0, |log|)
    ensures LinesInOrder(Regulars(log))
  {
    if log != [] {
      var n := |log| - 1;
      OrderedLines(log[..n]);
      RegularsUpTo(log[..n], log[n].rec.timestamp);
    }
  }

  // ---------------------------------------------------------------- flush

  /**
    * The flush guarantee.  While a poster waits for the ack of its special record at position p, the
    * ack word it polls reads as acked if and only if flush_record has been through that very record;
    * then every record published to the ring before it has been delivered too.
    */
  lemma FlushGuarantee(sh: Shared, es: seq<IndexEntry>, done: map<RingId, nat>, owed: Option<RingId>,
                       log: seq<Delivery>, base: map<RingId, nat>, k: RingId)
    requires Core(sh, es, done, owed, log, base) && k in sh.mem && sh.mem[k].Shaped() && sh.mem[k].pc.AckWait?
    ensures var r, p := sh.mem[k], sh.mem[k].pc.pos;
            && p < |r.pub| && r.pub[p].Special()
            && (Enabled(r, AckSeen) <==> p < |Proj(log, k)|)
            && (Enabled(r, AckSeen) ==> Proj(log, k)[..p + 1] == r.pub[..p + 1])
  {
    hide LifeInv, IndexOk, EntriesOk, DropInv, DeliveryOk, Proj, SeqnumsOk;
    var r, p := sh.mem[k], sh.mem[k].pc.pos;
    assert RingInv(r, Done(done, k));
    assert Live(r, p);
    if p < Done(done, k) {
      assert r.pub[..Done(done, k)][..p + 1] == r.pub[..p + 1];
    }
  }
}
