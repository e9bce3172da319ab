/** Building a fresh ring index from the ring map. */
module Rebuild {
  import opened Wrappers
  import opened Rings
  import opened Sharing
  import opened Sums
  import opened Sorting
  import opened Index
  import opened PollSteps
  import opened Backlogs

  /** The sequence number the old index expected from ring k; 0 if it did not know the ring. */
  ghost function OldSeqnum(es: seq<IndexEntry>, k: RingId): nat
  {
    if Indexed(es, k) then
      var i :| 0 <= i < |es| && es[i].ring == Some(k);
      es[i].seqnum
    else 0
  }

  lemma OldSeqnumAt(es: seq<IndexEntry>, i: nat)
    requires Distinct(es) && i < |es| && es[i].ring.Some?
    ensures Indexed(es, es[i].ring.value) && OldSeqnum(es, es[i].ring.value) == es[i].seqnum
  {
  }

  /** An entry as the rebuild makes it for a registered ring. */
  ghost predicate FreshEntry(sh: Shared, old_: seq<IndexEntry>, e: IndexEntry)
  {
    && e.ring.Some? && e.ring.value in sh.life && e.ring.value in sh.mem
    && Registered(sh.life, sh.regs, e.ring.value)
    && e.lastrec == None && e.seqnum == OldSeqnum(old_, e.ring.value)
  }

  /** Key for sorting by falling priority. */
  function PrioKey(life: map<RingId, Life>): IndexEntry -> int
  {
    (e: IndexEntry) => if e.ring.Some? && e.ring.value in life then -life[e.ring.value].prio else 0
  }

  /**
    * The rebuilt index: one entry per registered ring, in order of falling priority, each expecting
    * what the old index expected.
    */
  ghost predicate Rebuilt(sh: Shared, old_: seq<IndexEntry>, es: seq<IndexEntry>)
  {
    && (forall i :: 0 <= i < |es| ==> FreshEntry(sh, old_, es[i]))
    && Distinct(es)
    && (forall n :: n in sh.regs ==> Indexed(es, sh.regs[n]))
    && SortedBy(PrioKey(sh.life), es)
  }

  /** A ring of higher priority never comes after one of lower priority. */
  ghost predicate ByPriority(life: map<RingId, Life>, es: seq<IndexEntry>)
  {
    forall i, j :: 0 <= i < j < |es| && es[i].ring.Some? && es[j].ring.Some? ==>
      var a, b := es[i].ring.value, es[j].ring.value;
      a in life && b in life ==> life[a].prio >= life[b].prio
  }

  /** The index has one entry for every ring of the map, and no other. */
  ghost predicate Mirrors(sh: Shared, es: seq<IndexEntry>)
  {
    && Distinct(es) && (forall n :: n in sh.regs ==> Indexed(es, sh.regs[n]))
    && (forall i :: 0 <= i < |es| ==>
          es[i].ring.Some? && es[i].ring.value in sh.life && Registered(sh.life, sh.regs, es[i].ring.value))
  }

  lemma RebuiltMirrors(sh: Shared, old_: seq<IndexEntry>, es: seq<IndexEntry>)
    requires Rebuilt(sh, old_, es)
    ensures Mirrors(sh, es) && ByPriority(sh.life, es)
  {
    hide OldSeqnum, Distinct, Indexed;
    forall i, j | 0 <= i < j < |es| ensures sh.life[es[i].ring.value].prio >= sh.life[es[j].ring.value].prio {
      assert FreshEntry(sh, old_, es[i]) && FreshEntry(sh, old_, es[j]);
      assert PrioKey(sh.life)(es[i]) <= PrioKey(sh.life)(es[j]);
    }
  }

  // ---------------------------------------------------------------- permutations of the entries

  lemma {:induction false} NoDuplicates<T>(s: seq<T>)
    requires forall i, j :: 0 <= i < j < |s| ==> s[i] != s[j]
    ensures forall x :: multiset(s)[x] <= 1
  {
    if s != [] {
      var n := |s| - 1;
      assert s == s[..n] + [s[n]];
      NoDuplicates(s[..n]);
      assert s[n] !in s[..n];
    }
  }

  lemma DuplicateCounts<T>(s: seq<T>, i: nat, j: nat)
    requires i < j < |s| && s[i] == s[j]
    ensures multiset(s)[s[i]] >= 2
  {
    assert s == s[..j] + s[j..];
    assert s[i] in s[..j] && s[j] in s[j..];
  }

  lemma DistinctPermuted(a: seq<IndexEntry>, b: seq<IndexEntry>)
    requires Distinct(a) && multiset(a) == multiset(b) && forall i :: 0 <= i < |a| ==> a[i].ring.Some?
    ensures Distinct(b)
  {
    NoDuplicates(a);
    forall i, j | 0 <= i < j < |b| && b[i].ring.Some? ensures b[i].ring != b[j].ring {
      if b[i].ring == b[j].ring {
        assert b[i] in multiset(a) && b[j] in multiset(a);
        var p :| 0 <= p < |a| && a[p] == b[i];
        var q :| 0 <= q < |a| && a[q] == b[j];
        assert p == q;
        DuplicateCounts(b, i, j);
      }
    }
  }

  lemma SeqnumsWithout(b: seq<IndexEntry>, j: nat)
    requires j < |b|
    ensures Sum(Seqnums(b)) == Sum(Seqnums(b[..j] + b[j + 1..])) + b[j].seqnum
  {
    hide Sum;
    SumWithout(Seqnums(b), j);
    assert Seqnums(b[..j] + b[j + 1..]) == Seqnums(b)[..j] + Seqnums(b)[j + 1..];
  }

  lemma {:induction false} SeqnumsPermuted(a: seq<IndexEntry>, b: seq<IndexEntry>)
    requires multiset(a) == multiset(b)
    ensures Sum(Seqnums(a)) == Sum(Seqnums(b))
  {
    hide Sum, Seqnums;
    assert |a| == |multiset(a)| == |multiset(b)| == |b|;
    if a == [] {
      assert a == b;
    } else {
      var n := |a| - 1;
      assert a[n] in multiset(b);
      var j :| 0 <= j < |b| && b[j] == a[n];
      SeqnumsWithout(b, j);
      SeqnumsWithout(a, n);
      MultisetWithout(b, j);
      MultisetWithout(a, n);
      assert a[..n] + a[n + 1..] == a[..n];
      SeqnumsPermuted(a[..n], b[..j] + b[j + 1..]);
    }
  }

  /** Sorting by priority keeps the index complete and the sum of its seqnums. */
  lemma RebuiltSorted(sh: Shared, old_: seq<IndexEntry>, a: seq<IndexEntry>, b: seq<IndexEntry>)
    requires (forall i :: 0 <= i < |a| ==> FreshEntry(sh, old_, a[i])) && Distinct(a)
    requires forall n :: n in sh.regs ==> Indexed(a, sh.regs[n])
    requires IsSorting(PrioKey(sh.life), a, b)
    ensures Rebuilt(sh, old_, b) && Sum(Seqnums(b)) == Sum(Seqnums(a))
  {
    hide FreshEntry, SortedBy, Sum, Seqnums;
    SeqnumsPermuted(a, b);
    assert forall i :: 0 <= i < |a| ==> a[i].ring.Some? by { FreshHasRing(sh, old_, a); }
    DistinctPermuted(a, b);
    forall i | 0 <= i < |b| ensures FreshEntry(sh, old_, b[i]) {
      assert b[i] in multiset(a);
      var p :| 0 <= p < |a| && a[p] == b[i];
    }
    forall n | n in sh.regs ensures Indexed(b, sh.regs[n]) {
      var p :| 0 <= p < |a| && a[p].ring == Some(sh.regs[n]);
      assert a[p] in multiset(b);
      var i :| 0 <= i < |b| && b[i] == a[p];
    }
  }

  lemma FreshHasRing(sh: Shared, old_: seq<IndexEntry>, a: seq<IndexEntry>)
    requires forall i :: 0 <= i < |a| ==> FreshEntry(sh, old_, a[i])
    ensures forall i :: 0 <= i < |a| ==> a[i].ring.Some?
  {
  }

  // ---------------------------------------------------------------- sums over the indexed rings

  /** The weights of the indexed rings that lie in `todo`. */
  ghost function Weights(es: seq<IndexEntry>, todo: set<RingId>, w: RingId -> int): seq<int>
  {
    seq(|es|, i requires 0 <= i < |es| =>
      if es[i].ring.Some? && es[i].ring.value in todo then w(es[i].ring.value) else 0)
  }

  lemma WeightsStep(es: seq<IndexEntry>, todo: set<RingId>, w: RingId -> int, k: RingId)
    requires Distinct(es) && k in todo
    ensures Sum(Weights(es, todo, w)) == Sum(Weights(es, todo - {k}, w)) + (if Indexed(es, k) then w(k) else 0)
  {
    hide Sum;
    if Indexed(es, k) {
      var i :| 0 <= i < |es| && es[i].ring == Some(k);
      assert Weights(es, todo - {k}, w) == Weights(es, todo, w)[i := 0];
      SumUpdate(Weights(es, todo, w), i, 0);
    } else {
      assert Weights(es, todo - {k}, w) == Weights(es, todo, w);
    }
  }

  /** Two indexes that differ only in rings of weight zero have the same total weight. */
  lemma {:induction false} SameWeights(a: seq<IndexEntry>, b: seq<IndexEntry>, todo: set<RingId>, w: RingId -> int)
    requires Distinct(a) && Distinct(b)
    requires forall k :: k in todo && Indexed(a, k) != Indexed(b, k) ==> w(k) == 0
    ensures Sum(Weights(a, todo, w)) == Sum(Weights(b, todo, w))
    decreases |todo|
  {
    hide Sum, Indexed;
    if todo == {} {
      SumZero(Weights(a, todo, w));
      SumZero(Weights(b, todo, w));
    } else {
      var k :| k in todo;
      WeightsStep(a, todo, w, k);
      WeightsStep(b, todo, w, k);
      SameWeights(a, b, todo - {k}, w);
    }
  }

  lemma {:induction false} SumAdd(a: seq<int>, b: seq<int>, c: seq<int>)
    requires |a| == |b| == |c| && forall i :: 0 <= i < |a| ==> a[i] == b[i] + c[i]
    ensures Sum(a) == Sum(b) + Sum(c)
  {
    if a != [] {
      var n := |a| - 1;
      SumAdd(a[..n], b[..n], c[..n]);
    }
  }

  lemma {:induction false} SumZero(a: seq<int>)
    requires forall i :: 0 <= i < |a| ==> a[i] == 0
    ensures Sum(a) == 0
  {
    if a != [] { SumZero(a[..|a| - 1]); }
  }

  /** The expected seqnums of entries whose ring has been killed. */
  function Dead(es: seq<IndexEntry>): seq<int>
  {
    seq(|es|, i requires 0 <= i < |es| => if es[i].ring == None then es[i].seqnum else 0)
  }

  /** No expected seqnum is lost by a rebuild: survivors keep theirs, the rest belonged to killed rings. */
  lemma RebuiltSeqnums(sh: Shared, old_: seq<IndexEntry>, es: seq<IndexEntry>)
    requires IndexOk(sh, old_) && Rebuilt(sh, old_, es)
    ensures Sum(Seqnums(old_)) == Sum(Seqnums(es)) + Sum(Dead(old_)) && Sum(Dead(old_)) >= 0
  {
    hide Sum, SortedBy;
    var w := (k: RingId) => OldSeqnum(old_, k);
    var all := sh.mem.Keys;
    forall k | k in all && Indexed(old_, k) ensures Indexed(es, k) {
      var i :| 0 <= i < |old_| && old_[i].ring == Some(k);
      assert Registered(sh.life, sh.regs, k);
      assert Indexed(es, sh.regs[sh.life[k].name]);
    }
    SameWeights(old_, es, all, w);
    forall i | 0 <= i < |old_| ensures Seqnums(old_)[i] == Weights(old_, all, w)[i] + Dead(old_)[i] {
      if old_[i].ring.Some? { OldSeqnumAt(old_, i); }
    }
    SumAdd(Seqnums(old_), Weights(old_, all, w), Dead(old_));
    forall i | 0 <= i < |es| ensures Seqnums(es)[i] == Weights(es, all, w)[i] {
      assert FreshEntry(sh, old_, es[i]);
    }
    assert Seqnums(es) == Weights(es, all, w);
    SumBounds(Dead(old_));
  }

  /** If the old index knew every registered ring, the new one has the same rings. */
  lemma RebuiltSameRings(sh: Shared, old_: seq<IndexEntry>, es: seq<IndexEntry>, k: RingId)
    requires IndexOk(sh, old_) && Rebuilt(sh, old_, es)
    requires forall n :: n in sh.regs ==> Indexed(old_, sh.regs[n])
    ensures Indexed(old_, k) == Indexed(es, k)
  {
    hide SortedBy;
    if Indexed(old_, k) {
      var i :| 0 <= i < |old_| && old_[i].ring == Some(k);
      assert Registered(sh.life, sh.regs, k);
      assert Indexed(es, sh.regs[sh.life[k].name]);
    }
    if Indexed(es, k) {
      var i :| 0 <= i < |es| && es[i].ring == Some(k);
      assert FreshEntry(sh, old_, es[i]);
      assert Indexed(old_, sh.regs[sh.life[k].name]);
    }
  }

  /** If the old index knew every registered ring, a rebuild leaves the backlog as it was. */
  lemma RebuiltBacklog(sh: Shared, old_: seq<IndexEntry>, es: seq<IndexEntry>, done: map<RingId, nat>)
    requires IndexOk(sh, old_) && Rebuilt(sh, old_, es)
    requires forall n :: n in sh.regs ==> Indexed(old_, sh.regs[n])
    ensures Sum(Backlog(sh.mem, done, es)) == Sum(Backlog(sh.mem, done, old_))
  {
    hide Sum, SortedBy, Indexed, OldSeqnum;
    var w := (k: RingId) => if k in sh.mem then |sh.mem[k].pub| - Done(done, k) else 0;
    var all := sh.mem.Keys;
    forall k | k in all ensures Indexed(old_, k) == Indexed(es, k) {
      RebuiltSameRings(sh, old_, es, k);
    }
    SameWeights(old_, es, all, w);
    assert Backlog(sh.mem, done, old_) == Weights(old_, all, w);
    forall i | 0 <= i < |es| ensures Backlog(sh.mem, done, es)[i] == Weights(es, all, w)[i] {
      assert FreshEntry(sh, old_, es[i]);
    }
    assert Backlog(sh.mem, done, es) == Weights(es, all, w);
  }

  // ---------------------------------------------------------------- the engine's invariants

  /** The counts at which rings came into the index, after the rebuild of `old_` into `es`. */
  ghost function Rebased(mem: map<RingId, Ring>, old_: seq<IndexEntry>, es: seq<IndexEntry>, done: map<RingId, nat>,
                         log: seq<Delivery>, base: map<RingId, nat>): map<RingId, nat>
  {
    map k | k in mem :: if Indexed(es, k) && !Indexed(old_, k) then Accounted(log, done, k) else Base(base, k)
  }

  lemma FreshEntryOk(mem: map<RingId, Ring>, sh: Shared, done: map<RingId, nat>, old_: seq<IndexEntry>, e: IndexEntry)
    requires EntriesOk(mem, done, old_) && mem == sh.mem && FreshEntry(sh, old_, e) && MemInv(mem, done)
    requires Done(done, e.ring.value) == mem[e.ring.value].h
    ensures EntryOk(mem, done, e)
  {
    hide RingInv, LifeInv;
    var k := e.ring.value;
    RingShaped(mem[k], Done(done, k));
    if Indexed(old_, k) {
      var i :| 0 <= i < |old_| && old_[i].ring == Some(k) && old_[i].seqnum == OldSeqnum(old_, k);
      assert EntryOk(mem, done, old_[i]);
    }
  }

  lemma RebuiltDrops(sh: Shared, old_: seq<IndexEntry>, es: seq<IndexEntry>, done: map<RingId, nat>,
                     log: seq<Delivery>, base: map<RingId, nat>)
    requires DropInv(sh.mem, done, old_, log, base) && Rebuilt(sh, old_, es)
    ensures DropInv(sh.mem, done, es, log, Rebased(sh.mem, old_, es, done, log, base))
  {
    hide SortedBy, Missed;
    var base' := Rebased(sh.mem, old_, es, done, log, base);
    forall k | k in sh.mem ensures DropOk(sh.mem, done, log, base', k) {
      assert DropOk(sh.mem, done, log, base, k);
    }
    forall i | 0 <= i < |es| && es[i].ring.Some?
      ensures var k := es[i].ring.value; k in sh.mem && es[i].seqnum + Base(base', k) == Accounted(log, done, k)
    {
      assert FreshEntry(sh, old_, es[i]);
      var k := es[i].ring.value;
      assert Indexed(es, k);
      if Indexed(old_, k) {
        var j :| 0 <= j < |old_| && old_[j].ring == Some(k) && old_[j].seqnum == OldSeqnum(old_, k);
      }
    }
  }

  /** Swapping in the rebuilt index between polls keeps everything, and nothing counted gets lost. */
  lemma RebuildStep(sh: Shared, old_: seq<IndexEntry>, es: seq<IndexEntry>, done: map<RingId, nat>,
                    log: seq<Delivery>, base: map<RingId, nat>)
    requires Core(sh, old_, done, None, log, base) && PollOk(sh.mem, done, old_, 0)
    requires Rebuilt(sh, old_, es)
    ensures Core(sh.(dirty := false), es, done, None, log, Rebased(sh.mem, old_, es, done, log, base))
    ensures PollOk(sh.mem, done, es, 0)
  {
    hide RingInv, LifeInv, LogInv, DropInv, SortedBy;
    forall k | k in sh.mem ensures Done(done, k) == sh.mem[k].h {
      if Indexed(old_, k) {
        var i :| 0 <= i < |old_| && old_[i].ring == Some(k);
        assert EntryOk(sh.mem, done, old_[i]);
      }
    }
    forall i | 0 <= i < |es| ensures EntryOk(sh.mem, done, es[i]) {
      assert FreshEntry(sh, old_, es[i]);
      FreshEntryOk(sh.mem, sh, done, old_, es[i]);
    }
    RebuiltDrops(sh, old_, es, done, log, base);
  }
}
