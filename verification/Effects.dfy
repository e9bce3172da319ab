/**
  * What the parts of a poll change: relations between the state before and the state after, and how
  * they compose over interference and over the loops of the engine.
  */
module Effects {
  import opened Wrappers
  import opened Rings
  import opened Sharing
  import opened Chronicles
  import opened Sorting
  import opened Sums
  import opened Index
  import opened PollSteps
  import opened Backlogs
  import opened Orphans
  import opened Abandoned
  import opened Commits
  import opened Rebuild
  import opened Output
  import opened History
  import Tso

  /** A snapshot of the engine and of what it shares; `full` counts the emergency flushes. */
  datatype State = State(sh: Shared, es: seq<IndexEntry>, done: map<RingId, nat>, log: seq<Delivery>, full: nat)
  {
    /** How many published records of the indexed rings are undelivered. */
    ghost function Owing(): int { Sum(Backlog(sh.mem, done, es)) }
  }

  /** Same rings, same iterator positions. */
  ghost predicate SameIterators(es: seq<IndexEntry>, es': seq<IndexEntry>)
  {
    && |es'| == |es|
    && forall i :: 0 <= i < |es| ==> es'[i].ring == es[i].ring && es'[i].pos == es[i].pos && es'[i].lim == es[i].lim
  }

  /** Nothing but ring heads and ack words can change without another thread. */
  ghost predicate Still(sh: Shared, sh': Shared)
  {
    && sh'.quiet == sh.quiet
    && (sh.quiet ==> SamePubs(sh.mem, sh'.mem) && EmptyStays(sh.mem, sh'.mem) && sh' == sh.(mem := sh'.mem))
  }

  lemma StartOk(sh: Shared)
    requires SharedInv(sh, map[], None) && sh.regs == map[] && sh.dirty
    requires forall k :: k in sh.mem ==> sh.mem[k].h == 0
    ensures Core(sh, [], map[], None, [], map[]) && PollsOk([], [], sh.mem)
    ensures PollOk(sh.mem, map[], [], 0) && TsoInv(sh.mem, map[], [], 0, multiset{})
  {
    hide LifeInv, RingInv;
  }

  lemma StartTally(sh: Shared)
    ensures Tallied(0, 0, [], [], 0, []) && Buried(sh, map[], map[]) && FullCounted([], 0)
  {
  }

  /** What flushing one entry changes outside the invariants: nothing but one unit of backlog. */
  lemma FlushFrame(sh: Shared, es: seq<IndexEntry>, done: map<RingId, nat>, te: Tso.Entry, r: Record,
                   sh': Shared, es': seq<IndexEntry>, done': map<RingId, nat>)
    requires Distinct(es)
    requires te.tag < |es| && es[te.tag].ring == Some(te.ring) && te.ring in sh.mem && sh.mem[te.ring].Shaped()
    requires te.pos == Done(done, te.ring)
    requires sh' == sh.(mem := sh.mem[te.ring := AckSlot(sh.mem[te.ring], te.pos)])
    requires es' == es[te.tag := FlushedEntry(es[te.tag], te.pos, r)]
    requires done' == done[te.ring := te.pos + 1]
    ensures SameIterators(es, es') && SamePubs(sh.mem, sh'.mem) && Grows(sh.mem, sh'.mem)
    ensures Sum(Backlog(sh'.mem, done', es')) == Sum(Backlog(sh.mem, done, es)) - 1
  {
    hide Sum, Backlog;
    BacklogFlush(sh.mem, sh'.mem, done, es, es', te.tag, te.ring);
  }

  lemma StillAfter(sh0: Shared, sh1: Shared, sh2: Shared)
    requires EnvRely(sh0, sh1) && SamePubs(sh1.mem, sh2.mem) && sh2 == sh1.(mem := sh2.mem)
    requires Grows(sh0.mem, sh1.mem) && Grows(sh1.mem, sh2.mem)
    ensures Still(sh0, sh2) && Grows(sh0.mem, sh2.mem)
  {
    hide MemRely, LifeRely;
  }

  /**
    * What flushing the entries `s`, in that order, does to everything but the invariants: the log
    * grows by their deliveries, buffer and backlog shrink by as many, iterators stay where they are.
    */
  ghost predicate Flushed(st0: State, st: State, n: nat, s: seq<Tso.Entry>)
  {
    && SameIterators(st0.es, st.es) && Grows(st0.sh.mem, st.sh.mem) && Still(st0.sh, st.sh)
    && |st.log| == |st0.log| + |s| && st.log[..|st0.log|] == st0.log
    && (forall j :: 0 <= j < |s| ==> st.log[|st0.log| + j].te == s[j])
    && Sum(Unflushed(st.es, st.done, n)) == Sum(Unflushed(st0.es, st0.done, n)) - |s|
    && (NoNews(st0.sh.mem, st.sh.mem, st0.es) ==> st.Owing() == st0.Owing() - |s|)
  }

  lemma FlushedNothing(st: State, n: nat)
    ensures Flushed(st, st, n, [])
  {
  }

  /** The count of emergency flushes is no part of it. */
  lemma FlushedCounted(st0: State, st: State, n: nat, s: seq<Tso.Entry>, full: nat)
    requires Flushed(st0, st, n, s)
    ensures Flushed(st0, st.(full := full), n, s)
  {
    hide Sum, Backlog, Unflushed, Grows, NoNews, SameIterators, Still;
  }

  lemma FlushedTransitive(st0: State, st1: State, st2: State, n: nat, s: seq<Tso.Entry>, t: seq<Tso.Entry>)
    requires Flushed(st0, st1, n, s)
    requires Flushed(st1, st2, n, t)
    ensures Flushed(st0, st2, n, s + t)
  {
    hide Sum, Backlog, Unflushed, Grows, PubsGrow, NoNews, SameIterators;
    GrowsTransitive(st0.sh.mem, st1.sh.mem, st2.sh.mem);
    SameIteratorsTransitive(st0.es, st1.es, st2.es);
    NewsSplits(st0, st1, st2);
    assert st2.log[..|st0.log|] == st2.log[..|st1.log|][..|st0.log|];
    forall j | 0 <= j < |s + t| ensures st2.log[|st0.log| + j].te == (s + t)[j] {
      if j < |s| {
        assert st2.log[|st0.log| + j] == st1.log[|st0.log| + j];
      } else {
        assert st2.log[|st0.log| + j].te == st2.log[|st1.log| + (j - |s|)].te == t[j - |s|];
      }
    }
  }

  lemma SameIteratorsTransitive(a: seq<IndexEntry>, b: seq<IndexEntry>, c: seq<IndexEntry>)
    requires SameIterators(a, b) && SameIterators(b, c)
    ensures SameIterators(a, c) && RingsKept(a, b) && RingsKept(b, c)
  {
  }

  /** Entries keep their rings or lose them. */
  ghost predicate RingsKept(es: seq<IndexEntry>, es': seq<IndexEntry>)
  {
    |es'| == |es| && forall j :: 0 <= j < |es| ==> es'[j].ring == es[j].ring || es'[j].ring == None
  }

  /** If nothing was published over two steps, nothing was published in either. */
  lemma NewsSplits(st0: State, st1: State, st2: State)
    requires Grows(st0.sh.mem, st1.sh.mem) && Grows(st1.sh.mem, st2.sh.mem) && RingsKept(st0.es, st1.es)
    ensures NoNews(st0.sh.mem, st2.sh.mem, st0.es) ==>
      NoNews(st0.sh.mem, st1.sh.mem, st0.es) && NoNews(st1.sh.mem, st2.sh.mem, st1.es)
  {
    GrowsPubs(st0.sh.mem, st1.sh.mem);
    GrowsPubs(st1.sh.mem, st2.sh.mem);
    if NoNews(st0.sh.mem, st2.sh.mem, st0.es) {
      NoNewsSplit(st0.sh.mem, st1.sh.mem, st2.sh.mem, st0.es, st1.es);
    }
  }

  lemma NoNewsSplit(mem0: map<RingId, Ring>, mem1: map<RingId, Ring>, mem2: map<RingId, Ring>,
                    es0: seq<IndexEntry>, es1: seq<IndexEntry>)
    requires PubsGrow(mem0, mem1) && PubsGrow(mem1, mem2) && RingsKept(es0, es1) && NoNews(mem0, mem2, es0)
    ensures NoNews(mem0, mem1, es0) && NoNews(mem1, mem2, es1)
  {
    forall i | 0 <= i < |es1| ensures SameNews(mem0, mem1, es0[i]) && SameNews(mem1, mem2, es1[i]) {
      assert SameNews(mem0, mem2, es0[i]);
    }
  }

  lemma FlushedOneMore(st0: State, st1: State, st2: State, n: nat, s: seq<Tso.Entry>, j: nat)
    requires j < |s|
    requires Flushed(st0, st1, n, s[..j])
    requires Flushed(st1, st2, n, [s[j]])
    ensures Flushed(st0, st2, n, s[..j + 1])
  {
    hide Flushed;
    assert s[..j + 1] == s[..j] + [s[j]];
    FlushedTransitive(st0, st1, st2, n, s[..j], [s[j]]);
  }

  lemma GrowsTransitive(a: map<RingId, Ring>, b: map<RingId, Ring>, c: map<RingId, Ring>)
    requires Grows(a, b) && Grows(b, c)
    ensures Grows(a, c)
  {
  }

  lemma CoreIndex(sh: Shared, es: seq<IndexEntry>, done: map<RingId, nat>, owed: Option<RingId>,
                  log: seq<Delivery>, base: map<RingId, nat>)
    requires Core(sh, es, done, owed, log, base)
    ensures IndexOk(sh, es) && Distinct(es) && EntriesOk(sh.mem, done, es) && LogInv(sh.mem, done, log)
  {
    hide SharedInv, LogInv, DropInv, EntriesOk;
  }

  /** The first entry of a sorted buffer is one of its oldest. */
  lemma OldestOfSorted(s: seq<Tso.Entry>, j: nat)
    requires SortedBy(Tso.Time, s) && j < |s|
    ensures Oldest(multiset(s[j..]), s[j]) && multiset(s[j..]) - multiset{s[j]} == multiset(s[j + 1..])
  {
    assert s[j..] == [s[j]] + s[j + 1..];
    forall e | e in multiset(s[j..]) ensures s[j].timestamp <= e.timestamp {
      assert e in s[j..];
      var i :| j <= i < |s| && s[i] == e;
      assert Tso.Time(s[j]) <= Tso.Time(s[i]);
    }
  }

  /** Every pointer in the buffer can be followed. */
  lemma PointerValid(sh: Shared, es: seq<IndexEntry>, done: map<RingId, nat>, owed: Option<RingId>,
                     log: seq<Delivery>, base: map<RingId, nat>, n: nat, m: multiset<Tso.Entry>, te: Tso.Entry)
    requires Core(sh, es, done, owed, log, base) && TsoInv(sh.mem, done, es, n, m) && te in m
    ensures te.ring in sh.mem && sh.mem[te.ring].Shaped() && te.pos < |sh.mem[te.ring].pub|
    ensures sh.mem[te.ring].Slot(te.pos) == sh.mem[te.ring].pub[te.pos]
  {
    hide LifeInv, LogInv, DropInv, EntriesOk, IndexOk, Steady;
    assert TsoEntryOk(sh.mem, done, es, n, te);
    assert RingInv(sh.mem[te.ring], Done(done, te.ring));
    assert Live(sh.mem[te.ring], te.pos);
  }

  /** All but entry i keep their rings and iterators; entry i keeps its ring. */
  ghost predicate SameExcept(es: seq<IndexEntry>, es': seq<IndexEntry>, i: nat)
  {
    && |es'| == |es| && i < |es|
    && es'[i].ring == es[i].ring
    && forall j :: 0 <= j < |es| && j != i ==>
         es'[j].ring == es[j].ring && es'[j].pos == es[j].pos && es'[j].lim == es[j].lim
  }

  /** How reading from entry i may change the engine; `full0` and `full` count the emergency flushes. */
  ghost predicate Reading(st0: State, st: State, i: nat, capacity: nat)
  {
    && SameExcept(st0.es, st.es, i) && Grows(st0.sh.mem, st.sh.mem) && Still(st0.sh, st.sh)
    && st0.log <= st.log && st0.full <= st.full && (st.full == st0.full ==> st.log == st0.log)
    && (NoNews(st0.sh.mem, st.sh.mem, st0.es) ==>
          && st.Owing() + |st.log| == st0.Owing() + |st0.log|
          && (st0.full < st.full ==> capacity <= st0.Owing()))
  }

  lemma ReadingTransitive(st0: State, st1: State, st2: State, i: nat, capacity: nat)
    requires Reading(st0, st1, i, capacity)
    requires Reading(st1, st2, i, capacity)
    ensures Reading(st0, st2, i, capacity)
  {
    hide Sum, Backlog, Grows, NoNews;
    GrowsTransitive(st0.sh.mem, st1.sh.mem, st2.sh.mem);
    assert RingsKept(st0.es, st1.es);
    NewsSplits(st0, st1, st2);
  }

  lemma PrevSubset(mem: map<RingId, Ring>, mem': map<RingId, Ring>, e: IndexEntry, e': IndexEntry, k: RingId,
                   m: multiset<Tso.Entry>, m': multiset<Tso.Entry>, prev: nat)
    requires PrevOk(mem, e, k, m, prev) && Grows(mem, mem') && m' <= m
    requires e'.ring == e.ring && e'.pos == e.pos
    ensures PrevOk(mem', e', k, m', prev)
  {
    PrevStable(mem, mem', e, k, m, prev);
  }

  lemma SuffixMultiset(s: seq<Tso.Entry>, c: nat)
    requires c <= |s|
    ensures multiset(s[c..]) <= multiset(s)
  {
    assert s == s[..c] + s[c..];
  }

  lemma ReadingInterfered(st0: State, st: State, i: nat, capacity: nat)
    requires st == st0.(sh := st.sh) && EnvRely(st0.sh, st.sh) && Grows(st0.sh.mem, st.sh.mem) && i < |st.es|
    ensures Reading(st0, st, i, capacity)
  {
    hide Sum, Backlog, MemRely, LifeRely, Grows, NoNews;
    if NoNews(st0.sh.mem, st.sh.mem, st0.es) { BacklogSame(st0.sh.mem, st.sh.mem, st.done, st.es, st.es); }
  }

  /** One entry flushed after some interference. */
  lemma FlushedAfter(st0: State, st1: State, st: State, n: nat, te: Tso.Entry)
    requires st1 == st0.(sh := st1.sh) && EnvRely(st0.sh, st1.sh) && Grows(st0.sh.mem, st1.sh.mem)
    requires SamePubs(st1.sh.mem, st.sh.mem) && st.sh == st1.sh.(mem := st.sh.mem) && Grows(st1.sh.mem, st.sh.mem)
    requires SameIterators(st1.es, st.es) && st.Owing() == st1.Owing() - 1
    requires |st.log| == |st1.log| + 1 && st.log[..|st1.log|] == st1.log && st.log[|st1.log|].te == te
    requires Sum(Unflushed(st.es, st.done, n)) == Sum(Unflushed(st1.es, st1.done, n)) - 1
    ensures Flushed(st0, st, n, [te])
  {
    hide Sum, Backlog, Unflushed, Grows, NoNews, EnvRely, SameIterators;
    StillAfter(st0.sh, st1.sh, st.sh);
    assert RingsKept(st0.es, st1.es);
    NewsSplits(st0, st1, st);
    if NoNews(st0.sh.mem, st.sh.mem, st0.es) { BacklogSame(st0.sh.mem, st1.sh.mem, st0.done, st0.es, st0.es); }
  }

  lemma ReadingMoved(st: State, i: nat, capacity: nat, e: IndexEntry)
    requires i < |st.es| && e == st.es[i].(pos := e.pos, lim := e.lim)
    ensures Reading(st, st.(es := st.es[i := e]), i, capacity)
    ensures Seqnums(st.es[i := e]) == Seqnums(st.es)
  {
    hide Sum, Backlog;
    BacklogSame(st.sh.mem, st.sh.mem, st.done, st.es, st.es[i := e]);
  }

  lemma ReadingFlushed(st0: State, st: State, n: nat, s: seq<Tso.Entry>, i: nat, capacity: nat)
    requires Flushed(st0, st, n, s) && i < |st0.es| && st.full == st0.full + 1
    requires capacity <= st0.Owing()
    ensures Reading(st0, st, i, capacity)
    ensures |st.es| == |st0.es| && st.es[i].ring == st0.es[i].ring && st.es[i].pos == st0.es[i].pos
    ensures st.es[i].lim == st0.es[i].lim
    ensures Grows(st0.sh.mem, st.sh.mem)
    ensures Sum(Unflushed(st.es, st.done, n)) == Sum(Unflushed(st0.es, st0.done, n)) - |s|
  {
    hide Sum, Backlog, Grows, Unflushed;
  }

  /** Moving an iterator keeps the invariants that do not mention iterators. */
  lemma CoreMoved(sh: Shared, es: seq<IndexEntry>, done: map<RingId, nat>, owed: Option<RingId>,
                  log: seq<Delivery>, base: map<RingId, nat>, i: nat, e: IndexEntry)
    requires Core(sh, es, done, owed, log, base) && i < |es| && e == es[i].(pos := e.pos, lim := e.lim)
    ensures Core(sh, es[i := e], done, owed, log, base)
  {
    hide SharedInv, LogInv, EntriesOk, IndexOk, Missed;
    EntriesKept(sh.mem, done, es, i, e);
    IndexOkKept(sh, sh, es, i, e);
  }

  /** A ring that has not been iterated has nothing in the buffer. */
  lemma NothingBuffered(mem: map<RingId, Ring>, done: map<RingId, nat>, es: seq<IndexEntry>, i: nat,
                        m: multiset<Tso.Entry>, k: RingId)
    requires TsoInv(mem, done, es, i, m) && Distinct(es) && i < |es| && es[i].ring == Some(k) && k in mem
    requires mem[k].h <= |mem[k].pub|
    ensures PrevOk(mem, ResetEntry(mem[k], es[i]), k, m, 0)
  {
    hide Steady;
    forall f | f in m && f.ring == k ensures f.timestamp <= 0 {
      assert TsoEntryOk(mem, done, es, i, f);
      assert es[f.tag].ring == es[i].ring;
    }
  }

  lemma ReadingKeeps(st0: State, st: State, i: nat, capacity: nat, k: RingId)
    requires Reading(st0, st, i, capacity) && k in st0.sh.mem
    ensures |st.es| == |st0.es| && i < |st.es| && st.es[i].ring == st0.es[i].ring && k in st.sh.mem
    ensures st0.full <= st.full
    ensures st.sh.quiet == st0.sh.quiet && (st.sh.quiet ==> |st.sh.mem[k].pub| == |st0.sh.mem[k].pub|)
  {
    hide Sum, Backlog;
  }

  /** Every registered ring is in the index. */
  ghost predicate AllIndexed(sh: Shared, es: seq<IndexEntry>)
  {
    forall n :: n in sh.regs ==> Indexed(es, sh.regs[n])
  }

  /** No registered ring has an outside holder. */
  predicate Lonely(sh: Shared)
  {
    forall n :: n in sh.regs ==> sh.regs[n] in sh.life && sh.Orphan(sh.regs[n])
  }

  /** A ring that has left the index was empty. */
  ghost predicate KilledWhenEmpty(es0: seq<IndexEntry>, sh: Shared, es: seq<IndexEntry>)
  {
    forall k :: k in sh.mem && Indexed(es0, k) ==> Indexed(es, k) || sh.mem[k].Empty()
  }

  /** A ring that somebody else holds stays registered, with all its references. */
  ghost predicate HeldKept(sh: Shared, sh': Shared)
  {
    forall n :: n in sh.regs && sh.regs[n] in sh.life && !sh.Orphan(sh.regs[n]) ==>
      && n in sh'.regs && sh'.regs[n] == sh.regs[n]
      && sh.regs[n] in sh'.life && sh'.life[sh.regs[n]] == sh.life[sh.regs[n]]
  }

  /** What a poll leaves alone when no other thread runs. */
  ghost predicate Quietly(sh0: Shared, es0: seq<IndexEntry>, sh: Shared, es: seq<IndexEntry>)
  {
    && sh.quiet == sh0.quiet
    && (sh.quiet ==>
          && SamePubs(sh0.mem, sh.mem) && EmptyStays(sh0.mem, sh.mem) && sh.unset == sh0.unset
          && (|es0| == 0 ==> |es| == 0 && sh.dirty == sh0.dirty)
          && KilledWhenEmpty(es0, sh, es) && HeldKept(sh0, sh)
          && (AllIndexed(sh0, es0) ==> AllIndexed(sh, es))
          && (Lonely(sh0) ==> Lonely(sh)))
  }

  lemma QuietlyTransitive(sh0: Shared, es0: seq<IndexEntry>, sh1: Shared, es1: seq<IndexEntry>,
                          sh2: Shared, es2: seq<IndexEntry>)
    requires Quietly(sh0, es0, sh1, es1) && Quietly(sh1, es1, sh2, es2)
    ensures Quietly(sh0, es0, sh2, es2)
  {
    hide AllIndexed, Lonely, Indexed;
  }

  lemma QuietlySelf(sh: Shared, es: seq<IndexEntry>)
    ensures Quietly(sh, es, sh, es) && Grows(sh.mem, sh.mem)
  {
  }

  /** With other threads running nothing is promised; without them the change is the given one. */
  lemma QuietlyWhen(sh0: Shared, es0: seq<IndexEntry>, sh: Shared, es: seq<IndexEntry>, shQ: Shared)
    requires Quietly(sh0, es0, shQ, es) && sh.quiet == sh0.quiet && (sh.quiet ==> sh == shQ)
    ensures Quietly(sh0, es0, sh, es)
  {
    hide AllIndexed, Lonely, SamePubs, EmptyStays, KilledWhenEmpty;
  }

  lemma QuietlyStill(sh0: Shared, es0: seq<IndexEntry>, sh: Shared, es: seq<IndexEntry>)
    requires Still(sh0, sh) && |es0| == |es| && forall j :: 0 <= j < |es| ==> es[j].ring == es0[j].ring
    ensures Quietly(sh0, es0, sh, es)
  {
    forall k: RingId ensures Indexed(es0, k) ==> Indexed(es, k) {
      if Indexed(es0, k) {
        var i :| 0 <= i < |es0| && es0[i].ring == Some(k);
        assert es[i].ring == Some(k);
      }
    }
  }

  /** Killing ring k without other threads around: everything else stays indexed and lonely. */
  lemma QuietlyKilled(sh: Shared, es: seq<IndexEntry>, i: nat, k: RingId)
    requires Distinct(es) && i < |es| && es[i].ring == Some(k) && k in sh.life && Registered(sh.life, sh.regs, k)
    requires forall n :: n in sh.regs ==> sh.regs[n] in sh.life && sh.life[sh.regs[n]].name == n
    requires k in sh.mem && (sh.quiet ==> sh.mem[k].Empty() && sh.Orphan(k))
    ensures Quietly(sh, es, ReleasedShared(KilledShared(sh, k), k), es[i := KilledEntry(es[i])])
  {
    KillIndexed(es, i, k);
  }

  lemma RegsOf(sh: Shared, es: seq<IndexEntry>, done: map<RingId, nat>, owed: Option<RingId>,
               log: seq<Delivery>, base: map<RingId, nat>)
    requires Core(sh, es, done, owed, log, base)
    ensures forall n :: n in sh.regs ==> sh.regs[n] in sh.life && sh.life[sh.regs[n]].name == n
  {
    hide MemInv, LifeOk, LogInv, DropInv, EntriesOk, IndexOk;
  }

  /** Entry e has been iterated: its ring is gone, or read up to the snapshot (all of it if nobody else runs). */
  ghost predicate ReadOut(sh: Shared, e: IndexEntry)
  {
    e.ring.Some? ==>
      e.ring.value in sh.mem && e.pos == e.lim && (sh.quiet ==> e.pos == |sh.mem[e.ring.value].pub|)
  }

  /** Nobody else runs, and entry e's ring has no outside holder and nothing undelivered. */
  ghost predicate Deserted(sh: Shared, done: map<RingId, nat>, e: IndexEntry)
  {
    && sh.quiet && e.ring.Some? && e.ring.value in sh.life && sh.Orphan(e.ring.value)
    && Undelivered(sh.mem, done, e) == 0
  }

  /** Entry i is in order and has not been flushed from in this poll. */
  ghost predicate Untouched(st: State, i: nat)
    requires i < |st.es|
  {
    EntryOk(st.sh.mem, st.done, st.es[i]) && st.es[i].lastrec == None
  }

  lemma UntouchedYet(sh: Shared, es: seq<IndexEntry>, done: map<RingId, nat>, owed: Option<RingId>,
                     log: seq<Delivery>, base: map<RingId, nat>, i: nat, full: nat)
    requires Core(sh, es, done, owed, log, base) && PollOk(sh.mem, done, es, i) && i < |es|
    ensures Untouched(State(sh, es, done, log, full), i)
  {
    hide SharedInv, LogInv, DropInv, IndexOk, EntryOk;
  }

  /** A deserted ring tests empty when its entry is reached. */
  lemma DesertedIsEmpty(st0: State, st: State, i: nat, capacity: nat, k: RingId)
    requires i < |st0.es| && Untouched(st0, i)
    requires i < |st0.es| && st0.es[i].ring == Some(k) && Deserted(st0.sh, st0.done, st0.es[i])
    requires Reading(st0, st, i, capacity)
    ensures st.sh.quiet && k in st.sh.mem && k in st.sh.life && st.sh.Orphan(k) && st.sh.mem[k].Empty()
  {
    hide Sum, Backlog;
  }

  /** Entry e has been invalidated, after all its ring held in state sh0 was delivered. */
  ghost predicate Gone(sh0: Shared, log: seq<Delivery>, e: IndexEntry, e': IndexEntry)
  {
    && e'.ring == None
    && (e.ring.Some? && e.ring.value in sh0.mem ==> |sh0.mem[e.ring.value].pub| <= |Proj(log, e.ring.value)|)
  }

  lemma {:induction false} ProjLonger(log: seq<Delivery>, log': seq<Delivery>, k: RingId)
    requires log <= log'
    ensures |Proj(log, k)| <= |Proj(log', k)|
    decreases |log'|
  {
    if |log| < |log'| {
      assert log <= log'[..|log'| - 1];
      ProjLonger(log, log'[..|log'| - 1], k);
    } else {
      assert log == log';
    }
  }

  lemma GoneLater(sh0: Shared, sh1: Shared, log: seq<Delivery>, log': seq<Delivery>, e: IndexEntry, e1: IndexEntry,
                  e': IndexEntry)
    requires Gone(sh1, log, e, e1) && PubsGrow(sh0.mem, sh1.mem) && log <= log' && e'.ring == None
    ensures Gone(sh0, log', e, e')
  {
    hide Proj;
    if e.ring.Some? { ProjLonger(log, log', e.ring.value); }
  }

  lemma GoneSame(sh: Shared, log: seq<Delivery>, e: IndexEntry, f: IndexEntry, e': IndexEntry)
    requires Gone(sh, log, e, e') && f.ring == e.ring
    ensures Gone(sh, log, f, e')
  {
  }

  /** Entry e became e' in its iteration; a deserted empty ring is gone afterwards if nobody else runs. */
  ghost predicate EntrySwept(sh0: Shared, done0: map<RingId, nat>, e: IndexEntry, sh: Shared, e': IndexEntry,
                             log: seq<Delivery>)
  {
    && (e'.ring == e.ring || Gone(sh0, log, e, e'))
    && ReadOut(sh, e')
    && SeenAll(sh0, e')
    && (Deserted(sh0, done0, e) ==> e'.ring == None)
  }

  /** The snapshot of entry e covers everything its ring held in state sh0. */
  ghost predicate SeenAll(sh0: Shared, e: IndexEntry)
  {
    e.ring.Some? && e.ring.value in sh0.mem ==> |sh0.mem[e.ring.value].pub| <= e.lim
  }

  lemma SeenEarlier(sh0: Shared, sh1: Shared, e: IndexEntry)
    requires PubsGrow(sh0.mem, sh1.mem) && SeenAll(sh1, e)
    ensures SeenAll(sh0, e)
  {
  }

  lemma SeenSame(sh: Shared, e: IndexEntry, e': IndexEntry)
    requires SeenAll(sh, e) && e'.ring == e.ring && e'.lim == e.lim
    ensures SeenAll(sh, e')
  {
  }

  /** What iterating entry i changes. */
  ghost predicate Iterated(st0: State, st: State, i: nat, capacity: nat)
  {
    && |st.es| == |st0.es| && i < |st.es|
    && (forall j :: 0 <= j < |st.es| && j != i ==>
          st.es[j].ring == st0.es[j].ring && st.es[j].pos == st0.es[j].pos && st.es[j].lim == st0.es[j].lim)
    && EntrySwept(st0.sh, st0.done, st0.es[i], st.sh, st.es[i], st.log)
    && Grows(st0.sh.mem, st.sh.mem) && Quietly(st0.sh, st0.es, st.sh, st.es)
    && st0.log <= st.log && st0.full <= st.full && (st.full == st0.full ==> st.log == st0.log)
    && (NoNews(st0.sh.mem, st.sh.mem, st0.es) ==>
          && st.Owing() + |st.log| == st0.Owing() + |st0.log|
          && (st0.full < st.full ==> capacity <= st0.Owing()))
  }

  /** Reading the ring of an entry that stays in the index. */
  lemma IteratedRead(st0: State, st: State, i: nat, capacity: nat)
    requires Reading(st0, st, i, capacity)
    requires EntrySwept(st0.sh, st0.done, st0.es[i], st.sh, st.es[i], st.log)
    ensures Iterated(st0, st, i, capacity)
  {
    hide Sum, Backlog, Grows, EntrySwept, Quietly;
    QuietlyStill(st0.sh, st0.es, st.sh, st.es);
  }

  lemma IteratedNothing(st: State, i: nat, capacity: nat)
    requires i < |st.es| && st.es[i].ring == None
    ensures Iterated(st, st, i, capacity)
  {
    QuietlySelf(st.sh, st.es);
  }

  /**
    * Entry e became e' when its ring was an orphan or not in state `seen` and empty or not in state `test`: it
    * was invalidated if both held and the lock on the ring map was free, and only then.
    */
  ghost predicate Killable(e: IndexEntry, seen: Shared, test: Shared, lockFree: bool, e': IndexEntry)
  {
    match e.ring
    case None => e'.ring == None
    case Some(k) =>
      && k in seen.life && k in test.mem && (e'.ring == None || e'.ring == e.ring)
      && (e'.ring == None <==> seen.Orphan(k) && test.mem[k].Empty() && lockFree)
  }

  lemma SkippedKillable(e: IndexEntry, seen: Shared, test: Shared, lockFree: bool)
    requires e.ring == None
    ensures Killable(e, seen, test, lockFree, e)
  {
  }

  lemma WasKillable(e: IndexEntry, seen: Shared, test: Shared, lockFree: bool, e': IndexEntry, k: RingId,
                    deserted: bool, e1: IndexEntry)
    requires e.ring == e1.ring == Some(k) && k in seen.life && k in test.mem
    requires deserted <==> seen.Orphan(k) && test.mem[k].Empty()
    requires e' == if deserted && lockFree then KilledEntry(e1) else e1
    ensures Killable(e, seen, test, lockFree, e')
  {
  }

  lemma ReadingQuiet(st0: State, st: State, i: nat, capacity: nat)
    requires Reading(st0, st, i, capacity)
    ensures st.sh.quiet == st0.sh.quiet
  {
    hide Sum, Backlog, Grows;
  }

  /** After the orphan test, an entry whose ring was not found deserted has been swept. */
  lemma SweptReading(st0: State, sh1: Shared, st: State, i: nat, capacity: nat, k: RingId, deserted: bool)
    requires i < |st0.es| && i < |st.es| && Untouched(st0, i)
    requires Reading(st0, st, i, capacity)
    requires st0.es[i].ring == Some(k) && st.es[i].ring == Some(k) && st.es[i].pos == st.es[i].lim && k in sh1.mem
    requires k in st.sh.mem
    requires EnvRely(sh1, st.sh) && (sh1.quiet ==> st.es[i].pos == |sh1.mem[k].pub|)
    requires k in st.sh.life && (st.sh.quiet && st.sh.Orphan(k) && st.sh.mem[k].Empty() ==> deserted)
    requires SeenAll(st0.sh, st.es[i])
    ensures ReadOut(st.sh, st.es[i]) && (!deserted ==> EntrySwept(st0.sh, st0.done, st0.es[i], st.sh, st.es[i], st.log))
  {
    hide Untouched, Deserted, Reading, MemRely, LifeRely;
    if Deserted(st0.sh, st0.done, st0.es[i]) {
      DesertedIsEmpty(st0, st, i, capacity, k);
    }
  }

  /** After the attempt to kill an empty ring. */
  lemma SweptKilled(st0: State, st1: State, st: State, i: nat, capacity: nat, k: RingId, killed: bool)
    requires Reading(st0, st1, i, capacity)
    requires st1.es[i].ring == Some(k) && k in st1.sh.mem && ReadOut(st1.sh, st1.es[i]) && SeenAll(st0.sh, st1.es[i])
    requires Done(st1.done, k) == st1.sh.mem[k].h == st1.es[i].pos && st1.sh.mem[k].Empty()
    requires |Proj(st1.log, k)| == Done(st1.done, k)
    requires Grows(st1.sh.mem, st.sh.mem) && Quietly(st1.sh, st1.es, st.sh, st.es) && (st.sh.quiet ==> killed)
    requires st == st1.(sh := st.sh, es := if killed then st1.es[i := KilledEntry(st1.es[i])] else st1.es)
    ensures Iterated(st0, st, i, capacity)
  {
    hide Sum, Backlog, Grows, AllIndexed, Lonely, Quietly, NoNews, Proj;
    GrowsTransitive(st0.sh.mem, st1.sh.mem, st.sh.mem);
    QuietlyStill(st0.sh, st0.es, st1.sh, st1.es);
    QuietlyTransitive(st0.sh, st0.es, st1.sh, st1.es, st.sh, st.es);
    QuietlyQuiet(st0.sh, st0.es, st1.sh, st1.es);
    QuietlyQuiet(st1.sh, st1.es, st.sh, st.es);
    GrowsHas(st1.sh.mem, st.sh.mem, k);
    if !killed { ReadOutLater(st1.sh, st.sh, st1.es, st.es, st1.es[i]); }
    assert RingsKept(st0.es, st1.es);
    NewsSplits(st0, st1, st);
    if NoNews(st0.sh.mem, st.sh.mem, st0.es) { OwingKilled(st1, st, i, k); }
  }

  /** Killing an empty ring takes nothing off the backlog. */
  lemma OwingKilled(st1: State, st: State, i: nat, k: RingId)
    requires i < |st1.es| && st1.es[i].ring == Some(k) && k in st1.sh.mem
    requires Done(st1.done, k) == st1.sh.mem[k].h && st1.sh.mem[k].Empty()
    requires st.es == st1.es[i := KilledEntry(st1.es[i])] || st.es == st1.es
    requires st.done == st1.done && NoNews(st1.sh.mem, st.sh.mem, st1.es)
    ensures st.Owing() == st1.Owing()
  {
    hide Sum, Backlog;
    if st.es != st1.es { BacklogKill(st1.sh.mem, st1.done, st1.es, i, st.es[i]); }
    BacklogSame(st1.sh.mem, st.sh.mem, st1.done, st.es, st.es);
  }

  lemma GrowsHas(mem: map<RingId, Ring>, mem': map<RingId, Ring>, k: RingId)
    requires Grows(mem, mem') && k in mem
    ensures k in mem' && mem'[k].h == mem[k].h && mem[k].pub <= mem'[k].pub
  {
  }

  /** The record under the iterator is the one that was published there. */
  lemma RecordAt(sh: Shared, es: seq<IndexEntry>, done: map<RingId, nat>, owed: Option<RingId>,
                 log: seq<Delivery>, base: map<RingId, nat>, i: nat, k: RingId)
    requires Core(sh, es, done, owed, log, base) && PollOk(sh.mem, done, es, i + 1)
    requires es[i].ring == Some(k) && es[i].pos < es[i].lim
    ensures k in sh.mem && sh.mem[k].Shaped() && es[i].pos < |sh.mem[k].pub|
    ensures sh.mem[k].Slot(es[i].pos) == sh.mem[k].pub[es[i].pos]
  {
    hide LifeInv, LogInv, DropInv, EntriesOk, IndexOk;
    assert RingInv(sh.mem[k], Done(done, k));
    assert Live(sh.mem[k], es[i].pos);
  }

  /** Half of a buffer going out makes room unless there is just one entry. */
  lemma HalfLeft(n: nat)
    requires n > 0
    ensures n - n / 2 == n <==> n == 1
  {
  }

  // ---------------------------------------------------------------- the statistics

  /** The counters agree with the log and with the index. */
  ghost predicate Tallied(recsOut: nat, recsDropped: nat, es: seq<IndexEntry>, log: seq<Delivery>, retired: nat,
                          output: seq<Item>)
  {
    && recsOut == |log| && recsDropped == TotalMissed(log)
    && recsOut + recsDropped == Sum(Seqnums(es)) + retired
    && Lines(output) == Regulars(log)
  }

  lemma TalliedSame(recsOut: nat, recsDropped: nat, es: seq<IndexEntry>, es': seq<IndexEntry>, log: seq<Delivery>,
                    retired: nat, output: seq<Item>)
    requires Tallied(recsOut, recsDropped, es, log, retired, output) && Seqnums(es') == Seqnums(es)
    ensures Tallied(recsOut, recsDropped, es', log, retired, output)
  {
  }

  lemma TalliedRebuilt(recsOut: nat, recsDropped: nat, es: seq<IndexEntry>, es': seq<IndexEntry>, log: seq<Delivery>,
                       retired: nat, gone: nat, output: seq<Item>)
    requires Tallied(recsOut, recsDropped, es, log, retired, output) && Sum(Seqnums(es)) == Sum(Seqnums(es')) + gone
    ensures Tallied(recsOut, recsDropped, es', log, retired + gone, output)
  {
    hide Sum, Seqnums, Lines, Regulars, TotalMissed;
  }

  lemma TalliedFlushed(recsOut: nat, recsDropped: nat, es: seq<IndexEntry>, es': seq<IndexEntry>, log: seq<Delivery>,
                       retired: nat, output: seq<Item>, output': seq<Item>, d: Delivery)
    requires Tallied(recsOut, recsDropped, es, log, retired, output)
    requires Sum(Seqnums(es')) == Sum(Seqnums(es)) + 1 + d.missed
    requires Lines(output') == Lines(output) + (if d.rec.Special() then [] else [(d.te.ring, d.rec)])
    ensures Tallied(recsOut + 1, recsDropped + d.missed, es', log + [d], retired, output')
  {
    hide Sum, Seqnums, Lines, Regulars, TotalMissed;
    LogAppend(log, d);
    RegularsAppend(log, d);
  }

  // ---------------------------------------------------------------- reading

  /** Everything about buffering the next record of entry i. */
  lemma PushAt(sh: Shared, es: seq<IndexEntry>, done: map<RingId, nat>, owed: Option<RingId>,
               log: seq<Delivery>, base: map<RingId, nat>, i: nat, k: RingId, m: multiset<Tso.Entry>, prev: nat)
    requires Core(sh, es, done, owed, log, base) && PollOk(sh.mem, done, es, i + 1)
    requires TsoInv(sh.mem, done, es, i + 1, m)
    requires i < |es| && es[i].ring == Some(k) && es[i].pos < es[i].lim && PrevOk(sh.mem, es[i], k, m, prev)
    ensures k in sh.mem && sh.mem[k].Shaped() && es[i].pos < |sh.mem[k].pub|
    ensures var pos := es[i].pos;
            var own := sh.mem[k].pub[pos].timestamp;
            var ts := Adjust(own, prev);
            var es', m' := es[i := NextEntry(es[i])], m + multiset{Tso.Entry(ts, k, pos, i)};
            && sh.mem[k].Slot(pos).timestamp == own
            && PollOk(sh.mem, done, es', i + 1) && TsoInv(sh.mem, done, es', i + 1, m')
            && PrevOk(sh.mem, es'[i], k, m', ts)
            && Sum(Unflushed(es', done, i + 1)) == Sum(Unflushed(es, done, i + 1)) + 1
  {
    hide PollOk, TsoInv, PrevOk, Unflushed, Sum, EntriesOk, IndexOk, SharedInv, LogInv, DropInv;
    CoreIndex(sh, es, done, owed, log, base);
    RecordAt(sh, es, done, owed, log, base, i, k);
    PushStep(sh.mem, done, es, i, m, k, prev);
  }

  lemma RingKnown(sh: Shared, es: seq<IndexEntry>, done: map<RingId, nat>, owed: Option<RingId>,
                  log: seq<Delivery>, base: map<RingId, nat>, i: nat, k: RingId)
    requires Core(sh, es, done, owed, log, base) && i < |es| && es[i].ring == Some(k)
    ensures k in sh.mem && k in sh.life && Registered(sh.life, sh.regs, k)
    ensures sh.life[k].alive && sh.life[k].refs >= 1
  {
    hide MemInv, LogInv, DropInv, EntriesOk, LifeInv;
    LifeOkOf(sh.life, sh.regs, owed, k);
  }

  /** When a ring tests empty, everything ever published to it has been delivered and committed. */
  lemma EmptyIsDelivered(sh: Shared, es: seq<IndexEntry>, done: map<RingId, nat>, owed: Option<RingId>,
                         log: seq<Delivery>, base: map<RingId, nat>, i: nat, k: RingId)
    requires Core(sh, es, done, owed, log, base) && PollOk(sh.mem, done, es, i + 1)
    requires i < |es| && es[i].ring == Some(k) && k in sh.mem && sh.mem[k].Empty()
    ensures Done(done, k) == sh.mem[k].h == es[i].pos == |sh.mem[k].pub|
    ensures Proj(log, k) == sh.mem[k].pub
  {
    hide RingInv, LifeInv, DropInv, IndexOk, DeliveryOk, Proj;
    assert EntryOk(sh.mem, done, es[i]);
    assert sh.mem[k].pub[..Done(done, k)] == sh.mem[k].pub;
  }

  lemma PubsGrowTransitive(a: map<RingId, Ring>, b: map<RingId, Ring>, c: map<RingId, Ring>)
    requires PubsGrow(a, b) && PubsGrow(b, c)
    ensures PubsGrow(a, c)
  {
  }

  lemma GrowsPubs(a: map<RingId, Ring>, b: map<RingId, Ring>)
    requires Grows(a, b)
    ensures PubsGrow(a, b)
  {
  }

  /** What the commit loop changes: ring heads, and whatever other threads do. */
  ghost predicate Committing(sh0: Shared, es0: seq<IndexEntry>, sh: Shared, es: seq<IndexEntry>)
  {
    && PubsGrow(sh0.mem, sh.mem) && Still(sh0, sh)
    && |es| == |es0| && forall j :: 0 <= j < |es| ==> es[j].ring == es0[j].ring
  }

  lemma CommittingTransitive(sh0: Shared, es0: seq<IndexEntry>, sh1: Shared, es1: seq<IndexEntry>,
                             sh2: Shared, es2: seq<IndexEntry>)
    requires Committing(sh0, es0, sh1, es1) && Committing(sh1, es1, sh2, es2)
    ensures Committing(sh0, es0, sh2, es2)
  {
  }

  lemma CommittingInterfered(sh0: Shared, sh: Shared, es: seq<IndexEntry>)
    requires EnvRely(sh0, sh) && Grows(sh0.mem, sh.mem)
    ensures Committing(sh0, es, sh, es)
  {
    hide MemRely, LifeRely;
  }

  lemma CommittingStart(sh: Shared, es: seq<IndexEntry>)
    ensures Committing(sh, es, sh, es)
  {
  }

  lemma CommittingHead(sh: Shared, es: seq<IndexEntry>, i: nat, k: RingId)
    requires i < |es| && es[i].lastrec.Some? && k in sh.mem && !sh.mem[k].Empty()
    ensures Committing(sh, es, CommittedShared(sh, k, es[i].lastrec.value + 1), es[i := CommittedEntry(es[i])])
  {
  }

  /** With every entry committed, the engine is between polls. */
  lemma NothingInFlight(mem: map<RingId, Ring>, done: map<RingId, nat>, es: seq<IndexEntry>)
    requires forall j :: 0 <= j < |es| ==> es[j].lastrec == None
    ensures PollOk(mem, done, es, 0) && TsoInv(mem, done, es, 0, multiset{})
  {
  }

  lemma InvalidEntryClean(sh: Shared, es: seq<IndexEntry>, done: map<RingId, nat>, owed: Option<RingId>,
                          log: seq<Delivery>, base: map<RingId, nat>, i: nat)
    requires Core(sh, es, done, owed, log, base) && i < |es| && es[i].lastrec.Some?
    ensures es[i].ring.Some? && es[i].ring.value in sh.mem
  {
    hide SharedInv, LogInv, DropInv, IndexOk;
    assert EntryOk(sh.mem, done, es[i]);
  }

  /**
    * What iterating the first n entries changes.  If nobody else runs, the rings without outside
    * holders and without backlog have been killed.
    */
  ghost predicate Sweep(st0: State, st: State, n: nat, capacity: nat)
  {
    && |st.es| == |st0.es| && n <= |st.es|
    && (forall j :: 0 <= j < n ==>
          ReadOut(st.sh, st.es[j]) && SeenAll(st0.sh, st.es[j])
          && (st.es[j].ring == st0.es[j].ring || Gone(st0.sh, st.log, st0.es[j], st.es[j])))
    && (forall j :: n <= j < |st.es| ==> st.es[j] == st0.es[j].(lastrec := st.es[j].lastrec, seqnum := st.es[j].seqnum))
    && Grows(st0.sh.mem, st.sh.mem) && Quietly(st0.sh, st0.es, st.sh, st.es)
    && st0.log <= st.log && st0.full <= st.full && (st.full == st0.full ==> st.log == st0.log)
    && (NoNews(st0.sh.mem, st.sh.mem, st0.es) ==>
          && st.Owing() + |st.log| == st0.Owing() + |st0.log|
          && (st0.full < st.full ==> capacity <= st0.Owing()))
    && (st.sh.quiet && Lonely(st0.sh) && st0.Owing() == 0 ==> forall j :: 0 <= j < n ==> st.es[j].ring == None)
  }

  lemma SweepRings(st0: State, st: State, n: nat, capacity: nat)
    requires Sweep(st0, st, n, capacity)
    ensures RingsKept(st0.es, st.es)
  {
    hide Sum, Backlog, Grows, Quietly, Lonely, ReadOut, SeenAll, NoNews;
  }

  lemma SweepQuiet(st0: State, st: State, n: nat, capacity: nat)
    requires Sweep(st0, st, n, capacity)
    ensures st.sh.quiet == st0.sh.quiet
  {
    hide Sum, Backlog, Grows, Lonely, ReadOut, SeenAll, NoNews, Gone, AllIndexed;
  }

  lemma SweepStart(st: State, capacity: nat)
    ensures Sweep(st, st, 0, capacity)
  {
    QuietlySelf(st.sh, st.es);
  }

  /** With nobody else around and no backlog, the next entry's ring is deserted. */
  lemma NextDeserted(st0: State, st: State, n: nat, capacity: nat, owed: Option<RingId>, base: map<RingId, nat>)
    requires Sweep(st0, st, n, capacity)
    requires Core(st.sh, st.es, st.done, owed, st.log, base) && n < |st.es|
    requires st.sh.quiet && Lonely(st0.sh) && st0.Owing() == 0
    ensures st.es[n].ring.Some? ==> Deserted(st.sh, st.done, st.es[n])
  {
    hide SharedInv, LogInv, DropInv, EntriesOk, Sum, Backlog, Grows, ReadOut, Undelivered, NoNews;
    SamePubsNoNews(st0.sh.mem, st.sh.mem, st0.es);
    BacklogNonNegative(st.sh.mem, st.done, st.es);
    assert |st0.log| <= |st.log|;
  }

  lemma ReadOutLater(sh1: Shared, sh2: Shared, es1: seq<IndexEntry>, es2: seq<IndexEntry>, e: IndexEntry)
    requires ReadOut(sh1, e) && Grows(sh1.mem, sh2.mem) && Quietly(sh1, es1, sh2, es2)
    ensures ReadOut(sh2, e)
  {
    hide AllIndexed, Lonely;
  }

  lemma ReadOutSame(sh: Shared, e: IndexEntry, e': IndexEntry)
    requires ReadOut(sh, e) && e'.ring == e.ring && e'.pos == e.pos && e'.lim == e.lim
    ensures ReadOut(sh, e')
  {
  }

  lemma GoneNone(sh: Shared, log: seq<Delivery>, e: IndexEntry, e': IndexEntry)
    requires Gone(sh, log, e, e')
    ensures e'.ring == None
  {
  }

  lemma SweptGone(st0: State, st1: State, st2: State, n: nat, capacity: nat, j: nat)
    requires Sweep(st0, st1, n, capacity) && Iterated(st1, st2, n, capacity) && j <= n
    ensures st2.es[j].ring == st0.es[j].ring || Gone(st0.sh, st2.log, st0.es[j], st2.es[j])
  {
    hide Sum, Backlog, Grows, PubsGrow, Quietly, Lonely, ReadOut, Deserted, SeenAll, NoNews, Gone, Proj;
    GrowsPubs(st0.sh.mem, st1.sh.mem);
    if j < n {
      if st1.es[j].ring != st0.es[j].ring {
        GoneNone(st0.sh, st1.log, st0.es[j], st1.es[j]);
        GoneSelf(st0.sh, st1.log, st2.log, st0.es[j], st1.es[j], st2.es[j]);
      }
    } else if st2.es[n].ring != st1.es[n].ring {
      GoneNone(st1.sh, st2.log, st1.es[n], st2.es[n]);
      GoneLater(st0.sh, st1.sh, st2.log, st2.log, st1.es[n], st2.es[n], st2.es[n]);
      GoneSame(st0.sh, st2.log, st1.es[n], st0.es[n], st2.es[n]);
    }
  }

  lemma GoneSelf(sh: Shared, log: seq<Delivery>, log': seq<Delivery>, e: IndexEntry, e1: IndexEntry, e': IndexEntry)
    requires Gone(sh, log, e, e1) && log <= log' && e'.ring == None
    ensures Gone(sh, log', e, e')
  {
    hide Proj;
    if e.ring.Some? { ProjLonger(log, log', e.ring.value); }
  }

  lemma SweepStep(st0: State, st1: State, st2: State, n: nat, capacity: nat, owed: Option<RingId>,
                  base: map<RingId, nat>)
    requires Sweep(st0, st1, n, capacity)
    requires Core(st1.sh, st1.es, st1.done, owed, st1.log, base)
    requires Iterated(st1, st2, n, capacity)
    ensures Sweep(st0, st2, n + 1, capacity)
  {
    hide Core, Sum, Backlog, Grows, PubsGrow, Quietly, Lonely, ReadOut, Deserted, SeenAll, NoNews, Gone, Proj;
    assert RingsKept(st0.es, st1.es) by { SweepRings(st0, st1, n, capacity); }
    NewsSplits(st0, st1, st2);
    GrowsTransitive(st0.sh.mem, st1.sh.mem, st2.sh.mem);
    GrowsPubs(st0.sh.mem, st1.sh.mem);
    QuietlyTransitive(st0.sh, st0.es, st1.sh, st1.es, st2.sh, st2.es);
    QuietlyQuiet(st0.sh, st0.es, st1.sh, st1.es);
    QuietlyQuiet(st1.sh, st1.es, st2.sh, st2.es);
    forall j | 0 <= j < n + 1 ensures st2.es[j].ring == st0.es[j].ring || Gone(st0.sh, st2.log, st0.es[j], st2.es[j]) {
      SweptGone(st0, st1, st2, n, capacity, j);
    }
    forall j | 0 <= j < n + 1 ensures ReadOut(st2.sh, st2.es[j]) && SeenAll(st0.sh, st2.es[j]) {
      if j < n {
        ReadOutLater(st1.sh, st2.sh, st1.es, st2.es, st1.es[j]);
        ReadOutSame(st2.sh, st1.es[j], st2.es[j]);
        SeenSame(st0.sh, st1.es[j], st2.es[j]);
      } else {
        SeenEarlier(st0.sh, st1.sh, st2.es[j]);
      }
    }
    if st2.sh.quiet && Lonely(st0.sh) && st0.Owing() == 0 {
      NextDeserted(st0, st1, n, capacity, owed, base);
      forall j | 0 <= j < n + 1 ensures st2.es[j].ring == None {
        if j < n {
          assert st1.es[j].ring == None;
        } else if st2.es[n].ring != st1.es[n].ring {
          GoneNone(st1.sh, st2.log, st1.es[n], st2.es[n]);
        }
      }
    }
  }

  /**
    * The poll that was swept from (st0.sh, st0.es, st0.log) to (st1.sh, st1.es, st1.log) and then flushed the sorted
    * buffer `s` up to `c` is sound, and without other threads it leaves exactly |s| - c records.
    */
  lemma SweptAndFlushed(st0: State, st1: State, st: State, s: seq<Tso.Entry>, c: nat, capacity: nat,
                        owed: Option<RingId>, base: map<RingId, nat>)
    requires Sweep(st0, st1, |st1.es|, capacity)
    requires c <= |s| && Flushed(st1, st, |st1.es|, s[..c])
    requires SortedBy(Tso.Time, s) && |s| == Sum(Unflushed(st1.es, st1.done, |st1.es|))
    requires Core(st.sh, st.es, st.done, owed, st.log, base) && PollOk(st.sh.mem, st.done, st.es, |st1.es|)
    requires TsoInv(st.sh.mem, st.done, st.es, |st1.es|, multiset(s[c..]))
    ensures st0.log <= st.log && Grows(st0.sh.mem, st.sh.mem) && Quietly(st0.sh, st0.es, st.sh, st.es)
    ensures |st.es| == |st1.es| == |st0.es|
    ensures PollSound(Poll(|st0.log|, |st.log|, Snapshot(st.sh.mem, st.es, st.done), st1.full != st0.full),
                      st.log, st.sh.mem)
    ensures Sum(Unflushed(st.es, st.done, |st.es|)) == |s| - c && RingsKept(st0.es, st.es)
    ensures forall j :: 0 <= j < |st.es| ==>
      SeenAll(st0.sh, st.es[j]) && (st.es[j].ring.Some? ==> st.es[j].pos == st.es[j].lim)
    ensures forall j :: 0 <= j < |st.es| ==>
      st.es[j].ring == st0.es[j].ring || Gone(st0.sh, st.log, st0.es[j], st.es[j])
    ensures NoNews(st0.sh.mem, st.sh.mem, st0.es) ==>
      && st.Owing() == |s| - c
      && (st1.full == st0.full ==> |s| == st0.Owing())
      && (st1.full != st0.full ==> capacity <= st0.Owing())
    ensures st.sh.quiet && Lonely(st0.sh) && st0.Owing() == 0 ==>
      forall j :: 0 <= j < |st.es| ==> st.es[j].ring == None
  {
    hide Core, PollOk, TsoInv, Sum, Backlog, Grows, Quietly, Lonely, PollSound, ReadOut, SameIterators, Snapshot,
      SortedBy, Unflushed, SeenAll, NoNews, Gone;
    GrowsTransitive(st0.sh.mem, st1.sh.mem, st.sh.mem);
    SameRings(st1.es, st.es);
    SweepRings(st0, st1, |st1.es|, capacity);
    NewsSplits(st0, st1, st);
    QuietlyStill(st1.sh, st1.es, st.sh, st.es);
    QuietlyTransitive(st0.sh, st0.es, st1.sh, st1.es, st.sh, st.es);
    QuietlyQuiet(st0.sh, st0.es, st1.sh, st1.es);
    assert st.log[..|st1.log|] == st1.log;
    forall j | 0 <= j < |st.es|
      ensures st.es[j].ring == st0.es[j].ring || Gone(st0.sh, st.log, st0.es[j], st.es[j])
    {
      if st1.es[j].ring != st0.es[j].ring {
        GoneNone(st0.sh, st1.log, st0.es[j], st1.es[j]);
        GoneSelf(st0.sh, st1.log, st.log, st0.es[j], st1.es[j], st.es[j]);
      }
    }
    forall j | 0 <= j < |st.es|
      ensures ReadOut(st.sh, st.es[j]) && SeenAll(st0.sh, st.es[j])
      ensures st.es[j].ring.Some? ==> st.es[j].pos == st.es[j].lim
    {
      assert SameIterators(st1.es, st.es) && ReadOut(st1.sh, st1.es[j]) && SeenAll(st0.sh, st1.es[j]);
      SameAt(st1.es, st.es, j);
      ReadOutLater(st1.sh, st.sh, st1.es, st.es, st1.es[j]);
      ReadOutSame(st.sh, st1.es[j], st.es[j]);
      SeenSame(st0.sh, st1.es[j], st.es[j]);
      ReadToEnd(st.sh, st.es[j]);
    }
    EndOfPoll(st.sh, st.es, st.done, st.log, s, c, |st0.log|, st1.full != st0.full, owed, base);
    RingsKeptTransitive(st0.es, st1.es, st.es);
    if NoNews(st0.sh.mem, st.sh.mem, st0.es) {
      AllReadOut(st0, st);
    }
  }

  lemma RingsKeptTransitive(a: seq<IndexEntry>, b: seq<IndexEntry>, c: seq<IndexEntry>)
    requires RingsKept(a, b) && RingsKept(b, c)
    ensures RingsKept(a, c)
  {
  }

  lemma ReadToEnd(sh: Shared, e: IndexEntry)
    requires ReadOut(sh, e)
    ensures e.ring.Some? ==> e.pos == e.lim
  {
  }

  lemma SameRings(es: seq<IndexEntry>, es': seq<IndexEntry>)
    requires SameIterators(es, es')
    ensures |es'| == |es| && forall j :: 0 <= j < |es| ==> es'[j].ring == es[j].ring
  {
  }

  lemma SameAt(es: seq<IndexEntry>, es': seq<IndexEntry>, j: nat)
    requires SameIterators(es, es') && j < |es|
    ensures es'[j].ring == es[j].ring && es'[j].pos == es[j].pos && es'[j].lim == es[j].lim
  {
  }

  /** If nothing was published during the poll, what it kept is all there is to deliver. */
  lemma AllReadOut(st0: State, st: State)
    requires forall j :: 0 <= j < |st.es| ==> SeenAll(st0.sh, st.es[j]) && ReadOut(st.sh, st.es[j])
    requires PollOk(st.sh.mem, st.done, st.es, |st.es|)
    requires NoNews(st0.sh.mem, st.sh.mem, st0.es) && RingsKept(st0.es, st.es)
    ensures Unflushed(st.es, st.done, |st.es|) == Backlog(st.sh.mem, st.done, st.es)
  {
    forall j | 0 <= j < |st.es| && st.es[j].ring.Some?
      ensures st.es[j].ring.value in st.sh.mem && st.es[j].pos == |st.sh.mem[st.es[j].ring.value].pub|
    {
      assert SeenAll(st0.sh, st.es[j]) && ReadOut(st.sh, st.es[j]) && SameNews(st0.sh.mem, st.sh.mem, st0.es[j]);
    }
    AllSeen(st.sh.mem, st.done, st.es);
  }

  /** A poll is sound: by its one sorted flush, or because it admits that the buffer filled up. */
  lemma EndOfPoll(sh: Shared, es: seq<IndexEntry>, done: map<RingId, nat>, log: seq<Delivery>,
                  s: seq<Tso.Entry>, c: nat, start: nat, full: bool, owed: Option<RingId>, base: map<RingId, nat>)
    requires Core(sh, es, done, owed, log, base) && PollOk(sh.mem, done, es, |es|)
    requires forall j :: 0 <= j < |es| ==> ReadOut(sh, es[j])
    requires start <= |log| && c <= |s|
    requires !full ==> start + c == |log| && SortedBy(Tso.Time, s)
                       && (forall j :: 0 <= j < c ==> log[start + j].te == s[j])
                       && TsoInv(sh.mem, done, es, |es|, multiset(s[c..]))
    ensures PollSound(Poll(start, |log|, Snapshot(sh.mem, es, done), full), log, sh.mem)
  {
    hide SharedInv, IndexOk, DropInv, LogInv, EntriesOk, PollOk, TsoInv, SortedBy;
    assert Distinct(es) by { IndexDistinct(sh, es); }
    if full {
      SnapshotBounded(sh.mem, es, done, log);
    } else {
      NormalPollSound(sh.mem, es, done, log, start, s, c);
    }
  }

  /** What of each indexed ring's snapshot has not been delivered. */
  function Kept(es: seq<IndexEntry>, snap: map<RingId, nat>, done: map<RingId, nat>): seq<int>
  {
    seq(|es|, i requires 0 <= i < |es| =>
      if es[i].ring.Some? && es[i].ring.value in snap then snap[es[i].ring.value] - Done(done, es[i].ring.value) else 0)
  }

  /** The poll saw all that was there when it began, in state sh0, and delivered all it saw but `leftover` records. */
  ghost predicate Covers(sh0: Shared, snap: map<RingId, nat>, es: seq<IndexEntry>, done: map<RingId, nat>,
                         leftover: nat)
  {
    && (forall j :: 0 <= j < |es| && es[j].ring.Some? ==>
          var k := es[j].ring.value;
          k in snap && Done(done, k) <= snap[k] && (k in sh0.mem ==> |sh0.mem[k].pub| <= snap[k]))
    && Sum(Kept(es, snap, done)) == leftover
  }

  lemma CoversAll(sh0: Shared, sh: Shared, es: seq<IndexEntry>, done: map<RingId, nat>, owed: Option<RingId>,
                  log: seq<Delivery>, base: map<RingId, nat>, leftover: nat)
    requires Core(sh, es, done, owed, log, base) && PollOk(sh.mem, done, es, |es|)
    requires forall j :: 0 <= j < |es| ==> SeenAll(sh0, es[j]) && (es[j].ring.Some? ==> es[j].pos == es[j].lim)
    requires Sum(Unflushed(es, done, |es|)) == leftover
    ensures Covers(sh0, Snapshot(sh.mem, es, done), es, done, leftover)
  {
    hide SharedInv, LogInv, DropInv, EntriesOk, Sum;
    var snap := Snapshot(sh.mem, es, done);
    assert Distinct(es) by { IndexDistinct(sh, es); }
    forall j | 0 <= j < |es| && es[j].ring.Some?
      ensures es[j].ring.value in snap && snap[es[j].ring.value] == es[j].lim
    {
      SeenToAt(es, done, j);
    }
    assert Kept(es, snap, done) == Unflushed(es, done, |es|);
  }

  lemma SeenToAt(es: seq<IndexEntry>, done: map<RingId, nat>, j: nat)
    requires Distinct(es) && j < |es| && es[j].ring.Some?
    ensures SeenTo(es, done, es[j].ring.value) == es[j].lim
  {
  }

  lemma CoversStill(sh0: Shared, snap: map<RingId, nat>, es: seq<IndexEntry>, es': seq<IndexEntry>,
                    done: map<RingId, nat>, leftover: nat)
    requires Covers(sh0, snap, es, done, leftover)
    requires |es'| == |es| && forall j :: 0 <= j < |es| ==> es'[j].ring == es[j].ring
    ensures Covers(sh0, snap, es', done, leftover)
  {
    assert Kept(es', snap, done) == Kept(es, snap, done);
  }

  lemma CoversEarlier(sh0: Shared, sh1: Shared, snap: map<RingId, nat>, es: seq<IndexEntry>, done: map<RingId, nat>,
                      leftover: nat)
    requires Covers(sh1, snap, es, done, leftover) && PubsGrow(sh0.mem, sh1.mem)
    ensures Covers(sh0, snap, es, done, leftover)
  {
    hide Sum;
  }

  /** Of what a ring held when the poll began, at most `leftover` records are undelivered after it. */
  lemma PollProgress(sh0: Shared, snap: map<RingId, nat>, es: seq<IndexEntry>, done: map<RingId, nat>, leftover: nat,
                     k: RingId)
    requires Covers(sh0, snap, es, done, leftover) && Indexed(es, k) && k in sh0.mem
    ensures |sh0.mem[k].pub| <= Done(done, k) + leftover
  {
    hide Sum;
    SumBounds(Kept(es, snap, done));
    var j :| 0 <= j < |es| && es[j].ring == Some(k);
    assert Kept(es, snap, done)[j] == snap[k] - Done(done, k);
  }

  /**
    * What ring k held in state sh0 has been seen by the poll with this snapshot, and delivered but for at most
    * `leftover` records.
    */
  ghost predicate Reached(sh0: Shared, snap: map<RingId, nat>, done: map<RingId, nat>, leftover: nat, k: RingId)
  {
    k in sh0.mem ==> k in snap && |sh0.mem[k].pub| <= snap[k] && |sh0.mem[k].pub| <= Done(done, k) + leftover
  }

  /** So has what every ring of the index held. */
  ghost predicate ReachesAll(sh0: Shared, es0: seq<IndexEntry>, snap: map<RingId, nat>, done: map<RingId, nat>,
                             leftover: nat)
  {
    forall k :: Indexed(es0, k) ==> Reached(sh0, snap, done, leftover, k)
  }

  lemma ReachedAll(sh0: Shared, es0: seq<IndexEntry>, sh: Shared, es: seq<IndexEntry>, done: map<RingId, nat>,
                   owed: Option<RingId>, log: seq<Delivery>, base: map<RingId, nat>, leftover: nat)
    requires Core(sh, es, done, owed, log, base) && Covers(sh0, Snapshot(sh.mem, es, done), es, done, leftover)
    requires PubsGrow(sh0.mem, sh.mem) && |es| == |es0|
    requires forall j :: 0 <= j < |es| ==> es[j].ring == es0[j].ring || Gone(sh0, log, es0[j], es[j])
    ensures ReachesAll(sh0, es0, Snapshot(sh.mem, es, done), done, leftover)
  {
    hide SharedInv, DropInv, EntriesOk, IndexOk, Sum, Proj, DeliveryOk;
    var snap := Snapshot(sh.mem, es, done);
    forall k | Indexed(es0, k) && k in sh0.mem ensures Reached(sh0, snap, done, leftover, k) {
      var j :| 0 <= j < |es0| && es0[j].ring == Some(k);
      if es[j].ring == es0[j].ring {
        PollProgress(sh0, snap, es, done, leftover, k);
      } else {
        assert |Proj(log, k)| == Done(done, k);
        if Indexed(es, k) {
          var i :| 0 <= i < |es| && es[i].ring == Some(k);
          assert Done(done, k) <= snap[k];
        }
      }
    }
  }

  lemma ReachedRegistered(seen: Shared, sh: Shared, es: seq<IndexEntry>, snap: map<RingId, nat>,
                          done: map<RingId, nat>, leftover: nat)
    requires sh.mem == seen.mem && sh.regs == seen.regs
    requires ReachesAll(sh, es, snap, done, leftover)
    ensures AllIndexed(sh, es) ==> forall n :: n in seen.regs ==> Reached(seen, snap, done, leftover, seen.regs[n])
  {
    hide Indexed;
    if AllIndexed(sh, es) {
      forall n | n in seen.regs ensures Reached(seen, snap, done, leftover, seen.regs[n]) {
        assert Indexed(es, sh.regs[n]);
      }
    }
  }

  /** Committing heads changes neither the backlog nor anything a quiet poll promises. */
  lemma QuietlyCommitted(sh0: Shared, es0: seq<IndexEntry>, sh1: Shared, es1: seq<IndexEntry>, done: map<RingId, nat>,
                         sh: Shared, es: seq<IndexEntry>)
    requires Quietly(sh0, es0, sh1, es1) && Committing(sh1, es1, sh, es) && Grows(sh0.mem, sh1.mem)
    ensures Quietly(sh0, es0, sh, es) && PubsGrow(sh0.mem, sh.mem) && PubsGrow(sh1.mem, sh.mem)
    ensures sh.quiet == sh1.quiet
    ensures NoNews(sh1.mem, sh.mem, es1) ==> Sum(Backlog(sh.mem, done, es)) == Sum(Backlog(sh1.mem, done, es1))
    ensures |es| == |es1| && forall j :: 0 <= j < |es| ==> es[j].ring == es1[j].ring
  {
    hide Sum, Backlog, AllIndexed, Lonely, Quietly, Grows, PubsGrow;
    GrowsPubs(sh0.mem, sh1.mem);
    PubsGrowTransitive(sh0.mem, sh1.mem, sh.mem);
    QuietlyStill(sh1, es1, sh, es);
    QuietlyTransitive(sh0, es0, sh1, es1, sh, es);
    if NoNews(sh1.mem, sh.mem, es1) { BacklogSame(sh1.mem, sh.mem, done, es1, es); }
  }

  lemma PollsExtendGrows(polls: seq<Poll>, log: seq<Delivery>, log': seq<Delivery>,
                         mem: map<RingId, Ring>, mem': map<RingId, Ring>, p: Poll)
    requires PollsOk(polls, log, mem) && log <= log' && Grows(mem, mem')
    requires p.start == |log| && p.end == |log'| && PollSound(p, log', mem')
    ensures PollsOk(polls + [p], log', mem')
  {
    hide PollsOk, PollSound;
    GrowsPubs(mem, mem');
    PollsExtend(polls, log, log', mem, mem', p);
  }

  lemma IndexedAppend(es: seq<IndexEntry>, e: IndexEntry, k: RingId)
    requires Indexed(es, k)
    ensures Indexed(es + [e], k)
  {
    var i :| 0 <= i < |es| && es[i].ring == Some(k);
    assert (es + [e])[i].ring == Some(k);
  }

  lemma RegsInMem(sh: Shared, es: seq<IndexEntry>, done: map<RingId, nat>, owed: Option<RingId>,
                  log: seq<Delivery>, base: map<RingId, nat>)
    requires Core(sh, es, done, owed, log, base)
    ensures sh.mem.Keys == sh.life.Keys
  {
    hide MemInv, LifeInv, LogInv, DropInv, EntriesOk, IndexOk;
  }

  lemma NothingLeft(mem: map<RingId, Ring>, done: map<RingId, nat>, es: seq<IndexEntry>)
    ensures TsoInv(mem, done, es, 0, multiset{})
  {
  }

  lemma RebuiltDirty(sh: Shared, old_: seq<IndexEntry>, es: seq<IndexEntry>)
    requires Rebuilt(sh, old_, es)
    ensures Rebuilt(sh.(dirty := false), old_, es)
  {
    hide SortedBy, OldSeqnum;
    assert forall i :: 0 <= i < |es| ==> FreshEntry(sh, old_, es[i]);
  }

  /** The rebuild as a whole: the sorted fresh entries may replace the index. */
  lemma RebuildAll(sh: Shared, es: seq<IndexEntry>, ni: seq<IndexEntry>, sorted: seq<IndexEntry>,
                   done: map<RingId, nat>, log: seq<Delivery>, base: map<RingId, nat>)
    requires Core(sh, es, done, None, log, base) && PollOk(sh.mem, done, es, 0)
    requires (forall i :: 0 <= i < |ni| ==> FreshEntry(sh, es, ni[i])) && Distinct(ni)
    requires (forall n :: n in sh.regs ==> Indexed(ni, sh.regs[n])) && IsSorting(PrioKey(sh.life), ni, sorted)
    ensures var sh' := sh.(dirty := false);
            && Core(sh', sorted, done, None, log, Rebased(sh.mem, es, sorted, done, log, base))
            && PollOk(sh'.mem, done, sorted, 0) && TsoInv(sh'.mem, done, sorted, 0, multiset{})
            && Rebuilt(sh', es, sorted)
            && (AllIndexed(sh, es) ==> Sum(Backlog(sh'.mem, done, sorted)) == Sum(Backlog(sh.mem, done, es)))
    ensures Sum(Seqnums(es)) == Sum(Seqnums(sorted)) + Sum(Dead(es)) && Sum(Dead(es)) >= 0
  {
    hide Core, PollOk, TsoInv, Sum, Backlog, Seqnums, Rebuilt, IsSorting, FreshEntry, Distinct;
    CoreIndex(sh, es, done, None, log, base);
    RebuiltSorted(sh, es, ni, sorted);
    RebuildStep(sh, es, sorted, done, log, base);
    RebuiltSeqnums(sh, es, sorted);
    if AllIndexed(sh, es) { RebuiltBacklog(sh, es, sorted, done); }
    NothingLeft(sh.mem, done, sorted);
    RebuiltDirty(sh, es, sorted);
  }

  /** A clean index with no registration under way knows every registered ring. */
  lemma SettledIndex(sh: Shared, es: seq<IndexEntry>, done: map<RingId, nat>, owed: Option<RingId>,
                     log: seq<Delivery>, base: map<RingId, nat>)
    requires Core(sh, es, done, owed, log, base) && sh.unset == 0
    ensures !sh.dirty ==> AllIndexed(sh, es) && forall i :: 0 <= i < |es| ==> es[i].ring.Some?
  {
    hide SharedInv, LogInv, DropInv, EntriesOk;
  }

  lemma RebuiltFacts(sh: Shared, old_: seq<IndexEntry>, es: seq<IndexEntry>)
    requires Rebuilt(sh, old_, es)
    ensures AllIndexed(sh, es) && (sh.regs == map[] ==> es == [])
    ensures forall k :: k in sh.life && Registered(sh.life, sh.regs, k) ==> Indexed(es, k)
  {
    hide SortedBy, OldSeqnum;
    if es != [] { assert FreshEntry(sh, old_, es[0]); }
  }

  /** With every registered ring indexed and every entry invalid, nothing is registered. */
  lemma NoRings(sh: Shared, es: seq<IndexEntry>)
    requires AllIndexed(sh, es) && forall j :: 0 <= j < |es| ==> es[j].ring == None
    ensures sh.regs == map[]
  {
    assert forall k: RingId :: !Indexed(es, k);
    assert sh.regs.Keys == {};
  }

  /** What a quiet poll, with or without a rebuild before it, promises. */
  ghost predicate QuietPoll(sh0: Shared, es0: seq<IndexEntry>, sh: Shared, es: seq<IndexEntry>)
  {
    && sh.quiet == sh0.quiet
    && (sh.quiet && sh0.unset == 0 ==>
          && SamePubs(sh0.mem, sh.mem) && EmptyStays(sh0.mem, sh.mem) && sh.unset == 0
          && AllIndexed(sh, es) && HeldKept(sh0, sh)
          && (Lonely(sh0) ==> Lonely(sh))
          && (AllIndexed(sh0, es0) && sh0.regs == map[] ==> es == [] && !sh.dirty))
  }

  lemma EntriesRegistered(sh: Shared, es: seq<IndexEntry>, done: map<RingId, nat>, owed: Option<RingId>,
                          log: seq<Delivery>, base: map<RingId, nat>)
    requires Core(sh, es, done, owed, log, base)
    ensures forall k :: Indexed(es, k) ==> k in sh.life && Registered(sh.life, sh.regs, k)
  {
    hide SharedInv, LogInv, DropInv, EntriesOk;
  }

  lemma QuietInterference(sh0: Shared, sh: Shared)
    requires EnvRely(sh0, sh)
    ensures sh.quiet == sh0.quiet && (sh.quiet ==> sh == sh0) && (sh0.dirty ==> sh.dirty)
  {
    hide MemRely, LifeRely;
  }

  lemma CleanIndex(sh: Shared, es: seq<IndexEntry>, done: map<RingId, nat>, owed: Option<RingId>,
                   log: seq<Delivery>, base: map<RingId, nat>)
    requires Core(sh, es, done, owed, log, base) && AllIndexed(sh, es)
    requires forall i :: 0 <= i < |es| ==> es[i].ring.Some?
    ensures sh.regs == map[] ==> es == []
    ensures forall k :: k in sh.life && Registered(sh.life, sh.regs, k) ==> Indexed(es, k)
  {
    hide SharedInv, LogInv, DropInv, EntriesOk;
    assert |es| > 0 ==> es[0].ring.Some? && sh.life[es[0].ring.value].name in sh.regs;
  }

  lemma LonelySame(sh0: Shared, sh: Shared)
    requires sh == sh0.(dirty := sh.dirty)
    ensures Lonely(sh) == Lonely(sh0)
  {
  }

  /** Every ring that was registered is indexed now, unless it is empty. */
  ghost predicate StillHeld(sh0: Shared, sh: Shared, es: seq<IndexEntry>)
  {
    forall k :: k in sh.mem && k in sh0.life && Registered(sh0.life, sh0.regs, k) ==>
      Indexed(es, k) || sh.mem[k].Empty()
  }

  /** Every ring registered at the start is still indexed or registered, or it is empty. */
  ghost predicate InHand(sh0: Shared, sh: Shared, es: seq<IndexEntry>)
  {
    forall n :: n in sh0.regs ==>
      var k := sh0.regs[n];
      k in sh.mem && k in sh.life && (Registered(sh.life, sh.regs, k) || Indexed(es, k) || sh.mem[k].Empty())
  }

  lemma DrainStart(sh: Shared, es: seq<IndexEntry>, done: map<RingId, nat>, owed: Option<RingId>,
                   log: seq<Delivery>, base: map<RingId, nat>)
    requires Core(sh, es, done, owed, log, base)
    ensures InHand(sh, sh, es) && SamePubs(sh.mem, sh.mem)
  {
    hide MemInv, LogInv, DropInv, EntriesOk, IndexOk;
  }

  lemma InHandStep(sh0: Shared, sh1: Shared, es1: seq<IndexEntry>, done1: map<RingId, nat>, log1: seq<Delivery>,
                   base1: map<RingId, nat>, sh: Shared, es: seq<IndexEntry>, done: map<RingId, nat>, log: seq<Delivery>,
                   base: map<RingId, nat>)
    requires Core(sh1, es1, done1, None, log1, base1) && Core(sh, es, done, None, log, base)
    requires InHand(sh0, sh1, es1) && SamePubs(sh0.mem, sh1.mem)
    requires QuietPoll(sh1, es1, sh, es) && sh1.quiet && sh1.unset == 0
    requires StillHeld(sh1, sh, es)
    ensures InHand(sh0, sh, es) && SamePubs(sh0.mem, sh.mem) && sh.quiet && sh.unset == 0
    ensures AllIndexed(sh, es) && (Lonely(sh1) ==> Lonely(sh))
    ensures AllIndexed(sh1, es1) && sh1.regs == map[] ==> es == [] && !sh.dirty
  {
    hide MemInv, LifeInv, LogInv, DropInv, EntriesOk, AllIndexed, Lonely;
    EntriesRegistered(sh1, es1, done1, None, log1, base1);
    forall n | n in sh0.regs
      ensures sh0.regs[n] in sh.mem && sh0.regs[n] in sh.life
      ensures Indexed(es, sh0.regs[n]) || sh.mem[sh0.regs[n]].Empty()
    {
      var k := sh0.regs[n];
      assert k in sh1.mem;
    }
  }

  lemma DrainEnd(sh0: Shared, sh: Shared, es: seq<IndexEntry>, done: map<RingId, nat>, owed: Option<RingId>,
                 log: seq<Delivery>, base: map<RingId, nat>)
    requires Core(sh, es, done, owed, log, base) && es == [] && sh.regs == map[]
    requires InHand(sh0, sh, es)
    ensures forall n :: n in sh0.regs ==> sh0.regs[n] in sh.mem && Proj(log, sh0.regs[n]) == sh.mem[sh0.regs[n]].pub
  {
    hide SharedInv, DropInv, IndexOk, DeliveryOk, Proj;
    forall n | n in sh0.regs ensures sh0.regs[n] in sh.mem && Proj(log, sh0.regs[n]) == sh.mem[sh0.regs[n]].pub {
      var k := sh0.regs[n];
      assert !Indexed(es, k);
      assert sh.mem[k].pub[..Done(done, k)] == sh.mem[k].pub;
    }
  }

  lemma SumEmpty()
    ensures Sum([]) == 0
  {
  }

  lemma IteratedBasics(st0: State, st: State, i: nat, capacity: nat)
    requires Iterated(st0, st, i, capacity)
    ensures |st.es| == |st0.es| && st0.full <= st.full
  {
    hide Sum, Backlog, Grows, EntrySwept, Quietly;
  }

  lemma QuietlyQuiet(sh0: Shared, es0: seq<IndexEntry>, sh: Shared, es: seq<IndexEntry>)
    requires Quietly(sh0, es0, sh, es)
    ensures sh.quiet == sh0.quiet
  {
  }

  // ---------------------------------------------------------------- rings that go out of reach

  /** Delivering from an indexed ring opens no grave. */
  lemma FlushBuried(sh: Shared, es: seq<IndexEntry>, done: map<RingId, nat>, owed: Option<RingId>,
                    log: seq<Delivery>, base: map<RingId, nat>, te: Tso.Entry, sh': Shared, done': map<RingId, nat>,
                    graves: map<RingId, Grave>)
    requires Core(sh, es, done, owed, log, base) && Buried(sh, done, graves)
    requires te.tag < |es| && es[te.tag].ring == Some(te.ring) && te.ring in sh.mem && sh.mem[te.ring].Shaped()
    requires sh' == sh.(mem := sh.mem[te.ring := AckSlot(sh.mem[te.ring], te.pos)])
    requires done' == done[te.ring := te.pos + 1]
    ensures Buried(sh', done', graves)
  {
    hide SharedInv, LogInv, DropInv, EntriesOk;
    BuriedKept(sh, sh', done, done', graves);
  }

  /** Delivering the next record of a ring leaves its writer's story as it is. */
  lemma FlushRecorded(sh: Shared, es: seq<IndexEntry>, done: map<RingId, nat>, owed: Option<RingId>,
                      log: seq<Delivery>, base: map<RingId, nat>, te: Tso.Entry, sh': Shared)
    requires Core(sh, es, done, owed, log, base) && Recorded(sh) && te.ring in sh.mem && sh.mem[te.ring].Shaped()
    requires te.pos == Done(done, te.ring) < |sh.mem[te.ring].pub|
    requires sh' == sh.(mem := sh.mem[te.ring := AckSlot(sh.mem[te.ring], te.pos)])
    ensures Recorded(sh')
  {
    hide LifeInv, RingInv, Recorded, AckSlot, SameStory, LogInv, DropInv, EntriesOk, IndexOk;
    assert RingInv(sh.mem[te.ring], te.pos);
    AckStory(sh.mem[te.ring], te.pos);
    RecordedSame(sh, sh');
  }

  lemma CommitRecorded(sh: Shared, es: seq<IndexEntry>, done: map<RingId, nat>, owed: Option<RingId>,
                       log: seq<Delivery>, base: map<RingId, nat>, k: RingId, h: nat)
    requires Core(sh, es, done, owed, log, base) && Recorded(sh) && k in sh.mem
    ensures Recorded(CommittedShared(sh, k, h))
  {
    hide LifeInv, Recorded, SameStory, CommitHead, LogInv, DropInv, EntriesOk, IndexOk;
    assert RingInv(sh.mem[k], Done(done, k));
    CommitStory(sh.mem[k], h);
    RecordedSame(sh, CommittedShared(sh, k, h));
  }

  lemma KilledRecorded(sh: Shared, k: RingId)
    requires Recorded(sh) && k in sh.life
    ensures Recorded(KilledShared(sh, k))
  {
    hide Recorded, SameStory;
    RecordedSame(sh, KilledShared(sh, k));
  }

  lemma ReleasedRecorded(sh: Shared, k: RingId)
    requires Recorded(sh) && k in sh.life
    ensures Recorded(ReleasedShared(sh, k))
  {
    hide Recorded, SameStory;
    RecordedSame(sh, ReleasedShared(sh, k));
  }

  lemma FlagsRecorded(sh: Shared, dirty: bool, unset: nat, quiet: bool)
    requires Recorded(sh)
    ensures Recorded(sh.(dirty := dirty, unset := unset, quiet := quiet))
  {
    hide Recorded, SameStory;
    RecordedSame(sh, sh.(dirty := dirty, unset := unset, quiet := quiet));
  }

  /** The graves once ring k of entry i has been killed. */
  lemma Entombed(sh: Shared, es: seq<IndexEntry>, done: map<RingId, nat>, log: seq<Delivery>,
                 base: map<RingId, nat>, graves: map<RingId, Grave>, i: nat, k: RingId)
    returns (graves': map<RingId, Grave>)
    requires Core(sh, es, done, None, log, base) && Buried(sh, done, graves)
    requires i < |es| && es[i].ring == Some(k) && k in sh.mem && k in sh.life
    ensures Buried(KilledShared(sh, k), done, graves') && StillBuried(graves, graves')
    ensures LaidOut(sh, k, Done(done, k), graves')
  {
    hide LogInv, DropInv, EntriesOk, Buried, MemInv, LifeInv;
    if sh.Orphan(k) {
      BuriedNew(sh, done, graves, k);
      graves' := graves[k := Grave(sh.mem[k].pub, Done(done, k))];
    } else {
      HolderLeft(sh, done, k);
      BuriedKilled(sh, done, graves, k);
      graves' := graves;
    }
  }

  /** With no other thread running, a ring seen to be an orphan still is one. */
  lemma OrphanStill(seen: Shared, sh0: Shared, sh: Shared, k: RingId)
    requires EnvRely(seen, sh0) && EnvRely(sh0, sh) && k in seen.life && seen.Orphan(k)
    ensures sh.quiet == sh0.quiet && (sh.quiet ==> sh == sh0 && k in sh.life && sh.Orphan(k))
  {
    hide MemRely, LifeRely;
  }

  lemma KillGrows(mem: map<RingId, Ring>, mem': map<RingId, Ring>, k: RingId)
    requires Grows(mem, mem') && k in mem
    ensures k in mem' && mem'[k].h == mem[k].h
  {
  }

  lemma HeldSame(sh0: Shared, sh1: Shared, sh: Shared)
    requires sh1 == sh0.(dirty := sh1.dirty) && HeldKept(sh1, sh)
    ensures HeldKept(sh0, sh)
  {
  }

  lemma StillIndexed(sh: Shared, es: seq<IndexEntry>, name: string)
    requires AllIndexed(sh, es) && name in sh.regs
    ensures Indexed(es, sh.regs[name]) && es != []
  {
  }
}
