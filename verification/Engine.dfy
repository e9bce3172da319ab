/** The engine thread: polling the rings, ordering, flushing, committing, index upkeep and draining. */
module EngineThread {
  import opened Wrappers
  import opened Rings
  import opened Sharing
  import opened Chronicles
  import opened Sorting
  import opened Sums
  import opened Index
  import opened PollSteps
  import opened Backlogs
  import opened Orphans
  import opened Abandoned
  import opened Commits
  import opened Rebuild
  import opened Output
  import opened History
  import opened Effects
  import Bytes
  import Tso

  class Engine {
    var sh: Shared
    var es: seq<IndexEntry>
    const tso: Tso.TsoBuf
    var leftover: nat
    var recsOut: nat
    var recsDropped: nat
    var tsoFull: nat
    var switches: nat
    var output: seq<Item>

    // history: flush_record calls, delivered counts, expected seqnums of entries that have left the index,
    // what rings had accounted for when they came into it, the reference being dropped, the polls made,
    // and the rings that have gone out of everybody's reach
    ghost var log: seq<Delivery>
    ghost var done: map<RingId, nat>
    ghost var retired: nat
    ghost var base: map<RingId, nat>
    ghost var owed: Option<RingId>
    ghost var polls: seq<Poll>
    ghost var graves: map<RingId, Grave>

    /** The statistics agree with the log and with the index. */
    ghost predicate StatsOk()
      reads this`recsOut, this`recsDropped, this`es, this`log, this`retired, this`output
    {
      Tallied(recsOut, recsDropped, es, log, retired, output)
    }

    ghost predicate Inv()
      reads this`sh, this`es, this`done, this`owed, this`log, this`base, this`graves
      reads this`recsOut, this`recsDropped, this`retired, this`output
    {
      Core(sh, es, done, owed, log, base) && StatsOk() && Buried(sh, done, graves) && Recorded(sh)
    }

    ghost function Now(): State
      reads this`sh, this`es, this`done, this`log, this`tsoFull
    {
      State(sh, es, done, log, tsoFull)
    }

    /** During a poll: entries below n have been iterated, and m is what is buffered. */
    ghost predicate Mid(n: nat, m: multiset<Tso.Entry>)
      reads this`sh, this`es, this`done, this`owed, this`log, this`base, this`graves
      reads this`recsOut, this`recsDropped, this`retired, this`output
    {
      Inv() && PollOk(sh.mem, done, es, n) && TsoInv(sh.mem, done, es, n, m)
    }

    ghost function Owing(): int
      reads this`sh, this`done, this`es
    {
      Sum(Backlog(sh.mem, done, es))
    }

    /** Between polls: everything flushed is committed and the buffer is empty. */
    ghost predicate Idle()
      reads this, tso, tso.entry
    {
      && Mid(0, multiset{}) && owed == None
      && PollsOk(polls, log, sh.mem) && FullCounted(polls, tsoFull)
      && tso.Valid() && tso.Contents() == [] && tso.head == tso.tail == 0
      && leftover <= tso.Capacity() / 8
    }

    /**
      * A new engine on a process whose rings have not been read by anyone yet.  Option value 0
      * means the default capacity of the ordering buffer.
      */
    constructor (sh0: Shared, tsoCapacity: nat)
      requires SharedInv(sh0, map[], None) && sh0.regs == map[] && sh0.dirty && sh0.acts == []
      requires forall k :: k in sh0.mem ==> sh0.mem[k].h == 0
      ensures Idle() && fresh(tso) && fresh(tso.entry)
      ensures tso.Capacity() == if tsoCapacity == 0 then 2048 else tsoCapacity
      ensures sh == sh0 && es == [] && log == [] && output == [] && polls == [] && graves == map[]
      ensures leftover == tsoFull == switches == 0
    {
      hide Core, PollOk, TsoInv, PollsOk, SharedInv, Tallied, Buried, FullCounted, Recorded;
      sh, es, leftover := sh0, [], 0;
      tso := new Tso.TsoBuf(if tsoCapacity == 0 then 2048 else tsoCapacity);
      recsOut, recsDropped, tsoFull, switches, output := 0, 0, 0, 0, [];
      log, done, retired, base, owed, polls, graves := [], map[], 0, map[], None, [], map[];
      new;
      StartOk(sh0);
      StartTally(sh0);
      RecordedStart(sh0);
    }

    /** Any number of steps of other threads. */
    method Interfere(ghost n: nat, ghost m: multiset<Tso.Entry>)
      requires Inv()
      modifies this`sh
      ensures Inv() && (old(Mid(n, m)) ==> Mid(n, m))
      ensures EnvRely(old(sh), sh) && Grows(old(sh.mem), sh.mem)
    {
      hide Core, SharedInv, EnvRely, EnvEnabled, EnvDo, Grows, PollOk, TsoInv, Buried, Recorded;
      CoreRely(sh, es, done, owed, log, base);
      var more: nat := *;
      while more > 0
        invariant SharedInv(sh, done, owed) && EnvRely(old(sh), sh) && Buried(sh, done, graves) && Recorded(sh)
      {
        var a: EnvAct := *;
        if EnvEnabled(sh, a) {
          EnvSafe(sh, a, done, owed);
          BuriedRun(sh, a, done, owed, graves);
          RecordedRun(sh, a, done, owed);
          EnvRelyTransitive(old(sh), sh, EnvDo(sh, a));
          sh := EnvDo(sh, a);
        }
        more := more - 1;
      }
      CoreStable(old(sh), sh, es, done, owed, log, base);
      PollStable(old(sh), sh, es, done, owed, log, base, n, m);
    }

    /**
      * Hand one record to its destination: a special record is processed and acked in its slot, a
      * regular one goes to the output.
      */
    method FlushRecord(te: Tso.Entry, ghost rec: Record, ghost sh': Shared)
      requires te.ring in sh.mem && sh.mem[te.ring].Shaped() && rec == sh.mem[te.ring].Slot(te.pos)
      requires sh' == sh.(mem := sh.mem[te.ring := AckSlot(sh.mem[te.ring], te.pos)])
      modifies this`sh, this`output, this`recsOut, this`switches
      ensures sh == sh' && recsOut == old(recsOut) + 1
      ensures switches == old(switches) + (if rec.Special() && rec.argtype == SPR_TIMESOURCE_CHANGE then 1 else 0)
      ensures output == old(output) +
        (if !rec.Special() then [Line(te.ring, rec)]
         else if rec.argtype == SPR_TIMESOURCE_CHANGE then [SwitchMark(te.ring, rec.timestamp, rec.seqnum)]
         else [])
      ensures Lines(output) == old(Lines(output)) + (if rec.Special() then [] else [(te.ring, rec)])
    {
      var r := sh.mem[te.ring].Slot(te.pos);
      if r.Special() {
        if r.argtype == SPR_TIMESOURCE_CHANGE {
          switches := switches + 1;
          LinesAppend(output, SwitchMark(te.ring, r.timestamp, r.seqnum));
          output := output + [SwitchMark(te.ring, r.timestamp, r.seqnum)];
        }
        sh := sh.(mem := sh.mem[te.ring := sh.mem[te.ring].Write(te.pos, r.Ack())]);
      } else {
        LinesAppend(output, Line(te.ring, r));
        output := output + [Line(te.ring, r)];
        assert sh == sh.(mem := sh.mem[te.ring := sh.mem[te.ring]]);
      }
      recsOut := recsOut + 1;
    }

    /** Drop detection: a gap in front of record r is marked in the output, if that is enabled, and counted. */
    method CountDrops(te: Tso.Entry, r: Record, dropMark: bool)
      requires te.tag < |es| && es[te.tag].seqnum <= r.seqnum
      modifies this`output, this`recsDropped
      ensures recsDropped == old(recsDropped) + (r.seqnum - es[te.tag].seqnum)
      ensures Lines(output) == old(Lines(output))
      ensures var missed := r.seqnum - es[te.tag].seqnum;
              output == old(output) +
                if missed > 0 && dropMark then [DropMark(te.ring, Pred64(r.timestamp), missed)] else []
    {
      if r.seqnum != es[te.tag].seqnum {
        var missed := r.seqnum - es[te.tag].seqnum;
        if dropMark {
          LinesAppend(output, DropMark(te.ring, Pred64(r.timestamp), missed));
          output := output + [DropMark(te.ring, Pred64(r.timestamp), missed)];
        }
        recsDropped := recsDropped + missed;
      }
    }

    /** The body of the flush loop for record r of entry te: what it changes. */
    method FlushBody(te: Tso.Entry, r: Record, dropMark: bool, ghost d: Delivery, ghost sh': Shared)
      requires te.tag < |es| && es[te.tag].seqnum <= r.seqnum && d == Delivery(te, r, r.seqnum - es[te.tag].seqnum)
      requires te.ring in sh.mem && sh.mem[te.ring].Shaped() && r == sh.mem[te.ring].Slot(te.pos)
      requires sh' == sh.(mem := sh.mem[te.ring := AckSlot(sh.mem[te.ring], te.pos)])
      modifies this`sh, this`es, this`output, this`recsOut, this`recsDropped, this`switches, this`log, this`done
      ensures sh == sh' && es == old(es)[te.tag := FlushedEntry(old(es)[te.tag], te.pos, r)]
      ensures log == old(log) + [d] && done == old(done)[te.ring := te.pos + 1]
      ensures recsOut == old(recsOut) + 1 && recsDropped == old(recsDropped) + d.missed
      ensures output == old(output) + WrittenFor(d, dropMark)
      ensures Lines(output) == old(Lines(output)) + (if r.Special() then [] else [(te.ring, r)])
    {
      hide AckSlot, Lines, Pred64;
      CountDrops(te, r, dropMark);
      es := es[te.tag := FlushedEntry(es[te.tag], te.pos, r)];
      FlushRecord(te, r, sh');
      log := log + [d];
      done := done[te.ring := te.pos + 1];
    }

    /**
      * One popped entry: detect drops by the gap in sequence numbers, note how far the ring has been flushed,
      * and flush the record.
      */
    method FlushNow(te: Tso.Entry, dropMark: bool, ghost n: nat, ghost m: multiset<Tso.Entry>)
      requires Mid(n, m) && Oldest(m, te)
      modifies this`sh, this`es, this`output, this`recsOut, this`recsDropped, this`switches, this`log, this`done
      ensures Mid(n, m - multiset{te})
      ensures |log| == |old(log)| + 1 && log[..|old(log)|] == old(log) && log[|old(log)|].te == te
      ensures SameIterators(old(es), es) && SamePubs(old(sh.mem), sh.mem) && Grows(old(sh.mem), sh.mem)
      ensures sh == old(sh).(mem := sh.mem)
      ensures output == old(output) + WrittenFor(log[|old(log)|], dropMark)
      ensures Sum(Unflushed(es, done, n)) == old(Sum(Unflushed(es, done, n))) - 1
      ensures Owing() == old(Owing()) - 1
    {
      hide Core, PollOk, TsoInv, Oldest, Grows, Unflushed, Sum, Seqnums, Backlog, TotalMissed, Lines, Regulars,
        EntriesOk, LogInv, SameIterators, SamePubs, AckSlot, Buried, IndexOk, Tallied, Recorded, FlushedEntry,
        WrittenFor;
      ReadNext(sh, es, done, owed, log, base, n, m, te);
      CoreIndex(sh, es, done, owed, log, base);
      var i := te.tag;
      var r := sh.mem[te.ring].Slot(te.pos);
      ghost var d := Delivery(te, r, r.seqnum - es[i].seqnum);
      ghost var sh' := sh.(mem := sh.mem[te.ring := AckSlot(sh.mem[te.ring], te.pos)]);
      ghost var es' := es[i := FlushedEntry(es[i], te.pos, r)];
      ghost var done' := done[te.ring := te.pos + 1];
      FlushStep(sh, es, done, owed, log, base, n, m, te, r, sh', es', done', d);
      FlushFrame(sh, es, done, te, r, sh', es', done');
      FlushRecorded(sh, es, done, owed, log, base, te, sh');
      FlushBuried(sh, es, done, owed, log, base, te, sh', done', graves);
      FlushBody(te, r, dropMark, d, sh');
      TalliedFlushed(old(recsOut), old(recsDropped), old(es), es, old(log), retired, old(output), output, d);
    }

    /** The same with other threads running. */
    method FlushEntry(te: Tso.Entry, ghost n: nat, ghost m: multiset<Tso.Entry>)
      requires Mid(n, m) && Oldest(m, te)
      modifies this`sh, this`es, this`output, this`recsOut, this`recsDropped, this`switches, this`log, this`done
      ensures Mid(n, m - multiset{te})
      ensures Flushed(old(Now()), Now(), n, [te]) && old(output) <= output
    {
      hide Core, PollOk, TsoInv, Oldest, Grows, Unflushed, Sum, Seqnums, Backlog, TotalMissed, Lines, Regulars,
        SameIterators, SamePubs, Flushed, EnvRely;
      Interfere(n, m);
      ghost var st1 := Now();
      var dropMark: bool := *;   // whether the internal area has DROPMARK enabled
      FlushNow(te, dropMark, n, m);
      FlushedAfter(old(Now()), st1, Now(), n, te);
    }

    /**
      * Sort the buffer and flush up to `size` of its oldest entries.  `s` is the sorted buffer: its
      * first entries are delivered in that order and the rest stays buffered.
      */
    method DoFlushTso(size: nat, ghost n: nat) returns (ghost s: seq<Tso.Entry>, ghost c: nat)
      requires tso.Valid() && Mid(n, multiset(tso.Contents()))
      modifies this`sh, this`es, this`output, this`recsOut, this`recsDropped, this`switches, this`log, this`done
      modifies tso, tso.entry
      ensures tso.Valid() && tso.tail == old(tso.tail)
      ensures IsSorting(Tso.Time, old(tso.Contents()), s) && c == (if size < |s| then size else |s|)
      ensures tso.Contents() == s[c..] && Mid(n, multiset(s[c..]))
      ensures Flushed(old(Now()), Now(), n, s[..c]) && old(output) <= output
    {
      hide Mid, Oldest, Flushed, SortedBy;
      tso.Sort();
      s := tso.Contents();
      var j := 0;
      FlushedNothing(Now(), n);
      while j < size
        invariant 0 <= j <= size && j <= |s|
        invariant tso.Valid() && tso.tail == old(tso.tail) && tso.Contents() == s[j..]
        invariant Mid(n, multiset(s[j..]))
        invariant Flushed(old(Now()), Now(), n, s[..j]) && old(output) <= output
        decreases size - j
      {
        var ok, te := tso.Pop();
        if !ok { break; }
        assert te == s[j] && s[j..][1..] == s[j + 1..];
        OldestOfSorted(s, j);
        ghost var st1 := Now();
        FlushEntry(te, n, multiset(s[j..]));
        FlushedOneMore(old(Now()), st1, Now(), n, s, j);
        j := j + 1;
      }
      c := j;
    }

    /** The warning line of an emergency flush, dated just before the first buffered record. */
    method MarkFull(ghost n: nat)
      requires tso.Valid() && tso.Contents() != [] && Mid(n, multiset(tso.Contents()))
      modifies this`output
      ensures Mid(n, multiset(tso.Contents()))
      ensures old(output) < output && |output| == |old(output)| + 1
      ensures MarkedFull(sh.mem, tso.Contents()[0], old(output), output)
    {
      hide Core, PollOk, TsoInv, Lines, Regulars, Sum, Seqnums, TotalMissed;
      var ok, te := tso.Top();
      assert te in multiset(tso.Contents());
      PointerValid(sh, es, done, owed, log, base, n, multiset(tso.Contents()), te);
      var r := sh.mem[te.ring].Slot(te.pos);
      LinesAppend(output, FullMark(Pred64(r.timestamp)));
      output := output + [FullMark(Pred64(r.timestamp))];
    }

    /**
      * Emergency flush of a full buffer: the older half goes out and the rest moves to the front.
      * This makes room exactly when half the buffer is at least one entry.  If such lines are enabled, the
      * output first says so, dated just before the first buffered record.
      */
    method FlushFullTso(fullMark: bool, ghost n: nat) returns (ghost s: seq<Tso.Entry>, ghost c: nat)
      requires tso.Valid() && tso.head == 0 && tso.Full() && tso.Contents() != []
      requires Mid(n, multiset(tso.Contents()))
      modifies this`sh, this`es, this`output, this`recsOut, this`recsDropped, this`switches, this`log, this`done
      modifies this`leftover, this`tsoFull, tso, tso.entry
      ensures tso.Valid() && tso.head == 0 && (tso.Full() <==> tso.Capacity() == 1)
      ensures IsSorting(Tso.Time, old(tso.Contents()), s) && c == |s| / 2 <= |s|
      ensures tso.Contents() == s[c..] && Mid(n, multiset(s[c..]))
      ensures Flushed(old(Now()), Now(), n, s[..c])
      ensures leftover == 0 && tsoFull == old(tsoFull) + 1
      ensures old(output) <= output
      ensures fullMark ==> MarkedFull(old(sh.mem), old(tso.Contents())[0], old(output), output)
    {
      hide Mid, Flushed, SortedBy, Tso.TsoBuf.Contents, MarkedFull;
      ghost var st0 := Now();
      var size := tso.Size() / 2;
      if fullMark {
        MarkFull(n);
      }
      ghost var output1 := output;
      s, c := DoFlushTso(size, n);
      FlushedCounted(st0, Now(), n, s[..c], tsoFull + 1);
      if fullMark { MarkedStill(old(sh.mem), old(tso.Contents())[0], old(output), output1, output); }
      leftover := 0;
      tso.Flip();
      tsoFull := tsoFull + 1;
      HalfLeft(tso.Capacity());
    }

    /**
      * The flush at the end of a poll: all but an eighth of the capacity, but at least as many
      * records as the previous poll left over.  What is kept stays in the rings and is forgotten here.
      */
    method FlushTso() returns (ghost s: seq<Tso.Entry>, ghost c: nat)
      requires tso.Valid() && Mid(|es|, multiset(tso.Contents()))
      modifies this`sh, this`es, this`output, this`recsOut, this`recsDropped, this`switches, this`log, this`done
      modifies this`leftover, tso, tso.entry
      ensures tso.Valid() && tso.head == tso.tail == 0 && tso.Contents() == []
      ensures IsSorting(Tso.Time, old(tso.Contents()), s) && c <= |s|
      ensures Mid(|old(es)|, multiset(s[c..]))
      ensures Flushed(old(Now()), Now(), |old(es)|, s[..c])
      ensures leftover == |s| - c <= tso.Capacity() / 8
      ensures var most := |s| - tso.Capacity() / 8;
              c == Bytes.Min(|s|, if most > old(leftover) then most else old(leftover))
    {
      hide Inv, PollOk, TsoInv, Flushed;
      var size := tso.Size();
      var keep := tso.Capacity() / 8;
      size := if size > keep then size - keep else 0;
      if size < leftover {
        size := leftover;
      }
      if size > 0 {
        s, c := DoFlushTso(size, |es|);
      } else {
        s := SortingExists(Tso.Time, tso.Contents());
        c := 0;
        FlushedNothing(Now(), |es|);
        assert s[c..] == s && s[..c] == [];
      }
      leftover := tso.Size();
      tso.Reset();
    }

    /** Moving entry i's iterator or taking a new snapshot touches nothing else. */
    method MoveIterator(i: nat, e: IndexEntry)
      requires Inv() && i < |es| && e == es[i].(pos := e.pos, lim := e.lim)
      modifies this`es
      ensures Inv() && es == old(es)[i := e]
      ensures Reading(old(Now()), Now(), i, tso.Capacity())
    {
      hide Core, Sum, Seqnums, Reading, Buried, Lines, Regulars, TotalMissed, Recorded;
      CoreMoved(sh, es, done, owed, log, base, i, e);
      ReadingMoved(Now(), i, tso.Capacity(), e);
      es := es[i := e];
    }

    /**
      * it.next() and _tso.push(): buffer the record under entry i's iterator, with the least timestamp
      * that is not below its own and above `prev`.
      */
    method PushOne(i: nat, k: RingId, prev: nat) returns (ts: nat)
      requires tso.Valid() && !tso.Full()
      requires Mid(i + 1, multiset(tso.Contents())) && |tso.Contents()| == Sum(Unflushed(es, done, i + 1))
      requires i < |es| && es[i].ring == Some(k) && es[i].pos < es[i].lim
      requires PrevOk(sh.mem, es[i], k, multiset(tso.Contents()), prev)
      modifies this`es, tso, tso.entry
      ensures tso.Valid() && tso.head == old(tso.head) && tso.Contents() != []
      ensures Mid(i + 1, multiset(tso.Contents())) && |tso.Contents()| == Sum(Unflushed(es, done, i + 1))
      ensures Reading(old(Now()), Now(), i, tso.Capacity())
      ensures |es| == |old(es)| && es[i] == old(es)[i].(pos := old(es)[i].pos + 1)
      ensures PrevOk(sh.mem, es[i], k, multiset(tso.Contents()), ts)
      ensures tso.Contents() == old(tso.Contents()) + [Tso.Entry(ts, k, old(es)[i].pos, i)]
      ensures k in sh.mem && old(es)[i].pos < |sh.mem[k].pub|
      ensures var own := sh.mem[k].pub[old(es)[i].pos].timestamp;
              ts >= own && ts > prev && (ts == own || ts == prev + 1)
    {
      hide Inv, Core, PollOk, TsoInv, PrevOk, Unflushed, Sum, Reading;
      InvCore();
      ghost var m := multiset(tso.Contents());
      PushAt(sh, es, done, owed, log, base, i, k, m, prev);
      var pos := es[i].pos;
      ts := Adjust(sh.mem[k].Slot(pos).timestamp, prev);
      MoveIterator(i, NextEntry(es[i]));
      tso.Push(Tso.Entry(ts, k, pos, i));
      assert multiset(tso.Contents()) == m + multiset{Tso.Entry(ts, k, pos, i)};
    }

    /** The emergency flush in the middle of reading entry i. */
    method MakeRoom(i: nat, ghost k: RingId, ghost prev: nat)
      requires tso.Capacity() >= 2 && tso.Valid() && tso.head == 0 && tso.Full() && tso.Contents() != []
      requires Mid(i + 1, multiset(tso.Contents())) && |tso.Contents()| == Sum(Unflushed(es, done, i + 1))
      requires i < |es| && PrevOk(sh.mem, es[i], k, multiset(tso.Contents()), prev)
      modifies this`sh, this`es, this`output, this`recsOut, this`recsDropped, this`switches, this`log, this`done
      modifies this`leftover, this`tsoFull, tso, tso.entry
      ensures tso.Valid() && tso.head == 0 && !tso.Full()
      ensures Mid(i + 1, multiset(tso.Contents())) && |tso.Contents()| == Sum(Unflushed(es, done, i + 1))
      ensures Reading(old(Now()), Now(), i, tso.Capacity())
      ensures |es| == |old(es)| && es[i].pos == old(es)[i].pos && es[i].lim == old(es)[i].lim
      ensures tsoFull == old(tsoFull) + 1
      ensures PrevOk(sh.mem, es[i], k, multiset(tso.Contents()), prev)
    {
      hide Inv, Core, PollOk, TsoInv, PrevOk, Unflushed, Sum, Backlog, Flushed, Reading, Grows, EntriesOk,
        SortedBy, IndexOk, LogInv;
      InvCore();
      CoreIndex(sh, es, done, owed, log, base);
      UnflushedBounded(sh.mem, done, es, i + 1);
      var fullMark: bool := *;   // whether the internal area has TSOFULLMARK enabled
      var s, c := FlushFullTso(fullMark, i + 1);
      ReadingFlushed(old(Now()), Now(), i + 1, s[..c], i, tso.Capacity());
      SuffixMultiset(s, c);
      PrevSubset(old(sh.mem), sh.mem, old(es)[i], es[i], k, old(multiset(tso.Contents())), multiset(tso.Contents()),
                 prev);
    }

    /**
      * One step of the reading loop: take the next record of entry i, give it a timestamp later than
      * the ring's previous one, buffer it, and make room if that filled the buffer.
      */
    method PushNext(i: nat, k: RingId, prev: nat) returns (ts: nat)
      requires tso.Capacity() >= 2 && tso.Valid() && tso.head == 0 && !tso.Full()
      requires Mid(i + 1, multiset(tso.Contents())) && |tso.Contents()| == Sum(Unflushed(es, done, i + 1))
      requires i < |es| && es[i].ring == Some(k) && es[i].pos < es[i].lim
      requires PrevOk(sh.mem, es[i], k, multiset(tso.Contents()), prev)
      modifies this`sh, this`es, this`output, this`recsOut, this`recsDropped, this`switches, this`log, this`done
      modifies this`leftover, this`tsoFull, tso, tso.entry
      ensures tso.Valid() && tso.head == 0 && !tso.Full()
      ensures Mid(i + 1, multiset(tso.Contents())) && |tso.Contents()| == Sum(Unflushed(es, done, i + 1))
      ensures Reading(old(Now()), Now(), i, tso.Capacity())
      ensures |es| == |old(es)| && es[i].pos == old(es)[i].pos + 1 && es[i].lim == old(es)[i].lim
      ensures PrevOk(sh.mem, es[i], k, multiset(tso.Contents()), ts)
      ensures tsoFull == old(tsoFull) ==> leftover == old(leftover)
    {
      hide Core, PollOk, TsoInv, PrevOk, Unflushed, Sum, Backlog, StatsOk, Flushed, Reading, Grows, EnvRely;
      Interfere(i + 1, multiset(tso.Contents()));
      PrevStable(old(sh.mem), sh.mem, es[i], k, multiset(tso.Contents()), prev);
      ghost var st1 := Now();
      ReadingInterfered(old(Now()), st1, i, tso.Capacity());
      ts := PushOne(i, k, prev);
      ReadingTransitive(old(Now()), st1, Now(), i, tso.Capacity());
      if tso.Full() {
        ghost var st2 := Now();
        MakeRoom(i, k, ts);
        ReadingTransitive(old(Now()), st2, Now(), i, tso.Capacity());
      }
    }

    /** it.reset(): take a snapshot of the ring behind entry i. */
    method ResetIterator(i: nat, k: RingId)
      requires tso.Valid()
      requires Mid(i, multiset(tso.Contents())) && |tso.Contents()| == Sum(Unflushed(es, done, i))
      requires i < |es| && es[i].ring == Some(k)
      modifies this`es
      ensures Mid(i + 1, multiset(tso.Contents())) && |tso.Contents()| == Sum(Unflushed(es, done, i + 1))
      ensures Reading(old(Now()), Now(), i, tso.Capacity())
      ensures |es| == |old(es)| && es[i].ring == Some(k) && k in sh.mem && es[i].pos <= es[i].lim == |sh.mem[k].pub|
      ensures PrevOk(sh.mem, es[i], k, multiset(tso.Contents()), 0)
    {
      hide Inv, Core, PollOk, TsoInv, Unflushed, Sum, Reading, EntriesOk, PrevOk, IndexOk, Distinct;
      InvCore();
      CoreIndex(sh, es, done, owed, log, base);
      EntryOf(sh.mem, done, es, i);
      ResetStep(sh.mem, done, es, i, multiset(tso.Contents()), k);
      NothingBuffered(sh.mem, done, es, i, multiset(tso.Contents()), k);
      MoveIterator(i, ResetEntry(sh.mem[k], es[i]));
    }

    /** Read everything the ring of entry i holds at the time of the snapshot into the buffer. */
    method ReadRing(i: nat, k: RingId)
      requires tso.Capacity() >= 2 && tso.Valid() && tso.head == 0 && !tso.Full()
      requires Mid(i, multiset(tso.Contents())) && |tso.Contents()| == Sum(Unflushed(es, done, i))
      requires i < |es| && es[i].ring == Some(k)
      modifies this`sh, this`es, this`output, this`recsOut, this`recsDropped, this`switches, this`log, this`done
      modifies this`leftover, this`tsoFull, tso, tso.entry
      ensures tso.Valid() && tso.head == 0 && !tso.Full()
      ensures Mid(i + 1, multiset(tso.Contents())) && |tso.Contents()| == Sum(Unflushed(es, done, i + 1))
      ensures Reading(old(Now()), Now(), i, tso.Capacity())
      ensures |es| == |old(es)| && es[i].ring == Some(k) && es[i].pos == es[i].lim && k in sh.mem
      ensures sh.quiet ==> es[i].pos == |sh.mem[k].pub|
      ensures SeenAll(old(sh), es[i])
      ensures tsoFull == old(tsoFull) ==> leftover == old(leftover)
    {
      hide Core, PollOk, TsoInv, PrevOk, Unflushed, Sum, Backlog, StatsOk, Reading, Grows, PubsGrow, EnvRely;
      Interfere(i, multiset(tso.Contents()));
      GrowsPubs(old(sh.mem), sh.mem);
      ghost var st1 := Now();
      ReadingInterfered(old(Now()), st1, i, tso.Capacity());
      ResetIterator(i, k);
      ReadingTransitive(old(Now()), st1, Now(), i, tso.Capacity());
      SeenEarlier(old(sh), sh, es[i]);
      var ts := 0;
      while es[i].pos != es[i].lim
        invariant tso.Valid() && tso.head == 0 && !tso.Full()
        invariant Mid(i + 1, multiset(tso.Contents())) && |tso.Contents()| == Sum(Unflushed(es, done, i + 1))
        invariant |es| == |old(es)| && es[i].ring == Some(k) && es[i].pos <= es[i].lim && k in sh.mem
        invariant PrevOk(sh.mem, es[i], k, multiset(tso.Contents()), ts)
        invariant Reading(old(Now()), Now(), i, tso.Capacity())
        invariant (sh.quiet ==> es[i].lim == |sh.mem[k].pub|) && SeenAll(old(sh), es[i])
        invariant old(tsoFull) <= tsoFull && (tsoFull == old(tsoFull) ==> leftover == old(leftover))
        decreases es[i].lim - es[i].pos
      {
        ghost var st2 := Now();
        ts := PushNext(i, k, ts);
        ReadingTransitive(old(Now()), st2, Now(), i, tso.Capacity());
        ReadingKeeps(st2, Now(), i, tso.Capacity(), k);
      }
    }

    /** With the ring map locked: take ring k out of the map and out of the index. */
    method Unregister(i: nat, k: RingId, ghost m: multiset<Tso.Entry>)
      requires i < |es| && es[i].ring == Some(k) && k in sh.mem && k in sh.life
      requires Done(done, k) == sh.mem[k].h == es[i].pos && (sh.quiet ==> sh.mem[k].Empty() && sh.Orphan(k))
      requires owed == None && Mid(i + 1, m)
      modifies this`sh, this`es, this`owed, this`graves
      ensures owed == Some(k) && k in sh.life && sh == KilledShared(old(sh), k)
      ensures es == old(es)[i := KilledEntry(old(es)[i])]
      ensures Sum(Unflushed(es, done, i + 1)) == old(Sum(Unflushed(es, done, i + 1)))
      ensures Quietly(old(sh), old(es), ReleasedShared(sh, k), es) && StillBuried(old(graves), graves)
      ensures LaidOut(old(sh), k, Done(done, k), graves) && Mid(i + 1, m)
    {
      hide Core, PollOk, TsoInv, Unflushed, Sum, Seqnums, Quietly, Registered, Buried, StillBuried, Tallied, DropRef,
        EntriesOk, Distinct, KilledEntry, LaidOut, Recorded;
      ghost var graves' := Entombed(sh, es, done, log, base, graves, i, k);
      KillStep(sh, es, done, log, base, i + 1, m, i, k);
      TalliedSame(recsOut, recsDropped, es, es[i := KilledEntry(es[i])], log, retired, output);
      RegsOf(sh, es, done, owed, log, base);
      CoreIndex(sh, es, done, owed, log, base);
      QuietlyKilled(sh, es, i, k);
      KilledRecorded(sh, k);
      sh := KilledShared(sh, k);
      es := es[i := KilledEntry(es[i])];
      owed := Some(k);
      graves := graves';
    }

    /** release(): drop the reference that the ring map held. */
    method DropReference(k: RingId, ghost n: nat, ghost m: multiset<Tso.Entry>)
      requires Mid(n, m) && owed == Some(k)
      modifies this`sh, this`owed
      ensures Mid(n, m) && owed == None && k in old(sh).life && sh == ReleasedShared(old(sh), k)
    {
      hide Core, PollOk, TsoInv, Buried, Tallied, Recorded;
      ReleaseStep(sh, es, done, log, base, k);
      BuriedReleased(sh, done, graves, k);
      ReleasedRecorded(sh, k);
      sh := sh.(life := sh.life[k := DropRef(sh.life[k])]);
      owed := None;
    }

    /** The same, then unlock, and drop the map's reference. */
    method KillLocked(i: nat, k: RingId, ghost m: multiset<Tso.Entry>)
      requires Mid(i + 1, m) && owed == None && i < |es| && es[i].ring == Some(k) && k in sh.mem && k in sh.life
      requires Done(done, k) == sh.mem[k].h == es[i].pos && (sh.quiet ==> sh.mem[k].Empty() && sh.Orphan(k))
      modifies this`sh, this`es, this`owed, this`graves
      ensures Mid(i + 1, m) && owed == None && sh.dirty && es == old(es)[i := KilledEntry(old(es)[i])]
      ensures Sum(Unflushed(es, done, i + 1)) == old(Sum(Unflushed(es, done, i + 1)))
      ensures Grows(old(sh.mem), sh.mem) && Quietly(old(sh), old(es), sh, es)
      ensures StillBuried(old(graves), graves)
      ensures LaidOut(old(sh), k, Done(done, k), graves)
    {
      hide Inv, Core, PollOk, TsoInv, Unflushed, Sum, Grows, Quietly, EnvRely, StillBuried;
      Unregister(i, k, m);
      ghost var sh1 := sh;
      Interfere(i + 1, m);
      QuietInterference(sh1, sh);
      DropReference(k, i + 1, m);
      QuietlyWhen(old(sh), old(es), sh, es, ReleasedShared(sh1, k));
    }

    /** What other threads do before the lock is taken. */
    method ApproachLock(i: nat, k: RingId, ghost m: multiset<Tso.Entry>, ghost seen: Shared)
      requires EnvRely(seen, sh) && k in seen.life && seen.Orphan(k)
      requires Mid(i + 1, m) && i < |es| && es[i].ring == Some(k) && k in sh.mem
      requires Done(done, k) == sh.mem[k].h == es[i].pos && (sh.quiet ==> sh.mem[k].Empty())
      modifies this`sh
      ensures Mid(i + 1, m) && EnvRely(old(sh), sh) && Grows(old(sh.mem), sh.mem)
      ensures Quietly(old(sh), es, sh, es) && sh.quiet == old(sh).quiet
      ensures k in sh.mem && k in sh.life && Done(done, k) == sh.mem[k].h
      ensures sh.quiet ==> sh.mem[k].Empty() && sh.Orphan(k)
    {
      hide Inv, Core, PollOk, TsoInv, Grows, Quietly, EnvRely;
      QuietlySelf(sh, es);
      Interfere(i + 1, m);
      OrphanStill(seen, old(sh), sh, k);
      InvCore();
      RingKnown(sh, es, done, owed, log, base, i, k);
      KillGrows(old(sh.mem), sh.mem, k);
      QuietlyWhen(old(sh), es, sh, es, old(sh));
    }

    /**
      * Kill ring k of entry i, seen to be an orphan in the earlier state `seen`, if the lock on the ring map
      * is free; it is not waited for, and is always free when nobody else is running.  Other threads may have
      * come back to the ring since; `lock` is the state in which the lock was taken.  If nobody holds the
      * ring then, it stays for good as it was then; `KillDecides` says when that loses nothing.
      */
    method KillOrphan(i: nat, k: RingId, ghost m: multiset<Tso.Entry>, ghost seen: Shared, lockFree: bool)
      returns (ghost lock: Shared)
      requires sh.quiet ==> lockFree
      requires EnvRely(seen, sh) && k in seen.life && seen.Orphan(k)
      requires Mid(i + 1, m) && owed == None && i < |es| && es[i].ring == Some(k) && k in sh.mem
      requires Done(done, k) == sh.mem[k].h == es[i].pos && (sh.quiet ==> sh.mem[k].Empty())
      modifies this`sh, this`es, this`owed, this`graves
      ensures Mid(i + 1, m) && owed == None
      ensures es == if lockFree then old(es)[i := KilledEntry(old(es)[i])] else old(es)
      ensures Sum(Unflushed(es, done, i + 1)) == old(Sum(Unflushed(es, done, i + 1)))
      ensures Grows(old(sh.mem), sh.mem) && Quietly(old(sh), old(es), sh, es)
      ensures lockFree ==> sh.dirty
      ensures EnvRely(old(sh), lock) && StillBuried(old(graves), graves)
      ensures lockFree ==> LaidOut(lock, k, Done(done, k), graves)
      ensures !lockFree ==> sh == lock && graves == old(graves)
    {
      hide Mid, Unflushed, Sum, Grows, Quietly, EnvRely, StillBuried, LaidOut;
      BuriedSelf(graves);
      ApproachLock(i, k, m, seen);
      lock := sh;
      if lockFree {
        KillLocked(i, k, m);
        GrowsTransitive(old(sh.mem), lock.mem, sh.mem);
        QuietlyTransitive(old(sh), old(es), lock, old(es), sh, es);
      }
    }

    /** `it.ring()->orphan() && it.ring()->empty()`, two reads that other threads may run between. */
    method TestOrphan(i: nat, k: RingId, ghost m: multiset<Tso.Entry>) returns (deserted: bool, ghost seen: Shared)
      requires Mid(i + 1, m) && i < |es| && es[i].ring == Some(k)
      modifies this`sh
      ensures Mid(i + 1, m) && EnvRely(old(sh), sh) && Grows(old(sh.mem), sh.mem) && k in sh.mem && k in sh.life
      ensures deserted ==> EnvRely(old(sh), seen) && EnvRely(seen, sh) && k in seen.life && seen.Orphan(k)
      ensures deserted ==> sh.mem[k].Empty() && Done(done, k) == sh.mem[k].h == es[i].pos
      ensures deserted && sh.quiet ==> |sh.mem[k].pub| == sh.mem[k].h
      ensures deserted ==> |Proj(log, k)| == Done(done, k)
      ensures k in seen.life && EnvRely(seen, sh) && (deserted <==> seen.Orphan(k) && sh.mem[k].Empty())
      ensures sh.quiet && sh.Orphan(k) && sh.mem[k].Empty() ==> deserted
    {
      hide Core, PollOk, TsoInv, EnvRely, Grows, Tallied;
      Interfere(i + 1, m);
      seen := sh;
      CoreRely(sh, es, done, owed, log, base);
      RingKnown(sh, es, done, owed, log, base, i, k);
      deserted := sh.Orphan(k);
      if deserted {
        Interfere(i + 1, m);
        RingKnown(sh, es, done, owed, log, base, i, k);
        EnvRelyTransitive(old(sh), seen, sh);
        GrowsTransitive(old(sh.mem), seen.mem, sh.mem);
        deserted := sh.mem[k].Empty();
        if deserted {
          EmptyIsDelivered(sh, es, done, owed, log, base, i, k);
        }
      }
    }

    /**
      * The end of an entry's turn, which began in state st0: kill its ring if it is an orphan in state `seen`,
      * is empty in state `test`, and the lock on the ring map is free.
      */
    method TryKill(i: nat, k: RingId, lockFree: bool, ghost m: multiset<Tso.Entry>, ghost st0: State, ghost cap: nat)
      returns (ghost seen: Shared, ghost test: Shared)
      requires i < |es| && es[i].ring == Some(k) && es[i].pos == es[i].lim && k in sh.mem && SeenAll(st0.sh, es[i])
      requires |st0.es| == |es| && st0.es[i].ring == Some(k) && (sh.quiet ==> lockFree && es[i].pos == |sh.mem[k].pub|)
      requires owed == None && Reading(st0, Now(), i, cap) && Untouched(st0, i)
      requires Mid(i + 1, m)
      modifies this`sh, this`es, this`owed, this`graves
      ensures |es| == |old(es)| && owed == None
      ensures Sum(Unflushed(es, done, i + 1)) == old(Sum(Unflushed(es, done, i + 1)))
      ensures Killable(st0.es[i], seen, test, lockFree, es[i]) && Mid(i + 1, m)
      ensures Iterated(st0, Now(), i, cap) && EnvRely(seen, test) && StillBuried(old(graves), graves)
    {
      hide Inv, Core, PollOk, TsoInv, Unflushed, Sum, Backlog, StatsOk, Reading, Grows, EnvRely, Iterated, EntrySwept,
        Quietly, Deserted, Undelivered, LaidOut, Proj, Killable, KilledEntry, SeenAll, StillBuried, Untouched;
      BuriedSelf(graves);
      ghost var st1 := Now();
      var deserted;
      deserted, seen := TestOrphan(i, k, m);
      test := sh;
      ReadingInterfered(st1, Now(), i, cap);
      ReadingTransitive(st0, st1, Now(), i, cap);
      SweptReading(st0, st1.sh, Now(), i, cap, k, deserted);
      QuietInterference(st1.sh, sh);
      ghost var st2 := Now();
      if deserted {
        var lock := KillOrphan(i, k, m, seen, lockFree);
        QuietlyQuiet(st2.sh, st2.es, sh, es);
        SweptKilled(st0, st2, Now(), i, cap, k, lockFree);
      } else {
        IteratedRead(st0, Now(), i, cap);
      }
      WasKillable(st0.es[i], seen, test, lockFree, es[i], k, deserted, st2.es[i]);
    }

    /**
      * One entry of the poll loop: skip it if its ring is gone, otherwise read the ring into the
      * buffer, and kill the ring if it is an orphan and empty.
      */
    method IterateRing(i: nat, lockFree: bool) returns (ghost seen: Shared, ghost test: Shared)
      requires sh.quiet ==> lockFree
      requires tso.Capacity() >= 2 && tso.Valid() && tso.head == 0 && !tso.Full() && owed == None
      requires i < |es| && Mid(i, multiset(tso.Contents())) && |tso.Contents()| == Sum(Unflushed(es, done, i))
      modifies this`sh, this`es, this`output, this`recsOut, this`recsDropped, this`switches, this`log, this`done
      modifies this`leftover, this`tsoFull, this`owed, this`graves, tso, tso.entry
      ensures tso.Valid() && tso.head == 0 && !tso.Full() && owed == None && StillBuried(old(graves), graves)
      ensures Mid(i + 1, multiset(tso.Contents())) && |tso.Contents()| == Sum(Unflushed(es, done, i + 1))
      ensures Iterated(old(Now()), Now(), i, tso.Capacity())
      ensures tsoFull == old(tsoFull) ==> leftover == old(leftover)
      ensures EnvRely(seen, test) && Killable(old(es)[i], seen, test, lockFree, es[i])
    {
      hide Inv, Core, PollOk, TsoInv, Unflushed, Sum, Backlog, StatsOk, Reading, Grows, EnvRely, Iterated, SeenAll,
        Killable, StillBuried, Untouched;
      BuriedSelf(graves);
      InvCore();
      match es[i].ring
      case None =>
        seen, test := sh, sh;
        CoreRely(sh, es, done, owed, log, base);
        SkipStep(sh.mem, done, es, i, multiset(tso.Contents()));
        IteratedNothing(Now(), i, tso.Capacity());
        SkippedKillable(es[i], seen, test, lockFree);
      case Some(k) =>
        UntouchedYet(sh, es, done, owed, log, base, i, tsoFull);
        ReadRing(i, k);
        ReadingQuiet(old(Now()), Now(), i, tso.Capacity());
        seen, test := TryKill(i, k, lockFree, multiset(tso.Contents()), old(Now()), tso.Capacity());
    }

    /** Rewind entry i's iterator to the last flushed record and commit its ring's head there. */
    method CommitRing(i: nat)
      requires Inv() && owed == None && i < |es| && es[i].lastrec.Some?
      modifies this`sh, this`es
      ensures Inv() && Committing(old(sh), old(es), sh, es)
      ensures |es| == |old(es)| && es == old(es)[i := es[i]] && es[i].lastrec == None
    {
      hide Core, Committing, CommitHead, Seqnums, Tallied, Buried, Recorded;
      // the source also tests that the entry is valid; a flushed entry always is
      InvalidEntryClean(sh, es, done, owed, log, base, i);
      var k := es[i].ring.value;
      CommitStep(sh, es, done, log, base, i, k);
      CommittingHead(sh, es, i, k);
      TalliedSame(recsOut, recsDropped, es, es[i := CommittedEntry(es[i])], log, retired, output);
      CommitRecorded(sh, es, done, owed, log, base, k, es[i].lastrec.value + 1);
      BuriedKept(sh, CommittedShared(sh, k, es[i].lastrec.value + 1), done, done, graves);
      sh := sh.(mem := sh.mem[k := CommitHead(sh.mem[k], es[i].lastrec.value + 1)]);
      es := es[i := es[i].(pos := es[i].lastrec.value + 1, lastrec := None)];
    }

    /** The commit loop: every ring gets back what has been flushed of it. */
    method CommitAll()
      requires Inv() && owed == None
      modifies this`sh, this`es
      ensures Mid(0, multiset{})
      ensures Committing(old(sh), old(es), sh, es)
    {
      hide Inv, EnvRely, Grows, Committing;
      CommittingStart(sh, es);
      var i := 0;
      while i < |es|
        invariant 0 <= i <= |es| && Inv() && Committing(old(sh), old(es), sh, es)
        invariant forall j :: 0 <= j < i ==> es[j].lastrec == None
      {
        if es[i].lastrec.Some? {
          ghost var sh1, es1 := sh, es;
          Interfere(0, multiset{});
          CommittingInterfered(sh1, sh, es);
          CommittingTransitive(old(sh), old(es), sh1, es, sh, es);
          ghost var sh2 := sh;
          CommitRing(i);
          CommittingTransitive(old(sh), old(es), sh2, es1, sh, es);
        }
        i := i + 1;
      }
      NothingInFlight(sh.mem, done, es);
    }

    /** The end of a poll: committing changes nothing that has been promised about it. */
    method CommitPoll(ghost sh0: Shared, ghost es0: seq<IndexEntry>, ghost snap: map<RingId, nat>)
      requires Inv() && owed == None && PollsOk(polls, log, sh.mem)
      requires Quietly(sh0, es0, sh, es) && Grows(sh0.mem, sh.mem) && Covers(sh0, snap, es, done, leftover)
      modifies this`sh, this`es
      ensures Mid(0, multiset{}) && PollsOk(polls, log, sh.mem)
      ensures Quietly(sh0, es0, sh, es) && PubsGrow(sh0.mem, sh.mem) && Covers(sh0, snap, es, done, leftover)
      ensures |es| == |old(es)| && forall j :: 0 <= j < |es| ==> es[j].ring == old(es)[j].ring
      ensures sh.quiet == old(sh).quiet && PubsGrow(old(sh.mem), sh.mem)
      ensures NoNews(old(sh.mem), sh.mem, old(es)) ==> Owing() == old(Owing())
    {
      hide Inv, PollOk, TsoInv, PollsOk, Quietly, Grows, PubsGrow, Covers, Committing, Sum, Backlog, NoNews;
      CommitAll();
      QuietlyCommitted(sh0, es0, old(sh), old(es), done, sh, es);
      PollsStable(polls, log, old(sh.mem), sh.mem);
      CoversStill(sh0, snap, old(es), es, done, leftover);
    }

    /** The first half of a poll: every ring's records go into the buffer. */
    method SweepRings(lockFree: nat -> bool)
      requires sh.quiet ==> forall i :: lockFree(i)
      requires tso.Capacity() >= 2 && Idle()
      modifies this`sh, this`es, this`output, this`recsOut, this`recsDropped, this`switches, this`log, this`done
      modifies this`leftover, this`tsoFull, this`owed, this`graves, tso, tso.entry
      ensures tso.Valid() && owed == None && StillBuried(old(graves), graves)
      ensures Mid(|es|, multiset(tso.Contents())) && |tso.Contents()| == Sum(Unflushed(es, done, |es|))
      ensures Sweep(old(Now()), Now(), |es|, tso.Capacity())
      ensures old(tsoFull) <= tsoFull && (tsoFull == old(tsoFull) ==> leftover == old(leftover))
    {
      hide Buried, Recorded, Killable, EnvRely, Core, PollOk, TsoInv, Sum, Backlog, StatsOk, Sweep, Iterated, PollsOk;
      var i := 0;
      ghost var len := |es|;
      SweepStart(Now(), tso.Capacity());
      assert Unflushed(es, done, 0) == [] && Sum([]) == 0 by { SumEmpty(); }
      while i < |es|
        invariant 0 <= i <= |es| == len
        invariant tso.Valid() && tso.head == 0 && !tso.Full() && owed == None
        invariant Mid(i, multiset(tso.Contents())) && |tso.Contents()| == Sum(Unflushed(es, done, i))
        invariant Sweep(old(Now()), Now(), i, tso.Capacity())
        invariant old(tsoFull) <= tsoFull && (tsoFull == old(tsoFull) ==> leftover == old(leftover))
        invariant StillBuried(old(graves), graves)
        decreases len - i
      {
        ghost var st1 := Now();
        SweepQuiet(old(Now()), st1, i, tso.Capacity());
        var _, _ := IterateRing(i, lockFree(i));
        SweepStep(old(Now()), st1, Now(), i, tso.Capacity(), None, base);
        IteratedBasics(st1, Now(), i, tso.Capacity());
        i := i + 1;
      }
    }

    /** A poll up to the commits: buffer what every ring holds and flush all but a small rest. */
    method SweepAndFlush(lockFree: nat -> bool)
      requires sh.quiet ==> forall i :: lockFree(i)
      requires tso.Capacity() >= 2 && Idle()
      modifies this`sh, this`es, this`output, this`recsOut, this`recsDropped, this`switches, this`log, this`done
      modifies this`leftover, this`tsoFull, this`owed, this`polls, this`graves, tso, tso.entry
      ensures tso.Valid() && tso.Contents() == [] && tso.head == tso.tail == 0 && leftover <= tso.Capacity() / 8
      ensures Inv() && owed == None && PollsOk(polls, log, sh.mem) && FullCounted(polls, tsoFull)
      ensures old(log) <= log && Grows(old(sh.mem), sh.mem) && StillBuried(old(graves), graves)
      ensures |polls| == |old(polls)| + 1 && polls[..|old(polls)|] == old(polls)
      ensures old(tsoFull) <= tsoFull && (polls[|old(polls)|].full <==> tsoFull != old(tsoFull))
      ensures Covers(old(sh), polls[|old(polls)|].snap, es, done, leftover)
      ensures ReachesAll(old(sh), old(es), polls[|old(polls)|].snap, done, leftover)
      ensures |es| == |old(es)| && Quietly(old(sh), old(es), sh, es) && RingsKept(old(es), es)
      ensures NoNews(old(sh.mem), sh.mem, old(es)) ==>
        Owing() == leftover && (old(Owing()) <= old(leftover) ==> Owing() == 0)
      ensures sh.quiet && old(Lonely(sh)) && old(Owing()) == 0 ==> forall j :: 0 <= j < |es| ==> es[j].ring == None
    {
      hide Inv, Core, PollOk, TsoInv, Sum, Backlog, Sweep, PollsOk, Flushed, SortedBy, Unflushed, Quietly, Lonely,
        Committing, Snapshot, PollSound, Grows, PubsGrow, Covers, SeenAll, NoNews, RingsKept, StillBuried,
        FullCounted, Gone, ReachesAll;
      SweepRings(lockFree);
      ghost var st1 := Now();
      ghost var s, c := FlushTso();
      InvCore();
      SweptAndFlushed(old(Now()), st1, Now(), s, c, tso.Capacity(), owed, base);
      CoversAll(old(sh), sh, es, done, owed, log, base, leftover);
      GrowsPubs(old(sh.mem), sh.mem);
      ReachedAll(old(sh), old(es), sh, es, done, owed, log, base, leftover);
      ghost var p := Poll(|old(log)|, |log|, Snapshot(sh.mem, es, done), st1.full != old(tsoFull));
      PollsExtendGrows(polls, old(log), log, old(sh.mem), sh.mem, p);
      FullCountedMore(polls, old(tsoFull), p, tsoFull);
      polls := polls + [p];
    }

    /**
      * One poll in timestamp order: buffer what every ring holds, flush all but a small rest, and
      * commit what was flushed.  What was kept is read again by the next poll.  `lockFree` says for each
      * entry whether the lock on the ring map is free when its ring is to be killed.
      */
    method ProcessRingsTso(lockFree: nat -> bool)
      requires sh.quiet ==> forall i :: lockFree(i)
      requires tso.Capacity() >= 2 && Idle()
      modifies this`sh, this`es, this`output, this`recsOut, this`recsDropped, this`switches, this`log, this`done
      modifies this`leftover, this`tsoFull, this`owed, this`polls, this`graves, tso, tso.entry
      ensures Idle() && old(log) <= log && PubsGrow(old(sh.mem), sh.mem) && StillBuried(old(graves), graves)
      ensures |polls| == |old(polls)| + 1 && polls[..|old(polls)|] == old(polls)
      ensures old(tsoFull) <= tsoFull && (polls[|old(polls)|].full <==> tsoFull != old(tsoFull))
      ensures Covers(old(sh), polls[|old(polls)|].snap, es, done, leftover)
      ensures ReachesAll(old(sh), old(es), polls[|old(polls)|].snap, done, leftover)
      ensures |es| == |old(es)| && Quietly(old(sh), old(es), sh, es)
      ensures NoNews(old(sh.mem), sh.mem, old(es)) ==>
        Owing() == leftover && (old(Owing()) <= old(leftover) ==> Owing() == 0)
      ensures sh.quiet && old(Lonely(sh)) && old(Owing()) == 0 ==> forall j :: 0 <= j < |es| ==> es[j].ring == None
    {
      hide Inv, Core, PollOk, TsoInv, Sum, Backlog, PollsOk, Quietly, Lonely, Committing, Grows, PubsGrow, Covers,
        NoNews, RingsKept, StillBuried, FullCounted, ReachesAll;
      SweepAndFlush(lockFree);
      ghost var st2 := Now();
      CommitPoll(old(sh), old(es), polls[|old(polls)|].snap);
      GrowsPubs(old(sh.mem), st2.sh.mem);
      if NoNews(old(sh.mem), sh.mem, old(es)) { NoNewsSplit(old(sh.mem), st2.sh.mem, sh.mem, old(es), st2.es); }
    }

    lemma InvCore()
      requires Inv()
      ensures Core(sh, es, done, owed, log, base)
    {
    }

    /** Look up the ring in the index: the seqnum expected from it, 0 if it is not there. */
    method LookupSeqnum(k: RingId) returns (seqnum: nat)
      requires Distinct(es)
      ensures seqnum == OldSeqnum(es, k)
    {
      for i := 0 to |es|
        invariant forall j :: 0 <= j < i ==> es[j].ring != Some(k)
      {
        if es[i].ring == Some(k) {
          OldSeqnumAt(es, i);
          return es[i].seqnum;
        }
      }
      seqnum := 0;
    }

    /** One fresh entry for every registered ring, in the map's order. */
    method FreshEntries() returns (ni: seq<IndexEntry>)
      requires Core(sh, es, done, owed, log, base)
      ensures forall i :: 0 <= i < |ni| ==> FreshEntry(sh, es, ni[i])
      ensures Distinct(ni) && forall n :: n in sh.regs ==> Indexed(ni, sh.regs[n])
    {
      hide SharedInv, LogInv, DropInv, EntriesOk, OldSeqnum;
      CoreIndex(sh, es, done, owed, log, base);
      RegsOf(sh, es, done, owed, log, base);
      RegsInMem(sh, es, done, owed, log, base);
      ni := [];
      var todo := sh.regs.Keys;
      while todo != {}
        invariant todo <= sh.regs.Keys
        invariant forall i :: 0 <= i < |ni| ==> FreshEntry(sh, es, ni[i]) && sh.life[ni[i].ring.value].name !in todo
        invariant Distinct(ni)
        invariant forall n :: n in sh.regs && n !in todo ==> Indexed(ni, sh.regs[n])
        decreases todo
      {
        var n :| n in todo;
        var k := sh.regs[n];
        var seqnum := LookupSeqnum(k);
        var r := sh.mem[k];
        ghost var ni1 := ni;
        ni := ni + [IndexEntry(Some(k), r.h, |r.pub|, None, seqnum)];
        todo := todo - {n};
        assert ni[|ni1|].ring == Some(k);
        forall x | x in sh.regs && x !in todo ensures Indexed(ni, sh.regs[x]) {
          if x != n { IndexedAppend(ni1, ni[|ni1|], sh.regs[x]); }
        }
      }
    }

    /** Called under the ring lock: replace the index by one made from the ring map. */
    method RebuildRingIndex()
      requires Idle()
      modifies this`sh, this`es, this`retired, this`base
      ensures Mirrors(sh, es) && ByPriority(sh.life, es)
      ensures Idle() && Rebuilt(sh, old(es), es) && base == Rebased(sh.mem, old(es), es, done, log, old(base))
      ensures sh == old(sh).(dirty := false)
      ensures old(AllIndexed(sh, es)) ==> Owing() == old(Owing())
    {
      hide Core, PollOk, TsoInv, PollsOk, Sum, Backlog, Seqnums, Rebuilt, IsSorting, Tallied, AllIndexed,
        Distinct, FreshEntry, Rebased, Buried, FullCounted, Recorded,
        Mirrors, ByPriority;
      var ni := FreshEntries();
      var sorted := StdSort(PrioKey(sh.life), ni);
      RebuildAll(sh, es, ni, sorted, done, log, base);
      RebuiltMirrors(sh.(dirty := false), es, sorted);
      BuriedKept(sh, sh.(dirty := false), done, done, graves);
      FlagsRecorded(sh, false, sh.unset, sh.quiet);
      TalliedRebuilt(recsOut, recsDropped, es, sorted, log, retired, Sum(Dead(es)), output);
      retired := retired + Sum(Dead(es));
      base := Rebased(sh.mem, es, sorted, done, log, base);
      es := sorted;
      sh := sh.(dirty := false);
    }

    /** Other threads between polls. */
    method Idling()
      requires Idle()
      modifies this`sh
      ensures Idle() && EnvRely(old(sh), sh) && Grows(old(sh.mem), sh.mem)
    {
      hide Inv, PollOk, TsoInv, PollsOk, EnvRely, Grows;
      Interfere(0, multiset{});
      GrowsPubs(old(sh.mem), sh.mem);
      PollsStable(polls, log, old(sh.mem), sh.mem);
    }

    /**
      * If the index is dirty, rebuild it, provided that the ring lock is free; it is not waited for.  `test` is
      * the state in which the flag is tested, `lock` the one in which the lock is tried.
      */
    method RefreshIndex(lockFree: bool) returns (ghost test: Shared, ghost lock: Shared)
      requires Idle() && (sh.quiet ==> lockFree)
      modifies this`sh, this`es, this`retired, this`base
      ensures EnvRely(old(sh), test) && (if test.dirty then EnvRely(test, lock) else lock == test)
      ensures if test.dirty && lockFree then
                sh == lock.(dirty := false) && Mirrors(sh, es) && ByPriority(sh.life, es)
              else
                sh == lock && es == old(es)
      ensures (if test.dirty then lockFree else test.unset == 0) ==> AllIndexed(sh, es)
      ensures Idle() && Grows(old(sh.mem), sh.mem) && sh.quiet == old(sh.quiet)
      ensures sh.quiet ==> sh == old(sh).(dirty := false)
      ensures sh.quiet && sh.unset == 0 ==>
        && AllIndexed(sh, es) && (sh.regs == map[] ==> es == [])
        && (old(AllIndexed(sh, es)) ==> Owing() == old(Owing()))
        && (forall k :: k in sh.life && Registered(sh.life, sh.regs, k) ==> Indexed(es, k))
    {
      hide Inv, Core, PollOk, TsoInv, PollsOk, EnvRely, Grows, AllIndexed, Rebuilt, Mirrors, ByPriority;
      Idling();
      test, lock := sh, sh;
      QuietInterference(old(sh), sh);
      InvCore();
      if sh.dirty {
        Idling();
        lock := sh;
        QuietInterference(test, sh);
        GrowsTransitive(old(sh.mem), test.mem, sh.mem);
        if lockFree {
          ghost var es1 := es;
          RebuildRingIndex();
          RebuiltFacts(sh, es1, es);
        }
      } else if sh.unset == 0 {
        SettledIndex(sh, es, done, owed, log, base);
        CleanIndex(sh, es, done, owed, log, base);
      }
    }

    /**
      * One turn of the engine loop.  If it finds the index dirty and the lock free, or the index not dirty and no
      * add_ring call half done, then what every ring held that is registered in state `lock` is seen by this
      * poll, and delivered but for the few records the buffer keeps.  `killFree` says for each entry whether
      * the lock is free when its ring is to be killed.
      */
    method ProcessRings(lockFree: bool, killFree: nat -> bool) returns (ghost test: Shared, ghost lock: Shared)
      requires tso.Capacity() >= 2 && Idle() && (sh.quiet ==> lockFree && forall i :: killFree(i))
      modifies this`sh, this`es, this`output, this`recsOut, this`recsDropped, this`switches, this`log, this`done
      modifies this`leftover, this`tsoFull, this`owed, this`polls, this`retired, this`base, this`graves,
        tso, tso.entry
      ensures Idle() && old(log) <= log && PubsGrow(old(sh.mem), sh.mem) && StillBuried(old(graves), graves)
      ensures |polls| == |old(polls)| + 1 && polls[..|old(polls)|] == old(polls)
      ensures old(tsoFull) <= tsoFull && (polls[|old(polls)|].full <==> tsoFull != old(tsoFull))
      ensures Covers(old(sh), polls[|old(polls)|].snap, es, done, leftover)
      ensures EnvRely(old(sh), test) && (if test.dirty then EnvRely(test, lock) else lock == test)
      ensures (if test.dirty then lockFree else test.unset == 0) ==>
        forall n :: n in lock.regs ==> Reached(lock, polls[|old(polls)|].snap, done, leftover, lock.regs[n])
      ensures QuietPoll(old(sh), old(es), sh, es)
      ensures sh.quiet ==> Owing() == leftover
      ensures sh.quiet && sh.unset == 0 && old(AllIndexed(sh, es)) && old(Owing()) <= old(leftover) ==> Owing() == 0
      ensures sh.quiet && sh.unset == 0 && old(AllIndexed(sh, es) && Lonely(sh) && Owing() == 0) ==> sh.regs == map[]
      ensures sh.quiet && sh.unset == 0 ==> StillHeld(old(sh), sh, es)
    {
      hide Inv, PollOk, TsoInv, PollsOk, Grows, PubsGrow, AllIndexed, Lonely, Sum, Backlog, SamePubs, EmptyStays,
        Covers, NoNews, HeldKept, StillBuried, EnvRely, Reached, Mirrors, ByPriority, ReachesAll;
      test, lock := RefreshIndex(lockFree);
      GrowsPubs(old(sh.mem), sh.mem);
      ghost var sh1, es1 := sh, es;
      ProcessRingsTso(killFree);
      PubsGrowTransitive(old(sh.mem), sh1.mem, sh.mem);
      CoversEarlier(old(sh), sh1, polls[|old(polls)|].snap, es, done, leftover);
      ReachedRegistered(lock, sh1, es1, polls[|old(polls)|].snap, done, leftover);
      if sh.quiet {
        SamePubsNoNews(sh1.mem, sh.mem, es1);
      }
      if sh.quiet && sh.unset == 0 {
        LonelySame(old(sh), sh1);
        HeldSame(old(sh), sh1, sh);
        if forall j :: 0 <= j < |es| ==> es[j].ring == None { NoRings(sh, es); }
      }
    }

    /**
      * Every other thread has ended, and add_ring calls have been finished first.  References that are
      * still held and records that are begun but not committed stay as they are.
      */
    method EndOthers()
      requires Idle()
      modifies this`sh
      ensures Idle() && sh == old(sh).(dirty := old(sh).dirty || old(sh).unset > 0, unset := 0, quiet := true)
    {
      hide LifeInv, MemInv, LogInv, DropInv, EntriesOk, PollOk, TsoInv, PollsOk, StatsOk, Indexed;
      ghost var sh' := sh.(dirty := sh.dirty || sh.unset > 0, unset := 0, quiet := true);
      BuriedKept(sh, sh', done, done, graves);
      FlagsRecorded(sh, sh.dirty || sh.unset > 0, 0, true);
      sh := sh.(dirty := sh.dirty || sh.unset > 0, unset := 0, quiet := true);
    }

    /**
      * The drain loop up to `turns` turns, when somebody who has ended still holds the ring registered
      * as `name`: the ring stays registered and indexed, so that the loop's exit test never succeeds.
      */
    method DrainInVain(name: string, turns: nat)
      requires tso.Capacity() >= 2 && Idle() && sh.quiet && sh.unset == 0
      requires name in sh.regs && sh.regs[name] in sh.life && !sh.Orphan(sh.regs[name])
      modifies this`sh, this`es, this`output, this`recsOut, this`recsDropped, this`switches, this`log, this`done
      modifies this`leftover, this`tsoFull, this`owed, this`polls, this`retired, this`base, this`graves,
        tso, tso.entry
      ensures Idle() && name in sh.regs && sh.regs[name] == old(sh).regs[name]
      ensures turns > 0 ==> Indexed(es, sh.regs[name]) && es != []
    {
      hide Mid, PollsOk, AllIndexed, Lonely, SamePubs, EmptyStays, StillHeld, StillBuried, Covers, PubsGrow, Sum,
        Indexed;
      var turn := 0;
      while turn < turns
        invariant turn <= turns && Idle() && sh.quiet && sh.unset == 0
        invariant name in sh.regs && sh.regs[name] == old(sh).regs[name]
        invariant sh.regs[name] in sh.life && !sh.Orphan(sh.regs[name])
        invariant turn > 0 ==> Indexed(es, sh.regs[name]) && es != []
      {
        var _, _ := ProcessRings(true, _ => true);
        StillIndexed(sh, es, name);
        turn := turn + 1;
      }
    }

    /** The drain after `turn` polls: four are enough to get rid of every ring. */
    ghost predicate Draining(sh0: Shared, turn: nat)
      reads this`sh, this`es, this`done, this`leftover
    {
      && sh.quiet && sh.unset == 0 && Lonely(sh)
      && (turn >= 1 ==> AllIndexed(sh, es) && Owing() == leftover)
      && (turn >= 2 ==> Owing() == 0)
      && (turn >= 3 ==> sh.regs == map[])
      && (turn >= 4 ==> es == [] && !sh.dirty)
      && SamePubs(sh0.mem, sh.mem) && InHand(sh0, sh, es)
    }

    /** One turn of the drain loop. */
    method DrainTurn(ghost sh0: Shared, ghost turn: nat)
      requires tso.Capacity() >= 2 && Idle() && Draining(sh0, turn)
      modifies this`sh, this`es, this`output, this`recsOut, this`recsDropped, this`switches, this`log, this`done
      modifies this`leftover, this`tsoFull, this`owed, this`polls, this`retired, this`base, this`graves,
        tso, tso.entry
      ensures Idle() && Draining(sh0, turn + 1) && old(log) <= log && |polls| == |old(polls)| + 1
      ensures StillBuried(old(graves), graves)
    {
      hide Core, StatsOk, PollOk, TsoInv, PollsOk, PubsGrow, AllIndexed, Lonely, Sum, Backlog, SamePubs, EmptyStays,
        InHand, StillHeld, Indexed, HeldKept, StillBuried, Buried;
      var _, _ := ProcessRings(true, _ => true);
      InHandStep(sh0, old(sh), old(es), old(done), old(log), old(base), sh, es, done, log, base);
    }

    /**
      * Shutdown.  With no other thread left and no ring held outside the engine, draining ends after
      * at most four polls, with every record of every registered ring delivered and no ring left.
      */
    method DrainRings()
      requires tso.Capacity() >= 2 && Idle()
      requires sh.quiet && sh.unset == 0 && Lonely(sh)
      modifies this`sh, this`es, this`output, this`recsOut, this`recsDropped, this`switches, this`log, this`done
      modifies this`leftover, this`tsoFull, this`owed, this`polls, this`retired, this`base, this`graves,
        tso, tso.entry
      ensures Idle() && es == [] && !sh.dirty && sh.regs == map[]
      ensures |polls| <= |old(polls)| + 4 && StillBuried(old(graves), graves)
      ensures old(log) <= log && SamePubs(old(sh.mem), sh.mem)
      ensures forall n :: n in old(sh.regs) ==>
        old(sh).regs[n] in sh.mem && Proj(log, old(sh).regs[n]) == sh.mem[old(sh).regs[n]].pub
    {
      hide Core, StatsOk, PollOk, TsoInv, PollsOk, AllIndexed, Lonely, Sum, Backlog, SamePubs, InHand, Indexed, Proj,
        Buried;
      ghost var turn: nat := 0;
      DrainStart(sh, es, done, owed, log, base);
      while true
        invariant Idle() && old(log) <= log && Draining(old(sh), turn)
        invariant |polls| == |old(polls)| + turn && turn <= 3 && StillBuried(old(graves), graves)
        decreases 4 - turn
      {
        DrainTurn(old(sh), turn);
        turn := turn + 1;
        if !sh.dirty && |es| == 0 {
          NoRings(sh, es);
          break;
        }
      }
      DrainEnd(old(sh), sh, es, done, owed, log, base);
    }
  }
}
