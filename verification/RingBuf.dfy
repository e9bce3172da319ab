/**
  * The ring buffer as it is laid out in memory: an array of slots, masked 32-bit head and tail
  * indices, and the iterator the engine reads with.  Every operation is tied to the unbounded
  * positions of module Rings: Model() is the ring the engine's proofs talk about.
  */
module RingBuffers {
  import opened Rings
  import opened Sharing
  import opened Bits

  const RECORD_HEADER: nat := 32    // header_size()
  const ARGVAL_SIZE: nat := 128     // argval_size()
  const SIZEOF_RECORD: nat := 160   // sizeof(record)

  /** The smallest exponent whose power of two is at least v. */
  method RoundupLog2(v: nat) returns (i: nat)
    requires v <= 0x8000_0000
    ensures i <= 31 && Pow2(i) >= v && (i > 0 ==> Pow2(i - 1) < v)
  {
    i := 0;
    ShlOne(0);
    Pow2Word();
    while Shl(1, i) < v
      invariant i <= 31 && Shl(1, i) == Pow2(i)
      invariant i > 0 ==> Pow2(i - 1) < v
      decreases v - Pow2(i)
    {
      i := i + 1;
      ShlOne(i);
      if i > 31 { Pow2Monotone(32, i); }
    }
  }

  /** The records of positions h up to n. */
  ghost function Queued(slots: seq<Record>, h: nat, n: nat): (q: seq<Record>)
    requires |slots| >= 1 && h <= n
    ensures |q| == n - h
  {
    seq(n - h, i requires 0 <= i < n - h => slots[Addr(h + i, |slots|)])
  }

  lemma QueuedPush(slots: seq<Record>, h: nat, n: nat)
    requires |slots| >= 1 && h <= n
    ensures Queued(slots, h, n + 1) == Queued(slots, h, n) + [slots[Addr(n, |slots|)]]
  {
    hide Addr;
  }

  lemma QueuedPop(slots: seq<Record>, h: nat, h': nat, n: nat)
    requires |slots| >= 1 && h <= h' <= n
    ensures Queued(slots, h', n) == Queued(slots, h, n)[h' - h..]
  {
    hide Addr;
    forall i | 0 <= i < n - h' ensures Queued(slots, h', n)[i] == Queued(slots, h, n)[h' - h..][i] {
      assert h' + i == h + (h' - h + i);
    }
  }

  /** Writing the tail slot changes no queued record. */
  lemma QueuedWrite(slots: seq<Record>, h: nat, n: nat, r: Record)
    requires |slots| >= 1 && h <= n <= h + |slots| - 1
    ensures Queued(slots[Addr(n, |slots|) := r], h, n) == Queued(slots, h, n)
  {
    hide Addr;
    var slots' := slots[Addr(n, |slots|) := r];
    forall i | 0 <= i < n - h ensures Queued(slots', h, n)[i] == Queued(slots, h, n)[i] {
      AddrDistinct(h + i, n, |slots|);
    }
  }

  /** Position p lives in slot i. */
  predicate LivesIn(p: nat, i: nat, cap: nat)
    requires cap >= 1
  {
    Addr(p, cap) == i
  }

  /** Index x is the slot of the position before p. */
  predicate Precedes(x: nat, p: nat, cap: nat)
    requires cap >= 1
  {
    x == Addr(p + (cap - 1), cap)
  }

  /** Masking the next index gives the slot of the next position. */
  lemma NextIndex(x: nat, p: nat, k: nat)
    requires Precedes(x, p, Pow2(k))
    ensures And(x + 1, Pow2(k) - 1) == Addr(p, Pow2(k)) && Precedes(Addr(p, Pow2(k)), p + 1, Pow2(k))
  {
    AndMask(x + 1, k);
    AddrShift(p + (Pow2(k) - 1), 1, Pow2(k));
  }

  lemma SameSlot(p: nat, q: nat, cap: nat)
    requires cap >= 1 && p <= q < p + cap
    ensures Addr(p, cap) == Addr(q, cap) <==> p == q
  {
    hide Addr;
    if p < q { AddrDistinct(p, q, cap); }
  }

  class RingBuf {
    const mask: nat          // the source's _capacity, number of slots - 1
    const shift: nat         // the source's _rec_shift
    const tailroom: nat      // the source's _rec_tailroom
    const blocking: bool
    const slots: array<Record>
    var head: nat
    var tail: nat
    var seqnum: nat
    var dropcnt: nat

    // what has been published so far, how many of those the reader has committed, log2 of the slots
    ghost var pub: seq<Record>
    ghost var h: nat
    ghost const k: nat

    ghost predicate Valid()
      reads this
    {
      && k <= 31 && mask == Pow2(k) - 1 && slots.Length == Pow2(k)
      && h <= |pub| <= h + mask
      && tail == Addr(|pub|, Capacity()) && Precedes(head, h, Capacity())
    }

    /** The ring as the engine's proofs see it; the writer's progress is not stored in the ring. */
    ghost function Model(pc: Writer, timeouts: nat): (r: Ring)
      reads this, slots
      requires Valid()
      ensures r.Shaped()
    {
      Ring(mask + 1, blocking, slots[..], h, pub, seqnum, dropcnt, timeouts, pc)
    }

    /** The records between head and tail, oldest first. */
    ghost function Queue(): (q: seq<Record>)
      reads this, slots
      requires Valid()
      ensures |q| == |pub| - h
    {
      Queued(slots[..], h, |pub|)
    }

    /**
      * Capacity is rounded up to a power of two, and so is the size of a record slot; whatever was
      * asked for, a record offers at least its 16 argument words and the requested tailroom.
      */
    constructor (capacity: nat, recordTailroom: nat, blocking: bool)
      requires capacity <= 0x8000_0000 && recordTailroom <= 0x8000_0000 - RECORD_HEADER
      ensures Valid() && fresh(slots) && this.blocking == blocking
      ensures capacity <= mask + 1 && (capacity >= 1 ==> mask + 1 < 2 * capacity) && (capacity == 0 ==> mask == 0)
      ensures tailroom >= ARGVAL_SIZE && tailroom >= recordTailroom && Pow2(shift) == RECORD_HEADER + tailroom
      ensures Queue() == [] && Model(Idle, 0) == FreshRing(mask + 1, blocking)
    {
      var c := RoundupLog2(capacity);
      var room := if recordTailroom > ARGVAL_SIZE then recordTailroom - ARGVAL_SIZE else 0;
      var s := RoundupLog2(SIZEOF_RECORD + room);
      this.blocking := blocking;
      mask := Pow2(c) - 1;
      shift := s;
      tailroom := Pow2(s) - RECORD_HEADER;
      slots := new Record[Pow2(c)](_ => ZERO_RECORD);
      head, tail, seqnum, dropcnt := Pow2(c) - 1, 0, 0, 0;
      pub, h, k := [], 0, c;
      new;
      assert slots[..] == seq(mask + 1, _ => ZERO_RECORD);
    }

    function Capacity(): nat { mask + 1 }

    lemma EmptyOk()
      requires Valid()
      ensures And(head + 1, mask) == tail <==> |pub| == h
    {
      hide Addr, And;
      NextIndex(head, h, k);
      SameSlot(h, |pub|, Capacity());
    }

    lemma Bounded()
      requires Valid()
      ensures head + 1 < WORD && tail < WORD && mask + 1 <= 0x8000_0000
    {
      Pow2Word();
      Pow2Monotone(k, 31);
    }

    lemma SizeOk()
      requires Valid() && head + 1 < WORD && tail < WORD
      ensures And(Sub32(tail, head + 1), mask) == |pub| - h
    {
      hide And, Pow2;
      Bounded();
      AddrShift(h + mask, 1 + (|pub| - h), Capacity());
      assert Addr(|pub| + Capacity(), Capacity()) == Addr(|pub|, Capacity());
      Distance(head + 1, |pub| - h, tail, k);
    }

    lemma RoomOk()
      requires Valid() && head < WORD && tail < WORD
      ensures And(Sub32(head, tail), mask) == mask - (|pub| - h)
    {
      hide And, Addr, Pow2;
      Bounded();
      AddrShift(|pub|, mask - (|pub| - h), Capacity());
      Distance(tail, mask - (|pub| - h), head, k);
    }

    /** The masked difference counts the queued records, wherever the indices stand. */
    function Size(): (n: nat)
      reads this, slots
      requires Valid()
      ensures n == |Queue()|
    {
      Bounded();
      SizeOk();
      And(Sub32(tail, head + 1), mask)
    }

    /** One slot is never used. */
    function Room(): (n: nat)
      reads this, slots
      requires Valid()
      ensures n + |Queue()| == Capacity() - 1
    {
      Bounded();
      RoomOk();
      And(Sub32(head, tail), mask)
    }

    lemma RoomIs()
      requires Valid()
      ensures Room() == mask - (|pub| - h)
    {
    }

    predicate Empty()
      reads this, slots
      requires Valid()
      ensures Empty() <==> Queue() == []
    {
      EmptyOk();
      And(head + 1, mask) == tail
    }

    lemma FullOk()
      requires Valid()
      ensures head == tail <==> |pub| == h + mask
    {
      hide Addr;
      SameSlot(|pub|, h + mask, Capacity());
    }

    /** push_begin: the tail slot, which is never one the reader may still read. */
    method PushBegin() returns (i: nat)
      requires Valid()
      ensures i < slots.Length && i == Addr(|pub|, Capacity())
      ensures forall p :: h <= p < |pub| ==> !LivesIn(p, i, Capacity())
    {
      hide Addr;
      i := tail;
      forall p | h <= p < |pub| ensures !LivesIn(p, i, Capacity()) {
        AddrDistinct(p, |pub|, Capacity());
      }
    }

    method IncSeqnum() returns (s: nat)
      requires Valid()
      modifies this`seqnum
      ensures Valid() && s == old(seqnum) && seqnum == s + 1
    {
      s := seqnum;
      seqnum := seqnum + 1;
    }

    /** begin_unlocked: take the tail slot and a sequence number, even if the push will be refused. */
    method Begin(ts: nat, area: nat, section: nat) returns (i: nat)
      requires Valid() && !(area == 0 && section == SPECIAL_SECTION)
      modifies this`seqnum, slots
      ensures Valid() && i == Addr(|pub|, Capacity())
      ensures Queue() == old(Queue())
      ensures slots[i].timestamp == ts && slots[i].area == area && slots[i].section == section
      ensures slots[i].seqnum == old(seqnum) && seqnum == old(seqnum) + 1
      ensures forall t :: Model(Filling, t) == Do(old(Model(Idle, t)), Act.Begin(ts, area, section))
    {
      hide Addr;
      i := PushBegin();
      var s := IncSeqnum();
      QueuedWrite(slots[..], h, |pub|, slots[i].(seqnum := s, timestamp := ts, area := area, section := section));
      slots[i] := slots[i].(seqnum := s, timestamp := ts, area := area, section := section);
    }

    /** set_args: the rest of the record goes into the tail slot. */
    method Fill(argtype: nat, arg0: nat, rest: seq<nat>)
      requires Valid()
      modifies slots
      ensures Valid() && Queue() == old(Queue())
      ensures var i := Addr(|pub|, Capacity());
              slots[i] == old(slots[i]).(argtype := argtype, arg0 := arg0, rest := rest)
      ensures forall t :: Model(Filled, t) == Do(old(Model(Filling, t)), Act.Fill(argtype, arg0, rest))
    {
      hide Addr;
      var i := PushBegin();
      QueuedWrite(slots[..], h, |pub|, slots[i].(argtype := argtype, arg0 := arg0, rest := rest));
      slots[i] := slots[i].(argtype := argtype, arg0 := arg0, rest := rest);
    }

    /**
      * push_commit: one test of its loop.  The tail slot joins the queue if there is room; a ring that
      * does not block refuses it otherwise and counts the drop; a ring that blocks has to try again.
      */
    method PushCommit() returns (again: bool)
      requires Valid()
      modifies this`tail, this`dropcnt, this`pub
      ensures Valid()
      ensures again <==> old(Room()) == 0 && blocking
      ensures old(Room()) > 0 ==> Queue() == old(Queue()) + [slots[old(tail)]] && dropcnt == old(dropcnt)
      ensures old(Room()) == 0 ==> Queue() == old(Queue()) && dropcnt == old(dropcnt) + (if blocking then 0 else 1)
      ensures forall pc, next, t :: Model(if again then pc else next, t) == Rings.PushCommit(old(Model(pc, t)), next)
    {
      hide Addr, And;
      FullOk();
      RoomIs();
      var t := tail;
      if head == t {
        if !blocking {
          dropcnt := dropcnt + 1;
        }
        return blocking;
      }
      AndMask(t + 1, k);
      AddrShift(|pub|, 1, Capacity());
      QueuedPush(slots[..], h, |pub|);
      tail := And(t + 1, mask);
      pub := pub + [slots[t]];
      again := false;
    }

    /**
      * A whole post: if there is room, exactly the record with what the caller passed and the next sequence
      * number joins the queue.  Otherwise the queue stays, and the drop is counted or the caller waits.
      */
    method Post(ts: nat, area: nat, section: nat, argtype: nat, arg0: nat, rest: seq<nat>) returns (again: bool)
      requires Valid() && !(area == 0 && section == SPECIAL_SECTION)
      modifies this`seqnum, this`tail, this`dropcnt, this`pub, slots
      ensures Valid() && seqnum == old(seqnum) + 1 && (again <==> old(Room()) == 0 && blocking)
      ensures Queue() == old(Queue()) +
        if old(Room()) > 0 then [Record(area, section, ts, old(seqnum), argtype, arg0, rest)] else []
      ensures dropcnt == old(dropcnt) + if old(Room()) == 0 && !blocking then 1 else 0
    {
      hide Do, Model, Addr;
      RoomIs();
      var _ := Begin(ts, area, section);
      Fill(argtype, arg0, rest);
      RoomIs();
      again := PushCommit();
    }

    /**
      * The push of do_flush, once its loop has found room: a special record of the given kind, with the sequence
      * number taken before, joins the queue.
      */
    method PushSpecial(taken: nat, ts: nat, kind: nat, arg1: nat)
      requires Valid() && Room() > 0
      modifies this`tail, this`dropcnt, this`pub, slots
      ensures Valid() && Queue() == old(Queue()) + [Record(0, SPECIAL_SECTION, ts, taken, kind, 0, [arg1, 0])]
      ensures dropcnt == old(dropcnt)
      ensures forall t ::
        var r := Do(old(Model(RoomWait(taken), t)), SpecialFill(ts, kind, arg1));
        r.Shaped() && r.pc == SpecialFilled && Model(AckWait(|old(pub)|), t) == Do(r, SpecialCommit)
    {
      hide Addr;
      RoomIs();
      var i := PushBegin();
      var r := Record(0, SPECIAL_SECTION, ts, taken, kind, 0, [arg1, 0]);
      QueuedWrite(slots[..], h, |pub|, r);
      slots[i] := r;
      RoomIs();
      label Filled:
      var again := PushCommit();
      forall t
        ensures var q := Do(old(Model(RoomWait(taken), t)), SpecialFill(ts, kind, arg1));
                q.Shaped() && q.pc == SpecialFilled && Model(AckWait(|old(pub)|), t) == Do(q, SpecialCommit)
      {
        assert old@Filled(Model(SpecialFilled, t)) == Do(old(Model(RoomWait(taken), t)), SpecialFill(ts, kind, arg1));
      }
    }
  }

  // ---------------------------------------------------------------- record addresses

  /** get_record: the byte offset of slot i. */
  function RecordOffset(i: nat, shift: nat): nat { Shl(i, shift) }

  /** get_index */
  function RecordIndex(offset: nat, shift: nat): nat { Shr(offset, shift) }

  /** Pointers to slots and slot indices convert back and forth, and slots of 2^shift bytes do not overlap. */
  lemma RecordPointers(i: nat, j: nat, shift: nat, b: nat)
    requires b < Pow2(shift)
    ensures RecordIndex(RecordOffset(i, shift) + b, shift) == i
    ensures i < j ==> RecordOffset(i, shift) + b < RecordOffset(j, shift)
  {
    ShrShl(i, shift, b);
    if i < j { ShlMonotone(i, j, shift); }
  }

  // ---------------------------------------------------------------- the iterator

  class PopIterator {
    var ring: RingBuf?
    var head: nat
    var tail: nat

    // the positions the indices stand for
    ghost var pos: nat
    ghost var lim: nat

    ghost predicate Valid()
      reads this, ring
    {
      ring != null ==>
        && ring.Valid() && ring.h <= pos <= lim <= |ring.pub|
        && Precedes(head, pos, ring.Capacity()) && tail == Addr(lim, ring.Capacity())
    }

    constructor ()
      ensures Valid() && ring == null
    {
      ring, head, tail := null, 0, 0;
    }

    /** Take the ring's current indices. */
    method Reset()
      requires ring != null && ring.Valid()
      modifies this`head, this`tail, this`pos, this`lim
      ensures Valid() && pos == ring.h && lim == |ring.pub|
    {
      head, tail := ring.head, ring.tail;
      pos, lim := ring.h, |ring.pub|;
    }

    method SetRing(r: RingBuf?)
      requires r != null ==> r.Valid()
      modifies this
      ensures Valid() && ring == r && (r != null ==> pos == r.h && lim == |r.pub|)
    {
      ring := r;
      if r == null {
        head, tail := 0, 0;
      } else {
        Reset();
      }
    }

    method Invalidate()
      modifies this
      ensures Valid() && ring == null
    {
      SetRing(null);
    }

    /** The next slot of the snapshot; none when the snapshot is used up. */
    method Next() returns (ok: bool, i: nat)
      requires ring != null && Valid()
      modifies this`head, this`pos
      ensures Valid() && ok == (old(pos) < lim)
      ensures ok ==> pos == old(pos) + 1 && i < ring.slots.Length && i == Addr(old(pos), ring.Capacity())
      ensures ok ==> ring.slots[i] == ring.Queue()[old(pos) - ring.h]
      ensures !ok ==> pos == old(pos) && head == old(head)
    {
      hide Addr, And;
      NextIndex(head, pos, ring.k);
      SameSlot(pos, lim, ring.Capacity());
      var n := And(head + 1, ring.mask);
      if n == tail {
        return false, 0;
      }
      head := n;
      pos := pos + 1;
      ok, i := true, n;
    }

    /** Continue just after slot i, which holds position p. */
    method Rewind(i: nat, ghost p: nat)
      requires ring != null && Valid() && ring.h <= p < lim && i == Addr(p, ring.Capacity())
      modifies this`head, this`pos
      ensures Valid() && pos == p + 1
    {
      hide And;
      assert Addr(p + ring.Capacity(), ring.Capacity()) == Addr(p, ring.Capacity());
      head := i;
      pos := p + 1;
    }

    /** Give everything before the iterator back to the writer. */
    method Commit()
      requires ring != null && Valid()
      modifies ring`head, ring`h
      ensures Valid() && ring.h == pos
      ensures ring.Queue() == old(ring.Queue())[pos - old(ring.h)..]
      ensures forall pc, t :: ring.Model(pc, t) == CommitHead(old(ring.Model(pc, t)), pos)
    {
      hide Addr;
      QueuedPop(ring.slots[..], ring.h, pos, |ring.pub|);
      ring.head := head;
      ring.h := pos;
    }

    /**
      * What the engine does with one ring: read the whole snapshot, then rewind to the m-th record
      * and commit.  All records are seen in order, and exactly the first m leave the queue.
      */
    method ReadThenCommit(m: nat) returns (seen: seq<Record>)
      requires ring != null && ring.Valid() && 0 < m <= |ring.Queue()|
      modifies this, ring`head, ring`h
      ensures Valid() && ring == old(ring)
      ensures seen == old(ring.Queue()) && ring.Queue() == seen[m..]
    {
      hide Addr, Precedes, Queued;
      Reset();
      seen := [];
      var slots: seq<nat> := [];
      var more := true;
      while more
        invariant ring == old(ring) && Valid() && ring.h == old(ring.h) && ring.pub == old(ring.pub)
        invariant lim == |ring.pub|
        invariant ring.Queue() == old(ring.Queue())
        invariant |seen| == |slots| == pos - ring.h && seen == ring.Queue()[..|seen|]
        invariant forall j :: 0 <= j < |slots| ==> slots[j] == Addr(ring.h + j, ring.Capacity())
        invariant !more ==> pos == lim
        decreases lim - pos, more
      {
        var ok, i := Next();
        if ok {
          seen := seen + [ring.slots[i]];
          slots := slots + [i];
        }
        more := ok;
      }
      assert seen == ring.Queue();
      Rewind(slots[m - 1], ring.h + m - 1);
      Commit();
    }
  }
}
