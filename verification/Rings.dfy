/**
  * The single-writer, single-reader ring as the engine and the writers share it.
  *
  * Positions are unbounded: the p-th record ever published into a ring has position p and lives
  * in slot Addr(p, cap).  The source keeps only masked indices; RingBuf.dfy shows that the masked
  * arithmetic computes exactly this.  `h` counts the records the reader has committed, so the
  * source's _head is the slot of position h - 1 and its _tail the slot of position |pub|.
  *
  * `pub`, `dropcnt` and `timeouts` remember what happened; no step reads them except through |pub|.
  */
module Rings {
  const ACK: nat := 0x7e7f
  const SPECIAL_SECTION: nat := 0xfff
  const SPR_FLUSH: nat := 0
  const SPR_TIMESOURCE_CHANGE: nat := 1

  /** A log record; `area` is a pointer (0 is null) and `arg0` is argval[0], where acks are written. */
  datatype Record = Record(area: nat, section: nat, timestamp: nat, seqnum: nat,
                           argtype: nat, arg0: nat, rest: seq<nat>)
  {
    predicate Special() { area == 0 && section == SPECIAL_SECTION }
    predicate Acked() { arg0 == ACK }
    function Ack(): Record { this.(arg0 := ACK) }
  }

  /** Where the one writer transaction of a ring stands. */
  datatype Writer =
    | Idle
    | Filling                // a regular record begun, its arguments not written yet
    | Filled                 // its arguments written, not yet published
    | RoomWait(taken: nat)   // special record: sequence number taken, waiting for room
    | SpecialFilled          // special record written, not yet published
    | AckWait(pos: nat)      // special record published at pos, waiting for its ack

  datatype Ring = Ring(cap: nat, blocking: bool, slots: seq<Record>, h: nat, pub: seq<Record>,
                       seqnum: nat, dropcnt: nat, timeouts: nat, pc: Writer)
  {
    /** The slot address of a position. */
    predicate Shaped() { cap >= 1 && |slots| == cap }
    function Slot(p: nat): Record
      requires Shaped()
    {
      slots[Addr(p, cap)]
    }
    function Write(p: nat, r: Record): (w: Ring)
      requires Shaped()
    {
      this.(slots := slots[Addr(p, cap) := r])
    }
    /** Masked: _head == _tail. */
    predicate Full() { |pub| == h + cap - 1 }
    /** Masked: ((_head + 1) & _capacity) == _tail. */
    predicate Empty() { |pub| == h }
  }

  /** p modulo cap, by repeated subtraction so that every fact about it stays linear. */
  function Addr(p: nat, cap: nat): (a: nat)
    requires cap >= 1
    ensures a < cap
  {
    if p < cap then p else Addr(p - cap, cap)
  }

  /** Positions less than a capacity apart never share a slot. */
  lemma {:induction false} AddrDistinct(p: nat, q: nat, cap: nat)
    requires cap >= 1 && p < q < p + cap
    ensures Addr(p, cap) != Addr(q, cap)
  {
    if p >= cap {
      AddrDistinct(p - cap, q - cap, cap);
    } else if q >= cap {
      assert Addr(q, cap) == q - cap;
    }
  }

  // ---------------------------------------------------------------- writer steps

  /** What another thread can do to a ring it holds, one shared-memory step at a time. */
  datatype Act =
    | Begin(ts: nat, area: nat, section: nat)
    | Fill(argtype: nat, arg0: nat, rest: seq<nat>)
    | Commit
    | SpecialBegin
    | RoomTimeout
    | SpecialFill(ts: nat, kind: nat, arg1: nat)
    | SpecialCommit
    | AckSeen
    | AckGiveUp

  predicate Enabled(r: Ring, a: Act)
    requires r.Shaped()
  {
    match a
    case Begin(ts, area, section) => r.pc == Idle && !(area == 0 && section == SPECIAL_SECTION)
    case Fill(_, _, _) => r.pc == Filling
    case Commit => r.pc == Filled
    case SpecialBegin => r.pc == Idle
    case RoomTimeout => r.pc.RoomWait?
    case SpecialFill(_, _, _) => r.pc.RoomWait? && !r.Full()
    case SpecialCommit => r.pc == SpecialFilled
    case AckSeen => r.pc.AckWait? && r.Slot(r.pc.pos).Acked()
    case AckGiveUp => r.pc.AckWait?
  }

  /** push_commit: publish the tail slot, or count a drop, or keep waiting when the ring blocks. */
  function PushCommit(r: Ring, next: Writer): Ring
    requires r.Shaped()
  {
    if r.Full() then
      if r.blocking then r else r.(dropcnt := r.dropcnt + 1, pc := next)
    else
      r.(pub := r.pub + [r.Slot(|r.pub|)], pc := next)
  }

  function Do(r: Ring, a: Act): Ring
    requires r.Shaped() && Enabled(r, a)
  {
    match a
    case Begin(ts, area, section) =>
      // push_begin hands out the tail slot even when the ring is full
      var old_ := r.Slot(|r.pub|);
      r.Write(|r.pub|, old_.(seqnum := r.seqnum, timestamp := ts, area := area, section := section))
       .(seqnum := r.seqnum + 1, pc := Filling)
    case Fill(argtype, arg0, rest) =>
      var old_ := r.Slot(|r.pub|);
      r.Write(|r.pub|, old_.(argtype := argtype, arg0 := arg0, rest := rest)).(pc := Filled)
    case Commit => PushCommit(r, Idle)
    case SpecialBegin => r.(seqnum := r.seqnum + 1, pc := RoomWait(r.seqnum))
    case RoomTimeout => r.(timeouts := r.timeouts + 1, pc := Idle)
    case SpecialFill(ts, kind, arg1) =>
      r.Write(|r.pub|, Record(0, SPECIAL_SECTION, ts, r.pc.taken, kind, 0, [arg1, 0]))
       .(pc := SpecialFilled)
    case SpecialCommit => PushCommit(r, AckWait(|r.pub|))
    case AckSeen => r.(pc := Idle)
    case AckGiveUp => r.(pc := Idle)
  }

  // ---------------------------------------------------------------- invariant

  /** The slot of a published record may still be read: it is uncommitted, or its poster waits for the ack. */
  predicate Live(r: Ring, p: nat) { p < |r.pub| && (r.h <= p || r.pc == AckWait(p)) }

  /** A sequence number has been taken for a record that is not published yet. */
  predicate Pending(pc: Writer) { pc == Filling || pc == Filled || pc.RoomWait? || pc == SpecialFilled }

  ghost predicate SeqnumsOk(r: Ring)
  {
    && (forall i, j :: 0 <= i < j < |r.pub| ==> r.pub[i].seqnum < r.pub[j].seqnum)
    && (forall i :: 0 <= i < |r.pub| ==> r.pub[i].seqnum + (if Pending(r.pc) then 1 else 0) < r.seqnum)
    && r.seqnum == |r.pub| + r.dropcnt + r.timeouts + (if Pending(r.pc) then 1 else 0)
  }

  /** The record a writer is preparing in the tail slot. */
  ghost predicate TailOk(r: Ring)
    requires r.Shaped()
  {
    var t := r.Slot(|r.pub|);
    match r.pc
    case Filling => t.seqnum + 1 == r.seqnum && !t.Special()
    case Filled => t.seqnum + 1 == r.seqnum && !t.Special()
    case RoomWait(s) => s + 1 == r.seqnum
    case SpecialFilled => t.seqnum + 1 == r.seqnum && t.Special() && !t.Acked() && !r.Full()
    case AckWait(p) => p + 1 == |r.pub| && r.pub[p].Special()
    case Idle => true
  }

  /** The slot holds what was published at p, acked if and only if it is a special record that is done. */
  predicate SlotOk(r: Ring, p: nat, done: nat)
    requires r.Shaped() && p < |r.pub|
  {
    r.Slot(p) == if p < done && r.pub[p].Special() then r.pub[p].Ack() else r.pub[p]
  }

  /**
    * Slot safety: `done` records have been through flush_record.  Every live slot holds what was
    * published, apart from the ack word, which is set in exactly the special records that are done;
    * nothing that is still to be delivered has been overwritten or acked.
    */
  ghost predicate RingInv(r: Ring, done: nat)
  {
    && r.Shaped()
    && r.h <= done <= |r.pub| <= r.h + r.cap - 1
    && SeqnumsOk(r)
    && TailOk(r)
    && (forall i :: 0 <= i < |r.pub| && r.pub[i].Special() ==> !r.pub[i].Acked())
    && (forall p: nat :: Live(r, p) ==> SlotOk(r, p, done))
  }

  /** What the engine may rely on while other threads run: its uncommitted slots do not move. */
  ghost predicate Rely(r: Ring, r': Ring)
  {
    && r.Shaped() && r'.Shaped()
    && r'.cap == r.cap && r'.h == r.h && r'.blocking == r.blocking
    && r.pub <= r'.pub
    && (forall p :: r.h <= p < |r.pub| ==> r'.Slot(p) == r.Slot(p))
  }

  /** A write to the tail slot misses every live slot. */
  lemma TailWriteMisses(r: Ring, v: Record, p: nat)
    requires r.Shaped() && r.h <= |r.pub| <= r.h + r.cap - 1 && r.h <= p < |r.pub|
    ensures r.Write(|r.pub|, v).Slot(p) == r.Slot(p)
  {
    AddrDistinct(p, |r.pub|, r.cap);
  }

  lemma WriteTail(r: Ring, v: Record, w: Ring, done: nat)
    requires RingInv(r, done) && !w.pc.AckWait?
    requires w == r.Write(|r.pub|, v).(seqnum := w.seqnum, pc := w.pc)
    ensures Rely(r, w) && w.Slot(|r.pub|) == v
    ensures forall p: nat :: Live(w, p) ==> SlotOk(w, p, done)
  {
    forall p: nat | r.h <= p < |r.pub| ensures w.Slot(p) == r.Slot(p) {
      TailWriteMisses(r, v, p);
    }
    forall p: nat | Live(w, p) ensures SlotOk(w, p, done) {
      assert Live(r, p);
    }
  }

  lemma CommitSafe(r: Ring, done: nat, next: Writer)
    requires RingInv(r, done)
    requires (r.pc == Filled && next == Idle) || (r.pc == SpecialFilled && next == AckWait(|r.pub|))
    requires r.pc == Filled ==> !r.Slot(|r.pub|).Special()
    ensures RingInv(PushCommit(r, next), done) && Rely(r, PushCommit(r, next))
  {
    var r' := PushCommit(r, next);
    forall p: nat | Live(r', p) ensures SlotOk(r', p, done)
    {
      assert p < |r.pub| ==> Live(r, p);
    }
  }

  /** Steps that fill in the tail slot. */
  lemma FillSafe(r: Ring, a: Act, done: nat)
    requires RingInv(r, done) && Enabled(r, a) && (a.Begin? || a.Fill? || a.SpecialFill?)
    ensures RingInv(Do(r, a), done) && Rely(r, Do(r, a))
  {
    hide SlotOk;
    var r' := Do(r, a);
    WriteTail(r, r'.Slot(|r.pub|), r', done);
  }

  /** Steps that only move the writer along. */
  lemma WaitSafe(r: Ring, a: Act, done: nat)
    requires RingInv(r, done) && Enabled(r, a) && (a.SpecialBegin? || a.RoomTimeout? || a.AckSeen? || a.AckGiveUp?)
    ensures RingInv(Do(r, a), done) && Rely(r, Do(r, a))
  {
    var r' := Do(r, a);
    forall p: nat | Live(r', p) ensures SlotOk(r', p, done)
    {
      assert Live(r, p);
    }
  }

  /** No step of another thread breaks the ring or touches what the engine has not committed. */
  lemma ActSafe(r: Ring, a: Act, done: nat)
    requires RingInv(r, done) && Enabled(r, a)
    ensures RingInv(Do(r, a), done) && Rely(r, Do(r, a))
  {
    match a
    case Commit =>
      hide SlotOk, SeqnumsOk;
      CommitSafe(r, done, Idle);
    case SpecialCommit =>
      hide SlotOk, SeqnumsOk;
      CommitSafe(r, done, AckWait(|r.pub|));
    case _ =>
      hide RingInv, Rely;
      if a.Begin? || a.Fill? || a.SpecialFill? { FillSafe(r, a, done); } else { WaitSafe(r, a, done); }
  }

  lemma RelySelf(r: Ring, done: nat)
    requires RingInv(r, done)
    ensures Rely(r, r)
  {
  }

  lemma RelyTransitive(a: Ring, b: Ring, c: Ring)
    requires Rely(a, b) && Rely(b, c)
    ensures Rely(a, c)
  {
    forall p | a.h <= p < |a.pub| ensures c.Slot(p) == a.Slot(p) {
      assert b.Slot(p) == a.Slot(p);
    }
  }

  // ---------------------------------------------------------------- engine steps

  /** flush_record's ack of a special record at position p. */
  function AckSlot(r: Ring, p: nat): Ring
    requires r.Shaped()
  {
    if r.Slot(p).Special() then r.Write(p, r.Slot(p).Ack()) else r
  }

  /** rewind(lastrec) and commit: everything before `h` is given back to the writer. */
  function CommitHead(r: Ring, h: nat): Ring { r.(h := h) }

  lemma DeliverSafe(r: Ring, done: nat)
    requires RingInv(r, done) && done < |r.pub|
    ensures r.Slot(done) == r.pub[done]
    ensures RingInv(AckSlot(r, done), done + 1)
  {
    assert Live(r, done);
    var r' := AckSlot(r, done);
    forall p: nat | Live(r', p) ensures SlotOk(r', p, done + 1)
    {
      assert Live(r, p);
      if p < done && done < p + r.cap {
        AddrDistinct(p, done, r.cap);
      } else if done < p {
        AddrDistinct(done, p, r.cap);
      }
    }
    if !r.Full() { AddrDistinct(done, |r.pub|, r.cap); }
    assert TailOk(r');
  }

  lemma CommitHeadSafe(r: Ring, done: nat)
    requires RingInv(r, done)
    ensures RingInv(CommitHead(r, done), done)
  {
    var r' := CommitHead(r, done);
    forall p: nat | Live(r', p) ensures SlotOk(r', p, done)
    {
      assert Live(r, p);
    }
  }
}
