/** What the engine hands to the output: record lines and the lines it injects itself. */
module Output {
  import opened Rings
  import opened Sharing
  import opened Index
  import Tso

  datatype Item =
    | Line(ring: RingId, rec: Record)
    | DropMark(ring: RingId, timestamp: nat, n: nat)
    | FullMark(timestamp: nat)
    | SwitchMark(ring: RingId, timestamp: nat, seqnum: nat)

  /** timestamp - 1 on 64 bits. */
  function Pred64(ts: nat): (p: nat)
    ensures (p + 1) % 0x1_0000_0000_0000_0000 == ts % 0x1_0000_0000_0000_0000
    ensures ts > 0 ==> p < ts
  {
    if ts == 0 then 0xffff_ffff_ffff_ffff else ts - 1
  }

  /**
    * What delivery d puts into the output: in front, if it uncovers a gap and such lines are enabled, a line
    * with the number of records missed, dated just before it; then a regular record's own line, or the
    * line that announces a switch of the timesource.
    */
  function WrittenFor(d: Delivery, dropMark: bool): seq<Item>
  {
    (if d.missed > 0 && dropMark then [DropMark(d.te.ring, Pred64(d.rec.timestamp), d.missed)] else [])
    + (if !d.rec.Special() then [Line(d.te.ring, d.rec)]
       else if d.rec.argtype == SPR_TIMESOURCE_CHANGE then [SwitchMark(d.te.ring, d.rec.timestamp, d.rec.seqnum)]
       else [])
  }

  /** The next line of the output says that the buffer is full, dated just before the record te points at. */
  ghost predicate MarkedFull(mem: map<RingId, Ring>, te: Tso.Entry, out: seq<Item>, out': seq<Item>)
  {
    && te.ring in mem && te.pos < |mem[te.ring].pub|
    && out + [FullMark(Pred64(mem[te.ring].pub[te.pos].timestamp))] <= out'
  }

  lemma MarkedStill(mem: map<RingId, Ring>, te: Tso.Entry, out: seq<Item>, out1: seq<Item>, out': seq<Item>)
    requires MarkedFull(mem, te, out, out1) && out1 <= out'
    ensures MarkedFull(mem, te, out, out')
  {
  }

  /** The record lines of the output, in order. */
  function Lines(out: seq<Item>): seq<(RingId, Record)>
  {
    if out == [] then []
    else
      var n := |out| - 1;
      Lines(out[..n]) + (if out[n].Line? then [(out[n].ring, out[n].rec)] else [])
  }

  /** The regular records of the log, in order. */
  function Regulars(log: seq<Delivery>): seq<(RingId, Record)>
  {
    if log == [] then []
    else
      var n := |log| - 1;
      Regulars(log[..n]) + (if log[n].rec.Special() then [] else [(log[n].te.ring, log[n].rec)])
  }

  lemma LinesAppend(out: seq<Item>, i: Item)
    ensures Lines(out + [i]) == Lines(out) + (if i.Line? then [(i.ring, i.rec)] else [])
  {
    assert (out + [i])[..|out|] == out;
  }

  lemma RegularsAppend(log: seq<Delivery>, d: Delivery)
    ensures Regulars(log + [d]) == Regulars(log) + (if d.rec.Special() then [] else [(d.te.ring, d.rec)])
  {
    assert (log + [d])[..|log|] == log;
  }
}
