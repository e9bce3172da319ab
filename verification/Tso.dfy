/** The timestamp-ordering buffer: an array used from `head` to `tail`. */
module Tso {
  import opened Sorting

  /** A pointer to the record at position `pos` of ring `ring`, tagged with an index entry number. */
  datatype Entry = Entry(timestamp: nat, ring: nat, pos: nat, tag: nat)

  function Time(e: Entry): int { e.timestamp }

  class TsoBuf {
    const entry: array<Entry>
    var head: nat
    var tail: nat

    ghost predicate Valid()
      reads this
    {
      head <= tail <= entry.Length
    }

    /** The buffered entries, oldest slot first. */
    ghost function Contents(): (s: seq<Entry>)
      reads this, entry
      requires Valid()
      ensures |s| == tail - head
    {
      entry[head..tail]
    }

    constructor (n: nat)
      ensures Valid() && fresh(entry) && entry.Length == n && head == tail == 0 && Contents() == []
    {
      entry := new Entry[n](_ => Entry(0, 0, 0, 0));
      head, tail := 0, 0;
    }

    function Capacity(): nat { entry.Length }

    function Size(): nat
      reads this
      requires Valid()
    {
      tail - head
    }

    predicate Full()
      reads this
    {
      tail == entry.Length
    }

    method Reset()
      modifies this
      ensures Valid() && head == tail == 0 && Contents() == []
    {
      head, tail := 0, 0;
    }

    /** Like the source, Push does not check for room: that is the caller's duty. */
    method Push(e: Entry)
      requires Valid() && !Full()
      modifies this, entry
      ensures Valid() && head == old(head) && tail == old(tail) + 1
      ensures Contents() == old(Contents()) + [e]
    {
      entry[tail] := e;
      tail := tail + 1;
    }

    method Pop() returns (ok: bool, e: Entry)
      requires Valid()
      modifies this
      ensures Valid() && tail == old(tail)
      ensures ok == (old(Contents()) != [])
      ensures ok ==> e == old(Contents())[0] && Contents() == old(Contents())[1..]
      ensures !ok ==> Contents() == []
    {
      if head >= tail {
        return false, Entry(0, 0, 0, 0);
      }
      ok, e := true, entry[head];
      head := head + 1;
    }

    method Top() returns (ok: bool, e: Entry)
      requires Valid()
      ensures ok == (Contents() != []) && (ok ==> e == Contents()[0])
    {
      if head >= tail {
        return false, Entry(0, 0, 0, 0);
      }
      ok, e := true, entry[head];
    }

    /** Shift what is left to the start of the array; this is what makes room again. */
    method Flip()
      requires Valid()
      modifies this, entry
      ensures Valid() && head == 0 && tail == |old(Contents())|
      ensures Contents() == old(Contents())
    {
      var s := tail - head;
      forall i | 0 <= i < s {
        entry[i] := entry[head + i];
      }
      head, tail := 0, s;
    }

    /** Order by timestamp; entries with equal timestamps may come out in any order. */
    method Sort()
      requires Valid()
      modifies entry
      ensures IsSorting(Time, old(Contents()), Contents())
    {
      var r := StdSort(Time, entry[head..tail]);
      forall i | 0 <= i < |r| {
        entry[head + i] := r[i];
      }
      assert forall i :: 0 <= i < |r| ==> Contents()[i] == r[i];
      assert Contents() == r;
    }
  }
}
