/** The buffered file reader: whatever pieces the file comes in, reads see one stream of bytes. */
module ReadBuffers {
  import opened Bytes

  class FileRdbuf {
    const data: array<byte>
    var head: nat
    var size: nat
    var count: nat
    var input: seq<byte>   // what the file still has to give

    ghost predicate Valid()
      reads this
    {
      head + size <= data.Length
    }

    /** The bytes that reads will return; a reader without a buffer never gets any. */
    ghost function Remaining(): seq<byte>
      reads this, data
      requires Valid()
    {
      if data.Length == 0 then [] else data[head..head + size] + input
    }

    constructor (file: seq<byte>, capacity: nat)
      ensures Valid() && fresh(data) && data.Length == capacity && count == 0
      ensures Remaining() == if capacity == 0 then [] else file
    {
      data := new byte[capacity](_ => 0);
      head, size, count, input := 0, 0, 0, file;
    }

    /** ::read(): between one byte and a buffer full of what there is, as the system likes; 0 at the end. */
    method ReadIn() returns (ok: bool)
      requires Valid() && size == 0
      modifies this`head, this`size, this`input, data
      ensures Valid() && count == old(count)
      ensures ok == (old(Remaining()) != []) && (ok ==> size > 0)
      ensures Remaining() == old(Remaining())
    {
      if |input| == 0 || data.Length == 0 {
        return false;
      }
      assert 1 <= |input| && 1 <= data.Length;
      var r: nat :| 1 <= r && r <= |input| && r <= data.Length;
      forall k | 0 <= k < r {
        data[k] := input[k];
      }
      assert data[..r] == input[..r];
      head, size, input := 0, r, input[r..];
      ok := true;
    }

    /** Move up to `len` buffered bytes to dst. */
    method CopyOut(dst: array<byte>, at: nat, len: nat) returns (n: nat)
      requires Valid() && dst != data && at + Min(size, len) <= dst.Length
      modifies this`head, this`size, this`count, dst
      ensures Valid() && n == Min(old(size), len) <= |old(Remaining())| && count == old(count) + n
      ensures dst[..] == Put(old(dst[..]), at, old(Remaining())[..n])
      ensures Remaining() == old(Remaining())[n..]
    {
      hide Put, FileRdbuf.Remaining;
      n := Min(size, len);
      Buffered();
      ghost var piece, before := Remaining()[..n], dst[..];
      forall k | 0 <= k < n {
        dst[at + k] := data[head + k];
      }
      assert dst[..] == before[..at] + piece + before[at + n..];
      PutIs(before, at, piece);
      Skip(n);
    }

    lemma Buffered()
      requires Valid()
      ensures size <= |Remaining()| && data[head..head + size] == Remaining()[..size]
    {
    }

    /** Count the first n buffered bytes as read. */
    method Skip(n: nat)
      requires Valid() && n <= size
      modifies this`head, this`size, this`count
      ensures Valid() && count == old(count) + n
      ensures n <= |old(Remaining())| && Remaining() == old(Remaining())[n..]
    {
      Split(data[..], head, n, size, input);
      count := count + n;
      head := head + n;
      size := size - n;
    }

    /** One turn of the read loop: refill the buffer if it is empty, then copy from it. */
    method ReadSome(dst: array<byte>, at: nat, len: nat) returns (ok: bool, n: nat)
      requires Valid() && dst != data && len > 0 && at + Min(|Remaining()|, len) <= dst.Length
      modifies this, data, dst
      ensures Valid() && ok == (old(Remaining()) != [])
      ensures (n > 0 <==> ok) && n <= len && n <= |old(Remaining())| && count == old(count) + n
      ensures at + n <= dst.Length && dst[..] == Put(old(dst[..]), at, old(Remaining())[..n])
      ensures Remaining() == old(Remaining())[n..]
    {
      hide Put;
      n := 0;
      PutNone(dst[..], at, Remaining()[..0]);
      if size == 0 {
        ok := ReadIn();
        if !ok {
          return;
        }
      }
      assert size <= |Remaining()|;
      ok := true;
      n := CopyOut(dst, at, len);
    }

    /**
      * Read exactly `len` bytes, or as many as there are.  In whatever chunks they arrive, dst gets
      * the next bytes of the file, once each and in order.
      */
    method Read(dst: array<byte>, at: nat, len: nat) returns (ok: bool)
      requires Valid() && dst != data && at + Min(|Remaining()|, len) <= dst.Length
      modifies this, data, dst
      ensures Valid() && ok == (len <= |old(Remaining())|)
      ensures count == old(count) + Min(|old(Remaining())|, len)
      ensures dst[..] == Put(old(dst[..]), at, old(Remaining())[..Min(|old(Remaining())|, len)])
      ensures Remaining() == old(Remaining())[Min(|old(Remaining())|, len)..]
    {
      hide Put, FileRdbuf.Remaining;
      ghost var all, want := Remaining(), Min(|Remaining()|, len);
      ghost var before := dst[..];
      var got := 0;
      PutNone(before, at, all[..0]);
      while got < len
        invariant 0 <= got <= want <= len && Valid()
        invariant Remaining() == all[got..]
        invariant dst[..] == Put(before, at, all[..got]) && count == old(count) + got
        decreases len - got
      {
        ghost var m := dst[..];
        var more, n := ReadSome(dst, at + got, len - got);
        if !more {
          PutNone(m, at + got, all[got..][..0]);
          assert |all| - got == |all[got..]| == 0;
          return false;
        }
        NextPiece(all, got, n);
        PutMore(before, at, all[..got], all[got..got + n]);
        got := got + n;
      }
      ok := true;
    }
  }

  /** The first n buffered bytes are the next n bytes to be read. */
  lemma Split(m: seq<byte>, head: nat, n: nat, size: nat, input: seq<byte>)
    requires n <= size && head + size <= |m|
    ensures m[head..head + size] + input == m[head..head + n] + (m[head + n..head + size] + input)
    ensures (m[head..head + size] + input)[..n] == m[head..head + n]
    ensures (m[head..head + size] + input)[n..] == m[head + n..head + size] + input
  {
  }

  lemma NextPiece(all: seq<byte>, got: nat, n: nat)
    requires got + n <= |all|
    ensures all[got..][..n] == all[got..got + n] && all[..got] + all[got..got + n] == all[..got + n]
    ensures all[got..][n..] == all[got + n..]
  {
  }

  lemma PutIs(m: seq<byte>, at: nat, s: seq<byte>)
    requires at + |s| <= |m|
    ensures Put(m, at, s) == m[..at] + s + m[at + |s|..]
  {
  }

  lemma PutNone(m: seq<byte>, at: nat, a: seq<byte>)
    requires at <= |m| && a == []
    ensures Put(m, at, a) == m
  {
  }

  lemma PutMore(m: seq<byte>, at: nat, a: seq<byte>, b: seq<byte>)
    requires at + |a| + |b| <= |m|
    ensures Put(Put(m, at, a), at + |a|, b) == Put(m, at, a + b)
  {
  }
}
