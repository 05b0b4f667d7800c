/** armon/circbuf: a fixed-size buffer that keeps the last bytes written to it. */
module CircBuf {
  import opened Bytes
  import opened Sequences

  /** The last n elements of s, or all of s when it is shorter. */
  function Last<T>(s: seq<T>, n: nat): (t: seq<T>)
    ensures |t| == if |s| < n then |s| else n
  {
    if |s| < n then s else s[|s| - n..]
  }

  /** What a buffer of the given size holds after a list of writes, one bounded step at a time. */
  function Retained(held: seq<byte>, writes: seq<seq<byte>>, size: nat): seq<byte>
    decreases |writes|
  {
    if writes == [] then held else Retained(Last(held + writes[0], size), writes[1..], size)
  }

  /** Forgetting the old bytes at every write loses nothing that is not forgotten anyway. */
  lemma LastOfLast<T>(s: seq<T>, t: seq<T>, n: nat)
    ensures Last(Last(s, n) + t, n) == Last(s + t, n)
  {
  }

  /** For any writes of any sizes, step by step retention keeps exactly the last
      min(total, size) bytes of everything written. */
  lemma {:induction false} RetainsTheLastBytes(all: seq<byte>, writes: seq<seq<byte>>, size: nat)
    ensures Retained(Last(all, size), writes, size) == Last(all + Concat(writes), size)
    decreases |writes|
  {
    if writes == [] {
      assert all + Concat(writes) == all;
    } else {
      LastOfLast(all, writes[0], size);
      RetainsTheLastBytes(all + writes[0], writes[1..], size);
      Associative(all, writes[0], Concat(writes[1..]));
    }
  }

  /** A full ring read from the cursor, oldest byte first. */
  function From(ring: seq<byte>, cursor: int): seq<byte>
    requires 0 <= cursor <= |ring|
  {
    ring[cursor..] + ring[..cursor]
  }

  /** The ring after at most one lap of new bytes at the cursor. */
  function Overlay(ring: seq<byte>, cursor: int, tail: seq<byte>): (r: seq<byte>)
    requires 0 <= cursor < |ring| && |tail| <= |ring|
  {
    var next := cursor + |tail|;
    if next <= |ring| then
      ring[..cursor] + tail + ring[next..]
    else
      tail[|ring| - cursor..] + ring[next - |ring|..cursor] + tail[..|ring| - cursor]
  }

  /** What Go's copy leaves in dst: as many bytes of src as fit from the offset on. */
  function Copied(dst: seq<byte>, at: int, src: seq<byte>): (r: seq<byte>)
    requires 0 <= at <= |dst|
    ensures |r| == |dst|
  {
    if |src| <= |dst| - at then dst[..at] + src + dst[at + |src|..] else dst[..at] + src[..|dst| - at]
  }

  /** The two copies of a write lay the bytes once around the ring. */
  lemma TwoCopies(ring: seq<byte>, cursor: int, tail: seq<byte>, once: seq<byte>, twice: seq<byte>)
    requires 0 <= cursor < |ring| && |tail| <= |ring|
    requires once == Copied(ring, cursor, tail)
    requires twice == if |tail| > |ring| - cursor then Copied(once, 0, tail[|ring| - cursor..]) else once
    ensures twice == Overlay(ring, cursor, tail)
  {
  }

  lemma Wrap(next: int, size: int)
    requires 0 <= next < 2 * size
    ensures next % size == if next < size then next else next - size
  {
    if size <= next {
      assert next % size == (next - size) % size;
    }
  }

  /** Writing at the cursor drops as many of the oldest bytes as it adds new ones. */
  lemma Advance(ring: seq<byte>, after: seq<byte>, cursor: int, tail: seq<byte>, next: int)
    requires 0 <= cursor < |ring| && |tail| <= |ring| && after == Overlay(ring, cursor, tail)
    requires next == if cursor + |tail| < |ring| then cursor + |tail| else cursor + |tail| - |ring|
    ensures From(after, next) == Last(From(ring, cursor) + tail, |ring|)
  {
    var was := From(ring, cursor);
    assert Last(was + tail, |ring|) == was[|tail|..] + tail;
    if cursor + |tail| < |ring| {
      assert after[next..] == ring[next..];
      assert after[..next] == ring[..cursor] + tail;
      assert was[|tail|..] == ring[next..] + ring[..cursor];
    } else {
      var split := |ring| - cursor;
      assert tail == tail[..split] + tail[split..];
      assert was[|tail|..] == ring[next..cursor];
      assert after[..next] == tail[split..];
      assert after[next..] == ring[next..cursor] + tail[..split];
    }
  }

  /** The bytes a ring holds, oldest first: until it is full they lie before the cursor,
      afterwards the oldest byte is the one under the cursor. */
  function Held(ring: seq<byte>, cursor: int, written: int): seq<byte>
    requires 0 <= cursor <= |ring|
  {
    if written < |ring| then ring[..cursor] else From(ring, cursor)
  }

  ghost predicate RingInvariant(size: int, cursor: int, written: int) {
    && 0 <= cursor < size
    && 0 <= written
    && (written < size ==> cursor == written)
    && (written == size ==> cursor == 0)
  }

  /** The step of a write on the ring's value, for a buffer of any length, oversized or not. */
  lemma WriteHeld(ring: seq<byte>, cursor: int, written: int, buf: seq<byte>, tail: seq<byte>, next: int)
    requires RingInvariant(|ring|, cursor, written)
    requires tail == Last(buf, |ring|)
    requires next == if cursor + |tail| < |ring| then cursor + |tail| else cursor + |tail| - |ring|
    ensures RingInvariant(|ring|, next, written + |buf|)
    ensures Held(Overlay(ring, cursor, tail), next, written + |buf|) == Last(Held(ring, cursor, written) + buf, |ring|)
  {
    var held, after := Held(ring, cursor, written), Overlay(ring, cursor, tail);
    assert Last(held + buf, |ring|) == Last(held + tail, |ring|);
    if written + |buf| < |ring| {
      assert after[..next] == ring[..cursor] + tail;
    } else {
      Advance(ring, after, cursor, tail, next);
      if written < |ring| {
        Filling(ring, cursor, held, tail);
      }
    }
  }

  /** Bytes that were never written are the first to be dropped. */
  lemma Filling(ring: seq<byte>, cursor: int, held: seq<byte>, tail: seq<byte>)
    requires 0 <= cursor <= |ring| && held == ring[..cursor] && |held| + |tail| >= |ring|
    ensures Last(From(ring, cursor) + tail, |ring|) == Last(held + tail, |ring|)
  {
    Associative(ring[cursor..], held, tail);
    LastDropsFront(ring[cursor..], held + tail, |ring|);
  }

  lemma LastDropsFront(front: seq<byte>, s: seq<byte>, n: nat)
    requires |s| >= n
    ensures Last(front + s, n) == Last(s, n)
  {
  }

  class Buffer {
    var data: array<byte>
    var size: int
    var writeCursor: int
    var written: int

    ghost predicate Valid()
      reads this
    {
      size == data.Length && RingInvariant(size, writeCursor, written)
    }

    ghost function Contents(): (s: seq<byte>)
      requires Valid()
      reads this, data
      ensures |s| == if written < size then written else size
    {
      Held(data[..], writeCursor, written)
    }

    constructor (size: int)
      requires 0 < size
      ensures Valid() && fresh(data) && this.size == size && written == 0 && Contents() == []
    {
      this.size := size;
      data := new byte[size](_ => 0);
      writeCursor, written := 0, 0;
    }

    /** The error return of a size that is not positive is null here. */
    static method NewBuffer(size: int) returns (b: Buffer?)
      ensures b == null <==> size <= 0
      ensures b != null ==>
        fresh(b) && fresh(b.data) && b.Valid() && b.size == size && b.written == 0 && b.Contents() == []
    {
      if size <= 0 {
        return null;
      }
      b := new Buffer(size);
    }

    method Write(buf: seq<byte>) returns (n: int)
      requires Valid()
      modifies this`writeCursor, this`written, data
      ensures Valid()
      ensures n == |buf| && written == old(written) + |buf|
      ensures Contents() == Last(old(Contents()) + buf, size)
    {
      n := |buf|;
      written := written + n;
      var tail := if n > size then buf[n - size..] else buf;
      LayAround(tail);
      Wrap(writeCursor + |tail|, size);
      writeCursor := (writeCursor + |tail|) % size;
      WriteHeld(old(data[..]), old(writeCursor), old(written), buf, tail, writeCursor);
    }

    /** Copies to the end of the ring, and what does not fit there to its start. */
    method LayAround(tail: seq<byte>)
      requires 0 <= writeCursor < size == data.Length && |tail| <= size
      modifies data
      ensures data[..] == Overlay(old(data[..]), writeCursor, tail)
    {
      var remain := size - writeCursor;
      Copy(data, writeCursor, tail);
      ghost var once := data[..];
      if |tail| > remain {
        Copy(data, 0, tail[remain..]);
      }
      TwoCopies(old(data[..]), writeCursor, tail, once, data[..]);
    }

    method Bytes() returns (out: seq<byte>)
      requires Valid()
      ensures out == Contents()
    {
      if written >= size && writeCursor == 0 {
        out := data[..];
      } else if written > size {
        var a := new byte[size](_ => 0);
        Copy(a, 0, data[writeCursor..]);
        Copy(a, size - writeCursor, data[..writeCursor]);
        out := a[..];
      } else {
        out := data[..writeCursor];
      }
    }

    method Reset()
      requires Valid()
      modifies this`writeCursor, this`written
      ensures Valid() && written == 0 && Contents() == []
    {
      writeCursor, written := 0, 0;
    }

    /** A whole run of writes on a fresh or reset buffer. */
    method WriteAll(writes: seq<seq<byte>>)
      requires Valid() && written == 0
      modifies this`writeCursor, this`written, data
      ensures Valid() && written == |Concat(writes)|
      ensures Contents() == Last(Concat(writes), size)
    {
      ghost var rest := writes;
      for i := 0 to |writes|
        invariant Valid() && rest == writes[i..]
        invariant written + |Concat(rest)| == |Concat(writes)|
        invariant Retained(Contents(), rest, size) == Retained([], writes, size)
      {
        var _ := Write(writes[i]);
        rest := writes[i + 1..];
        assert writes[i..][1..] == rest;
      }
      RetainsTheLastBytes([], writes, size);
      assert [] + Concat(writes) == Concat(writes);
    }
  }

  method Copy(dst: array<byte>, at: int, src: seq<byte>)
    requires 0 <= at <= dst.Length
    modifies dst
    ensures dst[..] == Copied(old(dst[..]), at, src)
  {
    var n := if |src| < dst.Length - at then |src| else dst.Length - at;
    forall i | 0 <= i < n {
      dst[at + i] := src[i];
    }
  }
}
