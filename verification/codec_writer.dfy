/** codec/encode.go: the byte buffer that encoders write to. */
module CodecWriter {
  import opened Bytes

  /** The array is the slice up to its capacity, n its length and c the cursor. */
  class BytesEncWriter {
    var b: array<byte>
    var n: nat
    var c: nat

    ghost predicate Valid()
      reads this
    {
      c <= n <= b.Length
    }

    /** What has been written. */
    ghost function Contents(): seq<byte>
      requires Valid()
      reads this, b
    {
      b[..c]
    }

    constructor (input: array<byte>, n: nat)
      requires n <= input.Length
      ensures Valid() && b == input && Contents() == []
    {
      this.b, this.n, this.c := input, n, 0;
    }

    method Grow(k: nat) returns (oldcursor: nat)
      requires Valid()
      modifies this
      ensures Valid() && oldcursor == old(c) && c == oldcursor + k
      ensures (b == old(b) || fresh(b)) && b[..oldcursor] == old(Contents())
    {
      oldcursor := c;
      c := oldcursor + k;
      if c > b.Length {
        var bs := new byte[2 * b.Length + k];
        Copy(bs, b, oldcursor);
        b, n := bs, bs.Length;
      } else if c > n {
        n := b.Length;
      }
    }

    static method Copy(to: array<byte>, from: array<byte>, k: nat)
      requires k <= to.Length && k <= from.Length && to != from
      modifies to
      ensures to[..k] == from[..k]
    {
      var i := 0;
      while i < k
        invariant 0 <= i <= k && to[..i] == from[..i]
      {
        to[i] := from[i];
        i := i + 1;
      }
    }

    method WriteB(s: seq<byte>)
      requires Valid()
      modifies this, b
      ensures Valid() && (b == old(b) || fresh(b)) && Contents() == old(Contents()) + s
    {
      ghost var was := Contents();
      var at := Grow(|s|);
      var i := 0;
      while i < |s|
        invariant 0 <= i <= |s| && Valid() && c == at + |s|
        invariant (b == old(b) || fresh(b)) && b[..at + i] == was + s[..i]
      {
        b[at + i] := s[i];
        i := i + 1;
      }
    }

    method WriteN1(b1: byte)
      requires Valid()
      modifies this, b
      ensures Valid() && (b == old(b) || fresh(b)) && Contents() == old(Contents()) + [b1]
    {
      var at := Grow(1);
      b[at] := b1;
    }

    method WriteN2(b1: byte, b2: byte)
      requires Valid()
      modifies this, b
      ensures Valid() && (b == old(b) || fresh(b)) && Contents() == old(Contents()) + [b1, b2]
    {
      var at := Grow(2);
      b[at] := b1;
      b[at + 1] := b2;
    }

    /** writeUint16, writeUint32 and writeUint64, with repeated shifts by eight bits from the last byte on. */
    method WriteNumber(v: nat, width: nat)
      requires Valid()
      modifies this, b
      ensures Valid() && (b == old(b) || fresh(b)) && Contents() == old(Contents()) + BigEndian(v, width)
    {
      ghost var was := Contents();
      var at := Grow(width);
      var i, shifted := width, v;
      while i > 0
        invariant 0 <= i <= width && Valid() && c == at + width
        invariant (b == old(b) || fresh(b)) && b[..at] == was
        invariant BigEndian(shifted, i) + b[at + i..c] == BigEndian(v, width)
      {
        LastByte(shifted, i, b[at + i..c]);
        i := i - 1;
        b[at + i] := shifted % 0x100;
        assert b[at + i..c] == [shifted % 0x100] + b[at + i + 1..c];
        shifted := shifted / 0x100;
      }
      assert b[..c] == b[..at] + b[at..c];
    }

    static lemma LastByte(v: nat, width: nat, rest: seq<byte>)
      requires width > 0
      ensures BigEndian(v, width) + rest == BigEndian(v / 0x100, width - 1) + ([v % 0x100] + rest)
    {
    }
  }
}
