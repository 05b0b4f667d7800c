/** codec/decode.go: the cursor over bytes that decoders read from. */
module CodecReader {
  import opened Bytes

  datatype Error = Eof | Short | BadDescriptor | Unhashable | NotModelled

  /** Reading n bytes fails differently at the very end. */
  function Missing(available: nat): Error {
    if available == 0 then Eof else Short
  }

  /** A number of `width` bytes. */
  datatype Read = Number'(n: nat, rest: seq<byte>) | NoNumber(error: Error)

  function ReadNumber(b: seq<byte>, width: nat): (r: Read)
    ensures r.Number'? ==> |r.rest| == |b| - width && r.n < Capacity(width)
  {
    if width > |b| then NoNumber(Missing(|b|))
    else
      NumberBound(b[..width]);
      Number'(Number(b[..width]), b[width..])
  }

  lemma ReadBack(n: nat, width: nat, rest: seq<byte>)
    requires n < Capacity(width)
    ensures ReadNumber(BigEndian(n, width) + rest, width) == Number'(n, rest)
  {
    var b := BigEndian(n, width) + rest;
    assert b[..width] == BigEndian(n, width) && b[width..] == rest;
    NumberOfBigEndian(n, width);
  }

  lemma OneByte(n: byte, rest: seq<byte>)
    ensures ReadNumber([n] + rest, 1) == Number'(n, rest)
  {
    BigEndian1(n);
    Capacities();
    ReadBack(n, 1, rest);
  }

  /** A result, or the error that a panic carries up to the caller of Decode. */
  datatype Outcome<T> = Got(value: T) | Panicked(error: Error)

  /** Reads off a byte slice without copying. */
  class BytesDecReader {
    const b: seq<byte>
    var c: nat
    var a: nat

    ghost predicate Valid()
      reads this
    {
      c + a == |b|
    }

    ghost function Rest(): seq<byte>
      requires Valid()
      reads this
    {
      b[c..]
    }

    constructor (input: seq<byte>)
      ensures Valid() && Rest() == input
    {
      b, c, a := input, 0, |input|;
    }

    method Consume(n: nat) returns (r: Outcome<nat>)
      requires Valid() && n > 0
      modifies this
      ensures Valid()
      ensures if n > |old(Rest())| then r == Panicked(Missing(|old(Rest())|))
              else r == Got(old(c)) && c == old(c) + n && Rest() == old(Rest())[n..]
    {
      if a == 0 {
        return Panicked(Eof);
      }
      if n > a {
        return Panicked(Short);
      }
      r := Got(c);
      c := c + n;
      a := a - n;
    }

    method ReadN(n: nat) returns (r: Outcome<seq<byte>>)
      requires Valid()
      modifies this
      ensures Valid()
      ensures if n > |old(Rest())| then r == Panicked(Missing(|old(Rest())|))
              else r == Got(old(Rest())[..n]) && Rest() == old(Rest())[n..]
    {
      if n == 0 {
        return Got([]);
      }
      var c0 := Consume(n);
      if c0.Panicked? {
        return Panicked(c0.error);
      }
      assert b[c0.value..c] == b[c0.value..][..n];
      r := Got(b[c0.value..c]);
    }

    method ReadN1() returns (r: Outcome<byte>)
      requires Valid()
      modifies this
      ensures Valid()
      ensures if old(Rest()) == [] then r == Panicked(Eof)
              else r == Got(old(Rest())[0]) && Rest() == old(Rest())[1..]
    {
      var c0 := Consume(1);
      if c0.Panicked? {
        return Panicked(c0.error);
      }
      r := Got(b[c0.value]);
    }

    /** readUint16, readUint32, readUint64, and readn1 as a number. */
    method ReadNumberOf(width: nat) returns (r: Outcome<nat>)
      requires Valid() && width > 0
      modifies this
      ensures Valid()
      ensures match ReadNumber(old(Rest()), width)
        case NoNumber(e) => r == Panicked(e)
        case Number'(n, rest) => r == Got(n) && Rest() == rest
    {
      var bytes := ReadN(width);
      if bytes.Panicked? {
        return Panicked(bytes.error);
      }
      r := Got(Number(bytes.value));
    }
  }
}
