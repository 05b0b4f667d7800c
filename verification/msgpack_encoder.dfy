/** The msgpack encoder: the driver that writes descriptors, and the recursive encoder. */
module MsgpackEncoder {
  import opened Bytes
  import opened CodecWriter
  import opened Sequences
  import opened Msgpack

  /** codec/msgpack.go: the driver; codec/encode.go: the encoder on top of it. */
  class Encoder {
    const w: BytesEncWriter
    const h: Handle

    constructor (w: BytesEncWriter, h: Handle)
      ensures this.w == w && this.h == h
    {
      this.w, this.h := w, h;
    }

    /** The writer now holds these bytes more than before. */
    twostate predicate Wrote(bytes: seq<byte>)
      requires old(w.Valid())
      reads w, w.b
    {
      w.Valid() && (w.b == old(w.b) || fresh(w.b)) && w.Contents() == old(w.Contents()) + bytes
    }

    method EncodeUint(i: uint64)
      requires w.Valid()
      modifies w, w.b
      ensures Wrote(EncUint(i))
    {
      if i <= 0x7f {
        w.WriteN1(i);
      } else if i <= 0xff {
        w.WriteN2(0xcc, i);
      } else if i <= 0xffff {
        WriteTagged(0xcd, i, 2);
      } else if i <= 0xffff_ffff {
        WriteTagged(0xce, i, 4);
      } else {
        WriteTagged(0xcf, i, 8);
      }
    }

    method WriteTagged(bd: byte, n: nat, width: nat)
      requires w.Valid()
      modifies w, w.b
      ensures Wrote([bd] + BigEndian(n, width))
    {
      ghost var was := w.Contents();
      w.WriteN1(bd);
      w.WriteNumber(n, width);
      Associative(was, [bd], BigEndian(n, width));
    }

    method EncodeInt(i: int64)
      requires w.Valid()
      modifies w, w.b
      ensures Wrote(EncInt(i))
    {
      if i >= 0 {
        EncodeUint(i);
      } else if i >= -32 {
        w.WriteN1(i + 0x100);
      } else if i >= -0x80 {
        w.WriteN2(0xd0, i + 0x100);
      } else if i >= -0x8000 {
        WriteTagged(0xd1, i + 0x1_0000, 2);
      } else if i >= -0x8000_0000 {
        WriteTagged(0xd2, i + 0x1_0000_0000, 4);
      } else {
        WriteTagged(0xd3, i + 0x1_0000_0000_0000_0000, 8);
      }
    }

    method WriteContainerLen(ct: Container, l: nat)
      requires w.Valid()
      modifies w, w.b
      ensures Wrote(Header(ct, l, h))
    {
      if l < FixCutoff(ct) {
        w.WriteN1(FixMin(ct) + l);
      } else if l < 0x100 && (ct == BinType || (ct == StrType && h.writeExt)) {
        w.WriteN2(B8(ct), l);
      } else if l < 0x1_0000 {
        WriteTagged(B16(ct), l, 2);
      } else {
        WriteTagged(B32(ct), l, 4);
      }
    }

    method EncodeText(ct: Container, s: seq<byte>)
      requires w.Valid()
      modifies w, w.b
      ensures Wrote(Header(ct, |s|, h) + s)
    {
      ghost var was := w.Contents();
      WriteContainerLen(ct, |s|);
      if |s| > 0 {
        w.WriteB(s);
      }
      Associative(was, Header(ct, |s|, h), s);
      EmptyIsUnit(was + Header(ct, |s|, h));
    }

    /** Strings are text; byte slices are raw, which needs extensions to be told apart. */
    method Encode(v: Value)
      requires w.Valid()
      modifies w, w.b
      ensures Wrote(Enc(v, h))
      decreases v, 1
    {
      match v {
        case Nil => w.WriteN1(0xc0);
        case Bool(b) => w.WriteN1(if b then 0xc3 else 0xc2);
        case Int(i) => EncodeInt(i);
        case Uint(u) => EncodeUint(u);
        case Str(s) => EncodeText(StrType, s);
        case Raw(s) => EncodeText(if h.writeExt then BinType else StrType, s);
        case List(items) => EncodeItems(ListType, |items|, items);
        case Map(pairs) => EncodeItems(MapType, |pairs| / 2, pairs);
      }
    }

    method EncodeItems(ct: Container, n: nat, items: seq<Value>)
      requires w.Valid()
      modifies w, w.b
      ensures Wrote(Header(ct, n, h) + EncAll(items, h))
      decreases items, 0
    {
      ghost var was := w.Contents();
      WriteContainerLen(ct, n);
      var i := 0;
      ghost var goal := was + (Header(ct, n, h) + EncAll(items, h));
      Associative(was, Header(ct, n, h), EncAll(items, h));
      assert items[0..] == items;
      while i < |items|
        invariant 0 <= i <= |items| && w.Valid() && (w.b == old(w.b) || fresh(w.b))
        invariant w.Contents() + EncAll(items[i..], h) == goal
      {
        NextItem(w.Contents(), items, i);
        Encode(items[i]);
        i := i + 1;
      }
      EmptyIsUnit(w.Contents());
    }

    lemma {:induction false} NextItem(before: seq<byte>, items: seq<Value>, i: nat)
      requires i < |items|
      ensures before + EncAll(items[i..], h) == before + Enc(items[i], h) + EncAll(items[i + 1..], h)
    {
      assert items[i..][1..] == items[i + 1..];
      Associative(before, Enc(items[i], h), EncAll(items[i + 1..], h));
    }
  }
}
