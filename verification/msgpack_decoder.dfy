/** The msgpack decoder: the driver with its one descriptor of lookahead, and the recursive
    decoder into values whose types the stream decides. */
module MsgpackDecoder {
  import opened Bytes
  import opened CodecReader
  import opened Sequences
  import opened Wrappers
  import opened Msgpack

  datatype ValueType = OfScalar | OfString | OfBytes | OfArray | OfMap

  /** What a container is decoded into. */
  function TypeOf(ct: Container, h: Handle): ValueType {
    match ct
    case StrType => if h.rawToString then OfString else OfBytes
    case BinType => OfBytes
    case ListType => OfArray
    case MapType => OfMap
  }

  /** codec/msgpack.go: the descriptor is read ahead of what it describes. */
  class Driver {
    const r: BytesDecReader
    const h: Handle
    var bd: byte
    var bdRead: bool

    constructor (r: BytesDecReader, h: Handle)
      ensures this.r == r && this.h == h && !bdRead
    {
      this.r, this.h, bd, bdRead := r, h, 0, false;
    }

    /** What the decoder has still to look at, with the descriptor that was read ahead. */
    ghost function Stream(): seq<byte>
      requires r.Valid()
      reads this, r
    {
      if bdRead then [bd] + r.Rest() else r.Rest()
    }

    method InitReadNext() returns (e: Option<Error>)
      requires r.Valid()
      modifies this, r
      ensures r.Valid()
      ensures if old(Stream()) == [] then e == Some(Eof)
              else e == None && bdRead && Stream() == old(Stream()) && Stream()[0] == bd && Stream()[1..] == r.Rest()
    {
      e := None;
      if !bdRead {
        var n := r.ReadN1();
        if n.Panicked? {
          return Some(n.error);
        }
        bd, bdRead := n.value, true;
      }
    }

    method TryDecodeAsNil() returns (isNil: bool)
      requires r.Valid() && bdRead
      modifies `bdRead
      ensures isNil == (bd == 0xc0) && bdRead == !isNil
    {
      isNil := bd == 0xc0;
      if isNil {
        bdRead := false;
      }
    }

    /** Scalars are read at once; of containers only the type is told. */
    method DecodeNaked() returns (o: Outcome<Value>, vt: ValueType, decodeFurther: bool)
      requires r.Valid() && bdRead
      modifies r, `bdRead
      ensures r.Valid()
      ensures match ReadHead(bd, old(r.Rest()), h)
        case Bad(e) => !decodeFurther ==> o == Panicked(e)
        case Scalar(v, rest) => !decodeFurther && o == Got(v) && !bdRead && r.Rest() == rest
        case _ => decodeFurther
      ensures decodeFurther ==>
        && bdRead && r.Rest() == old(r.Rest()) && Classify(bd).ContainerOf?
        && vt == TypeOf(Classify(bd).ct, h)
    {
      vt, decodeFurther := OfScalar, false;
      match Classify(bd) {
        case Constant(v) =>
          o := Got(v);
        case UintOf(width) =>
          Capacities();
          var n := r.ReadNumberOf(width);
          if n.Panicked? {
            return Panicked(n.error), vt, false;
          }
          o := Got(Uint(n.value));
        case IntOf(width) =>
          Capacities();
          var n := r.ReadNumberOf(width);
          if n.Panicked? {
            return Panicked(n.error), vt, false;
          }
          o := Got(Int(Signed(n.value, width)));
        case ContainerOf(ct) =>
          o, vt, decodeFurther := Got(Nil), TypeOf(ct, h), true;
        case Unknown(e) =>
          o := Panicked(e);
      }
      if !decodeFurther {
        bdRead := false;
      }
    }

    method ReadContainerLen(ct: Container) returns (clen: Outcome<nat>)
      requires r.Valid() && bdRead && Describes(ct, bd)
      modifies r, `bdRead
      ensures r.Valid()
      ensures match ReadContainer(ct, bd, old(r.Rest()), h)
        case Bad(e) => clen == Panicked(e)
        case head => clen == Got(head.n) && r.Rest() == head.rest && !bdRead
    {
      if bd == B8(ct) {
        clen := r.ReadNumberOf(1);
      } else if bd == B16(ct) {
        clen := r.ReadNumberOf(2);
      } else if bd == B32(ct) {
        clen := r.ReadNumberOf(4);
      } else {
        clen := Got(bd - FixMin(ct));
      }
      bdRead := false;
    }

    /** decodeString and decodeBytes: the contents, whose type the caller knows. */
    method DecodeText() returns (o: Outcome<seq<byte>>)
      requires r.Valid() && bdRead && (Describes(StrType, bd) || Describes(BinType, bd))
      modifies r, `bdRead
      ensures r.Valid()
      ensures match ReadHead(bd, old(r.Rest()), h)
        case Bad(e) => o == Panicked(e)
        case Text(_, n, rest) =>
          if n > |rest| then o == Panicked(Missing(|rest|))
          else o == Got(rest[..n]) && r.Rest() == rest[n..] && !bdRead
        case _ => true
    {
      var clen := ReadContainerLen(if 0xc4 <= bd <= 0xc6 then BinType else StrType);
      if clen.Panicked? {
        return Panicked(clen.error);
      }
      o := r.ReadN(clen.value);
    }
  }

  /** codec/decode.go: decoding into a nil interface, and into slices and maps of interfaces. */
  class Decoder {
    const d: Driver

    constructor (d: Driver)
      ensures this.d == d
    {
      this.d := d;
    }

    method Decode() returns (o: Outcome<Value>)
      requires d.r.Valid()
      modifies d, d.r
      ensures d.r.Valid()
      ensures match Dec(old(d.Stream()), d.h)
        case Failed(e) => o == Panicked(e)
        case Done(v, rest) => o == Got(v) && !d.bdRead && d.Stream() == rest
      decreases |d.Stream()|, 2
    {
      var e := d.InitReadNext();
      if e.Some? {
        return Panicked(e.value);
      }
      ghost var stream, rest := d.Stream(), d.r.Rest();
      ghost var head := ReadHead(d.bd, rest, d.h);
      assert stream != [] && stream[0] == d.bd && stream[1..] == rest;
      ByHead(stream, head, d.h);
      var isNil := d.TryDecodeAsNil();
      if isNil {
        return Got(Nil);
      }
      var vt, decodeFurther;
      o, vt, decodeFurther := d.DecodeNaked();
      if decodeFurther {
        assert d.Stream() == stream;
        o := DecodeFurther(vt);
      }
    }

    /** Decodes into the string, slice or map that was made for the descriptor. */
    method DecodeFurther(vt: ValueType) returns (o: Outcome<Value>)
      requires d.r.Valid() && d.bdRead && Classify(d.bd).ContainerOf? && vt == TypeOf(Classify(d.bd).ct, d.h)
      modifies d, d.r
      ensures d.r.Valid()
      ensures match Dec(old(d.Stream()), d.h)
        case Failed(e) => o == Panicked(e)
        case Done(v, rest) => o == Got(v) && !d.bdRead && d.Stream() == rest
      decreases |d.Stream()|, 1
    {
      if vt == OfArray {
        o := DecSliceIntf();
      } else if vt == OfMap {
        o := DecMapIntfIntf();
      } else {
        ghost var stream, rest := d.Stream(), d.r.Rest();
        assert stream[0] == d.bd && stream[1..] == rest;
        ByHead(stream, ReadHead(d.bd, rest, d.h), d.h);
        var text := d.DecodeText();
        if text.Panicked? {
          return Panicked(text.error);
        }
        o := Got(if vt == OfString then Str(text.value) else Raw(text.value));
      }
    }

    method DecSliceIntf() returns (o: Outcome<Value>)
      requires d.r.Valid() && d.bdRead && Describes(ListType, d.bd)
      modifies d, d.r
      ensures d.r.Valid()
      ensures match Dec(old(d.Stream()), d.h)
        case Failed(e) => o == Panicked(e)
        case Done(v, rest) => o == Got(v) && !d.bdRead && d.Stream() == rest
      decreases |d.Stream()|, 0
    {
      ghost var stream, rest := d.Stream(), d.r.Rest();
      assert stream[0] == d.bd && stream[1..] == rest;
      ContainerByHead(ListType, stream, ReadContainer(ListType, d.bd, rest, d.h), d.h);
      var containerLenS := d.ReadContainerLen(ListType);
      if containerLenS.Panicked? {
        return Panicked(containerLenS.error);
      }
      var s := DecItems(containerLenS.value);
      o := if s.Panicked? then Panicked(s.error) else Got(List(s.value));
    }

    method DecMapIntfIntf() returns (o: Outcome<Value>)
      requires d.r.Valid() && d.bdRead && Describes(MapType, d.bd)
      modifies d, d.r
      ensures d.r.Valid()
      ensures match Dec(old(d.Stream()), d.h)
        case Failed(e) => o == Panicked(e)
        case Done(v, rest) => o == Got(v) && !d.bdRead && d.Stream() == rest
      decreases |d.Stream()|, 0
    {
      ghost var stream, rest := d.Stream(), d.r.Rest();
      assert stream[0] == d.bd && stream[1..] == rest;
      ContainerByHead(MapType, stream, ReadContainer(MapType, d.bd, rest, d.h), d.h);
      var containerLen := d.ReadContainerLen(MapType);
      if containerLen.Panicked? {
        return Panicked(containerLen.error);
      }
      var m := DecEntries(containerLen.value);
      o := if m.Panicked? then Panicked(m.error) else Got(Map(m.value));
    }

    /** The loop over the items of a slice. */
    method DecItems(n: nat) returns (o: Outcome<seq<Value>>)
      requires d.r.Valid() && !d.bdRead
      modifies d, d.r
      ensures d.r.Valid()
      ensures match DecAll(old(d.Stream()), n, d.h)
        case FailedAll(e) => o == Panicked(e)
        case DoneAll(vs, rest) => o == Got(vs) && !d.bdRead && d.Stream() == rest
      decreases |d.Stream()|, 3
    {
      var left, s: seq<Value> := n, [];
      ghost var stream := d.Stream();
      ghost var goal := DecAll(stream, n, d.h);
      NothingBefore(goal);
      while left > 0
        invariant d.r.Valid() && !d.bdRead && |d.Stream()| <= |stream|
        invariant Prepend(s, DecAll(d.Stream(), left, d.h)) == goal
      {
        var less := left - 1;
        OneItem(s, d.Stream(), left, less, d.h);
        var v := Decode();
        if v.Panicked? {
          return Panicked(v.error);
        }
        s, left := s + [v.value], less;
      }
      EmptyIsUnit(s);
      o := Got(s);
    }

    /** The loop over the pairs of a map. */
    method DecEntries(n: nat) returns (o: Outcome<seq<Value>>)
      requires d.r.Valid() && !d.bdRead
      modifies d, d.r
      ensures d.r.Valid()
      ensures match DecPairs(old(d.Stream()), n, [], d.h)
        case FailedAll(e) => o == Panicked(e)
        case DoneAll(vs, rest) => o == Got(vs) && !d.bdRead && d.Stream() == rest
      decreases |d.Stream()|, 3
    {
      var left, m: seq<Value>, keys: seq<Value> := n, [], [];
      ghost var stream := d.Stream();
      ghost var goal := DecPairs(stream, n, [], d.h);
      NothingBefore(goal);
      while left > 0
        invariant d.r.Valid() && !d.bdRead && |d.Stream()| <= |stream|
        invariant Prepend(m, DecPairs(d.Stream(), left, keys, d.h)) == goal
      {
        var less := left - 1;
        OnePair(m, d.Stream(), left, less, keys, d.h);
        var mk := Decode();
        if mk.Panicked? {
          return Panicked(mk.error);
        }
        var key := CheckKey(mk.value, keys);
        if key.Refused? {
          return Panicked(key.error);
        }
        var mv := Decode();
        if mv.Panicked? {
          return Panicked(mv.error);
        }
        m, keys, left := m + [key.key, mv.value], keys + [key.key], less;
      }
      EmptyIsUnit(m);
      o := Got(m);
    }
  }

  function TextOf(head: Head): Decoded
    requires head.Text?
  {
    var s, n := head.rest, head.n;
    if n > |s| then Failed(Missing(|s|)) else Done(if head.isString then Str(s[..n]) else Raw(s[..n]), s[n..])
  }

  /** What the bytes decode to, by the head they start with. */
  lemma ByHead(b: seq<byte>, head: Head, h: Handle)
    requires b != [] && head == ReadHead(b[0], b[1..], h)
    ensures head.Bad? ==> Dec(b, h) == Failed(head.error)
    ensures head.Scalar? ==> Dec(b, h) == Done(head.v, head.rest)
    ensures head.Text? ==> Dec(b, h) == TextOf(head)
    ensures head.Items? ==>
      var all := DecAll(head.rest, head.n, h);
      Dec(b, h) == if all.FailedAll? then Failed(all.error) else Done(List(all.vs), all.rest)
    ensures head.Pairs? ==>
      var all := DecPairs(head.rest, head.n, [], h);
      Dec(b, h) == if all.FailedAll? then Failed(all.error) else Done(Map(all.vs), all.rest)
  {
  }

  lemma ContainerByHead(ct: Container, b: seq<byte>, head: Head, h: Handle)
    requires b != [] && (ct == ListType || ct == MapType) && Describes(ct, b[0])
    requires head == ReadContainer(ct, b[0], b[1..], h)
    ensures head.Bad? || (if ct == ListType then head.Items? else head.Pairs?)
    ensures head.Bad? ==> Dec(b, h) == Failed(head.error)
    ensures head.Items? ==>
      var all := DecAll(head.rest, head.n, h);
      Dec(b, h) == if all.FailedAll? then Failed(all.error) else Done(List(all.vs), all.rest)
    ensures head.Pairs? ==>
      var all := DecPairs(head.rest, head.n, [], h);
      Dec(b, h) == if all.FailedAll? then Failed(all.error) else Done(Map(all.vs), all.rest)
  {
    assert Classify(b[0]) == ContainerOf(ct);
    ByHead(b, head, h);
  }

  lemma NothingBefore(all: DecodedAll)
    ensures Prepend([], all) == all
  {
    if all.DoneAll? {
      EmptyIsUnit(all.vs);
    }
  }

  /** What one more item makes of the items that were read before. */
  function AfterItem(s: seq<Value>, b: seq<byte>, less: nat, h: Handle): DecodedAll {
    match Dec(b, h)
    case Failed(e) => FailedAll(e)
    case Done(v, rest) => Prepend(s + [v], DecAll(rest, less, h))
  }

  lemma {:induction false} OneItem(s: seq<Value>, b: seq<byte>, left: nat, less: nat, h: Handle)
    requires left == less + 1
    ensures Prepend(s, DecAll(b, left, h)) == AfterItem(s, b, less, h)
  {
    match Dec(b, h)
    case Failed(_) =>
    case Done(v, rest) => PrependTwice(s, [v], DecAll(rest, less, h));
  }

  lemma {:induction false} PrependTwice(s: seq<Value>, t: seq<Value>, all: DecodedAll)
    ensures Prepend(s, Prepend(t, all)) == Prepend(s + t, all)
  {
    if all.DoneAll? {
      Associative(s, t, all.vs);
    }
  }

  /** What one more pair makes of the pairs that were read before. */
  function AfterPair(m: seq<Value>, b: seq<byte>, less: nat, keys: seq<Value>, h: Handle): DecodedAll {
    match DecPair(b, keys, h)
    case FailedPair(e) => FailedAll(e)
    case DonePair(key, v, rest) => Prepend(m + [key, v], DecPairs(rest, less, keys + [key], h))
  }

  lemma {:induction false} OnePair(m: seq<Value>, b: seq<byte>, left: nat, less: nat, keys: seq<Value>, h: Handle)
    requires left == less + 1
    ensures Prepend(m, DecPairs(b, left, keys, h)) == AfterPair(m, b, less, keys, h)
  {
    match DecPair(b, keys, h)
    case FailedPair(_) =>
    case DonePair(key, v, rest) => PrependTwice(m, [key, v], DecPairs(rest, less, keys + [key], h));
  }
}
