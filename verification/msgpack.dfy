/** The msgpack format as go-msgpack writes and reads it: values, their bytes, and what a decoder that knows nothing
    about the stream makes of them. */
module Msgpack {
  import opened Bytes
  import opened CodecReader

  type int64 = x: int | -0x8000_0000_0000_0000 <= x < 0x8000_0000_0000_0000
  type uint64 = x: int | 0 <= x < 0x1_0000_0000_0000_0000

  /** The options of a handle that matter here. */
  datatype Handle = Handle(writeExt: bool, rawToString: bool)

  /** A map holds its keys and values in turn, in the order in which the encoder ranges over it. */
  datatype Value =
    | Nil | Bool(b: bool) | Int(i: int64) | Uint(u: uint64)
    | Str(s: seq<byte>) | Raw(raw: seq<byte>)
    | List(items: seq<Value>) | Map(pairs: seq<Value>)

  // ----- Writing

  datatype Container = StrType | BinType | ListType | MapType

  function FixCutoff(ct: Container): nat {
    match ct case StrType => 32 case BinType => 0 case ListType => 16 case MapType => 16
  }

  function FixMin(ct: Container): byte {
    match ct case StrType => 0xa0 case BinType => 0 case ListType => 0x90 case MapType => 0x80
  }

  /** Descriptors for lengths of 1, 2 and 4 bytes; lists and maps have none for 1. */
  function B8(ct: Container): byte {
    match ct case StrType => 0xd9 case BinType => 0xc4 case ListType => 0 case MapType => 0
  }

  function B16(ct: Container): byte {
    match ct case StrType => 0xda case BinType => 0xc5 case ListType => 0xdc case MapType => 0xde
  }

  function B32(ct: Container): byte {
    match ct case StrType => 0xdb case BinType => 0xc6 case ListType => 0xdd case MapType => 0xdf
  }

  function Header(ct: Container, l: nat, h: Handle): seq<byte> {
    if l < FixCutoff(ct) then [FixMin(ct) + l]
    else if l < 0x100 && (ct == BinType || (ct == StrType && h.writeExt)) then [B8(ct), l]
    else if l < 0x1_0000 then [B16(ct)] + BigEndian(l, 2)
    else [B32(ct)] + BigEndian(l, 4)
  }

  function EncUint(u: uint64): seq<byte> {
    if u <= 0x7f then [u]
    else if u <= 0xff then [0xcc, u]
    else if u <= 0xffff then [0xcd] + BigEndian(u, 2)
    else if u <= 0xffff_ffff then [0xce] + BigEndian(u, 4)
    else [0xcf] + BigEndian(u, 8)
  }

  /** Negative numbers in two's complement. */
  function EncInt(i: int64): seq<byte> {
    if i >= 0 then EncUint(i)
    else if i >= -32 then [i + 0x100]
    else if i >= -0x80 then [0xd0, i + 0x100]
    else if i >= -0x8000 then [0xd1] + BigEndian(i + 0x1_0000, 2)
    else if i >= -0x8000_0000 then [0xd2] + BigEndian(i + 0x1_0000_0000, 4)
    else [0xd3] + BigEndian(i + 0x1_0000_0000_0000_0000, 8)
  }

  function RawType(h: Handle): Container {
    if h.writeExt then BinType else StrType
  }

  function Enc(v: Value, h: Handle): seq<byte>
    decreases v
  {
    match v
    case Nil => [0xc0]
    case Bool(b) => [if b then 0xc3 else 0xc2]
    case Int(i) => EncInt(i)
    case Uint(u) => EncUint(u)
    case Str(s) => Header(StrType, |s|, h) + s
    case Raw(s) => Header(RawType(h), |s|, h) + s
    case List(items) => Header(ListType, |items|, h) + EncAll(items, h)
    case Map(pairs) => Header(MapType, |pairs| / 2, h) + EncAll(pairs, h)
  }

  function EncAll(vs: seq<Value>, h: Handle): seq<byte>
    decreases vs
  {
    if vs == [] then [] else Enc(vs[0], h) + EncAll(vs[1..], h)
  }

  // ----- Reading

  /** What a descriptor announces: a scalar, or so many bytes, items or pairs, and the bytes behind it. */
  datatype Head =
    | Scalar(v: Value, rest: seq<byte>)
    | Text(isString: bool, n: nat, rest: seq<byte>)
    | Items(n: nat, rest: seq<byte>)
    | Pairs(n: nat, rest: seq<byte>)
    | Bad(error: Error)

  /** Two's complement of `width` bytes. */
  function Signed(n: nat, width: nat): int {
    if 2 * n >= Capacity(width) then n - Capacity(width) else n
  }

  function ReadUint(b: seq<byte>, width: nat): Head
    requires width in {1, 2, 4, 8}
  {
    Capacities();
    match ReadNumber(b, width)
    case NoNumber(e) => Bad(e)
    case Number'(n, rest) => Scalar(Uint(n), rest)
  }

  function ReadInt(b: seq<byte>, width: nat): Head
    requires width in {1, 2, 4, 8}
  {
    Capacities();
    match ReadNumber(b, width)
    case NoNumber(e) => Bad(e)
    case Number'(n, rest) => Scalar(Int(Signed(n, width)), rest)
  }

  function ContainerHead(ct: Container, isString: bool, n: nat, rest: seq<byte>): Head {
    match ct
    case ListType => Items(n, rest)
    case MapType => Pairs(n, rest)
    case _ => Text(isString, n, rest)
  }

  function ReadLength(ct: Container, isString: bool, b: seq<byte>, width: nat): Head {
    match ReadNumber(b, width)
    case NoNumber(e) => Bad(e)
    case Number'(n, rest) => ContainerHead(ct, isString, n, rest)
  }

  /** The container that a descriptor belongs to, if any. */
  predicate Describes(ct: Container, bd: byte) {
    || (ct.BinType? && 0xc4 <= bd <= 0xc6)
    || (ct.StrType? && (0xd9 <= bd <= 0xdb || 0xa0 <= bd <= 0xbf))
    || (ct.ListType? && (0xdc <= bd <= 0xdd || 0x90 <= bd <= 0x9f))
    || (ct.MapType? && (0xde <= bd <= 0xdf || 0x80 <= bd <= 0x8f))
  }

  /** The length of a container whose descriptor has been read. */
  function ReadContainer(ct: Container, bd: byte, b: seq<byte>, h: Handle): Head
    requires Describes(ct, bd)
  {
    var isString := ct == StrType && h.rawToString;
    if bd == B8(ct) then ReadLength(ct, isString, b, 1)
    else if bd == B16(ct) then ReadLength(ct, isString, b, 2)
    else if bd == B32(ct) then ReadLength(ct, isString, b, 4)
    else ContainerHead(ct, isString, bd - FixMin(ct), b)
  }

  /** What a descriptor says on its own. Floats and extensions are known to the decoder but not to this model. */
  datatype Kind =
    | Constant(v: Value) | UintOf(width: nat) | IntOf(width: nat) | ContainerOf(ct: Container) | Unknown(error: Error)

  function Classify(bd: byte): (k: Kind)
    ensures k.UintOf? || k.IntOf? ==> k.width in {1, 2, 4, 8}
    ensures k.ContainerOf? ==> Describes(k.ct, bd)
  {
    if bd == 0xc0 then Constant(Nil)
    else if bd == 0xc2 then Constant(Bool(false))
    else if bd == 0xc3 then Constant(Bool(true))
    else if 0xcc <= bd <= 0xcf then UintOf(Width(bd - 0xcc))
    else if 0xd0 <= bd <= 0xd3 then IntOf(Width(bd - 0xd0))
    else if bd <= 0x7f then Constant(Int(bd))
    else if bd >= 0xe0 then Constant(Int(bd - 0x100))
    else if Describes(StrType, bd) then ContainerOf(StrType)
    else if Describes(BinType, bd) then ContainerOf(BinType)
    else if Describes(ListType, bd) then ContainerOf(ListType)
    else if Describes(MapType, bd) then ContainerOf(MapType)
    else if bd == 0xc1 then Unknown(BadDescriptor)
    else Unknown(NotModelled)
  }

  function ReadHead(bd: byte, b: seq<byte>, h: Handle): Head {
    match Classify(bd)
    case Constant(v) => Scalar(v, b)
    case UintOf(width) => ReadUint(b, width)
    case IntOf(width) => ReadInt(b, width)
    case ContainerOf(ct) => ReadContainer(ct, bd, b, h)
    case Unknown(e) => Bad(e)
  }

  function Width(k: nat): (w: nat)
    ensures w in {1, 2, 4, 8}
  {
    if k == 0 then 1 else if k == 1 then 2 else if k == 2 then 4 else 8
  }

  /** A byte slice that serves as a key becomes a string. */
  function Key(v: Value): Value {
    if v.Raw? then Str(v.raw) else v
  }

  predicate Hashable(v: Value) {
    !v.List? && !v.Map?
  }

  datatype Decoded = Done(v: Value, rest: seq<byte>) | Failed(error: Error)
  datatype DecodedAll = DoneAll(vs: seq<Value>, rest: seq<byte>) | FailedAll(error: Error)

  function Dec(b: seq<byte>, h: Handle): (r: Decoded)
    ensures r.Done? ==> |r.rest| < |b|
    decreases |b|, 1, 0
  {
    if b == [] then Failed(Eof)
    else
      HeadIsShorter(b[0], b[1..], h);
      match ReadHead(b[0], b[1..], h)
      case Bad(e) => Failed(e)
      case Scalar(v, rest) => Done(v, rest)
      case Text(isString, n, rest) =>
        if n > |rest| then Failed(Missing(|rest|))
        else Done(if isString then Str(rest[..n]) else Raw(rest[..n]), rest[n..])
      case Items(n, rest) =>
        var all := DecAll(rest, n, h);
        if all.FailedAll? then Failed(all.error) else Done(List(all.vs), all.rest)
      case Pairs(n, rest) =>
        var all := DecPairs(rest, n, [], h);
        if all.FailedAll? then Failed(all.error) else Done(Map(all.vs), all.rest)
  }

  function DecAll(b: seq<byte>, n: nat, h: Handle): (r: DecodedAll)
    ensures r.DoneAll? ==> |r.rest| <= |b| && |r.vs| == n
    decreases |b|, 2, n
  {
    if n == 0 then DoneAll([], b)
    else
      match Dec(b, h)
      case Failed(e) => FailedAll(e)
      case Done(v, rest) =>
        Prepend([v], DecAll(rest, n - 1, h))
  }

  /** What keeps a decoded key out of a map; decoding a key twice into one map is not modelled. */
  datatype KeyCheck = Fresh(key: Value) | Refused(error: Error)

  function CheckKey(k: Value, seen: seq<Value>): KeyCheck {
    if !Hashable(Key(k)) then Refused(Unhashable)
    else if Key(k) in seen then Refused(NotModelled)
    else Fresh(Key(k))
  }

  function Prepend(vs: seq<Value>, more: DecodedAll): DecodedAll {
    if more.FailedAll? then more else DoneAll(vs + more.vs, more.rest)
  }

  datatype DecodedPair = DonePair(key: Value, v: Value, rest: seq<byte>) | FailedPair(error: Error)

  function DecPair(b: seq<byte>, seen: seq<Value>, h: Handle): (r: DecodedPair)
    ensures r.DonePair? ==> |r.rest| <= |b|
    decreases |b|, 2, 0
  {
    match Dec(b, h)
    case Failed(e) => FailedPair(e)
    case Done(k, rest) =>
      match CheckKey(k, seen)
      case Refused(e) => FailedPair(e)
      case Fresh(key) =>
        match Dec(rest, h)
        case Failed(e) => FailedPair(e)
        case Done(v, rest') => DonePair(key, v, rest')
  }

  /** n pairs, none of whose keys is in `seen`. */
  function DecPairs(b: seq<byte>, n: nat, seen: seq<Value>, h: Handle): (r: DecodedAll)
    ensures r.DoneAll? ==> |r.rest| <= |b| && |r.vs| == 2 * n
    decreases |b|, 3, n, 1
  {
    if n == 0 then DoneAll([], b) else BehindPair(DecPair(b, seen, h), n, seen, h)
  }

  /** The rest of a map, once its first pair is read. */
  function BehindPair(p: DecodedPair, n: nat, seen: seq<Value>, h: Handle): (r: DecodedAll)
    requires n > 0
    ensures r.DoneAll? ==> p.DonePair? && |r.rest| <= |p.rest| && |r.vs| == 2 * n
    decreases if p.DonePair? then |p.rest| else 0, 3, n, 0
  {
    match p
    case FailedPair(e) => FailedAll(e)
    case DonePair(key, v, rest) => Prepend([key, v], DecPairs(rest, n - 1, seen + [key], h))
  }

  lemma HeadIsShorter(bd: byte, b: seq<byte>, h: Handle)
    ensures var r := ReadHead(bd, b, h); r.Bad? || |r.rest| <= |b|
  {
  }

  // ----- What a round trip does to a value

  /** Small numbers come back signed and larger ones unsigned; text comes back as the handle says. */
  function Norm(v: Value, h: Handle): Value
    decreases v
  {
    match v
    case Int(i) => if i <= 0x7f then Int(i) else Uint(i)
    case Uint(u) => if u <= 0x7f then Int(u) else Uint(u)
    case Str(s) => if h.rawToString then Str(s) else Raw(s)
    case Raw(s) => if h.rawToString && !h.writeExt then Str(s) else Raw(s)
    case List(items) => List(NormAll(items, h))
    case Map(pairs) => Map(NormPairs(pairs, h))
    case _ => v
  }

  function NormAll(vs: seq<Value>, h: Handle): (r: seq<Value>)
    ensures |r| == |vs|
    decreases vs
  {
    if vs == [] then [] else [Norm(vs[0], h)] + NormAll(vs[1..], h)
  }

  function NormPairs(vs: seq<Value>, h: Handle): (r: seq<Value>)
    ensures |r| == |vs|
    decreases vs
  {
    if vs == [] then [] else if |vs| == 1 then [Norm(vs[0], h)]
    else [Key(Norm(vs[0], h)), Norm(vs[1], h)] + NormPairs(vs[2..], h)
  }

  // ----- What can be encoded

  const MaxLength := 0x1_0000_0000

  /** Lengths fit into four bytes, and the keys of a map can be told apart after a round trip. */
  predicate Encodable(v: Value, h: Handle)
    decreases v
  {
    match v
    case Str(s) => |s| < MaxLength
    case Raw(s) => |s| < MaxLength
    case List(items) => |items| < MaxLength && EncodableAll(items, h)
    case Map(pairs) => |pairs| % 2 == 0 && |pairs| / 2 < MaxLength && EncodableAll(pairs, h) && GoodKeys(pairs, [], h)
    case _ => true
  }

  predicate EncodableAll(vs: seq<Value>, h: Handle)
    decreases vs
  {
    vs == [] || (Encodable(vs[0], h) && EncodableAll(vs[1..], h))
  }

  predicate GoodKeys(pairs: seq<Value>, seen: seq<Value>, h: Handle)
    decreases |pairs|
  {
    |pairs| < 2 ||
    var key := Key(Norm(pairs[0], h));
    Hashable(key) && key !in seen && GoodKeys(pairs[2..], seen + [key], h)
  }
}
