/** Msgpack is self-delimiting: decoding an encoded value in front of anything gives the value, up to the merging of
    number and text types, and leaves exactly what was behind it. */
module MsgpackRoundTrip {
  import opened Bytes
  import opened CodecReader
  import opened Sequences
  import opened Msgpack

  /** The head of bytes that start with a descriptor. */
  function HeadOf(b: seq<byte>, h: Handle): Head
    requires b != []
  {
    ReadHead(b[0], b[1..], h)
  }

  lemma NumberBehind(b: seq<byte>, bd: byte, n: nat, width: nat, rest: seq<byte>)
    requires b == [bd] + BigEndian(n, width) + rest && n < Capacity(width)
    ensures b != [] && b[0] == bd && ReadNumber(b[1..], width) == Number'(n, rest)
  {
    assert b[1..] == BigEndian(n, width) + rest;
    ReadBack(n, width, rest);
  }

  lemma ByteBehind(b: seq<byte>, bd: byte, n: byte, rest: seq<byte>)
    requires b == [bd, n] + rest
    ensures b != [] && b[0] == bd && ReadNumber(b[1..], 1) == Number'(n, rest)
  {
    assert b[1..] == [n] + rest;
    OneByte(n, rest);
  }

  lemma HeadOfUint(u: uint64, rest: seq<byte>, h: Handle)
    ensures HeadOf(EncUint(u) + rest, h) == Scalar(Norm(Uint(u), h), rest)
  {
    var b := EncUint(u) + rest;
    Capacities();
    if u <= 0x7f {
      assert b[1..] == rest;
    } else if u <= 0xff {
      ByteBehind(b, 0xcc, u, rest);
    } else if u <= 0xffff {
      NumberBehind(b, 0xcd, u, 2, rest);
    } else if u <= 0xffff_ffff {
      NumberBehind(b, 0xce, u, 4, rest);
    } else {
      NumberBehind(b, 0xcf, u, 8, rest);
    }
  }

  lemma HeadOfInt(i: int64, rest: seq<byte>, h: Handle)
    ensures HeadOf(EncInt(i) + rest, h) == Scalar(Norm(Int(i), h), rest)
  {
    var b := EncInt(i) + rest;
    if i >= 0 {
      HeadOfUint(i, rest, h);
    } else if i >= -32 {
      assert b[1..] == rest;
    } else if i >= -0x80 {
      Capacities();
      ByteBehind(b, 0xd0, i + 0x100, rest);
    } else {
      HeadOfLongInt(i, rest, h);
    }
  }

  lemma HeadOfLongInt(i: int64, rest: seq<byte>, h: Handle)
    requires i < -0x80
    ensures HeadOf(EncInt(i) + rest, h) == Scalar(Int(i), rest)
  {
    var b := EncInt(i) + rest;
    Capacities();
    if i >= -0x8000 {
      NumberBehind(b, 0xd1, i + 0x1_0000, 2, rest);
    } else if i >= -0x8000_0000 {
      NumberBehind(b, 0xd2, i + 0x1_0000_0000, 4, rest);
    } else {
      NumberBehind(b, 0xd3, i + 0x1_0000_0000_0000_0000, 8, rest);
    }
  }

  /** Whether text in this container comes back as a string. */
  predicate IsString(ct: Container, h: Handle) {
    ct == StrType && h.rawToString
  }

  lemma HeadOfContainer(ct: Container, l: nat, rest: seq<byte>, h: Handle)
    requires l < MaxLength && (ct == BinType ==> h.writeExt)
    ensures HeadOf(Header(ct, l, h) + rest, h) == ContainerHead(ct, IsString(ct, h), l, rest)
  {
    var b := Header(ct, l, h) + rest;
    Capacities();
    if l < FixCutoff(ct) {
      assert b[1..] == rest;
    } else if l < 0x100 && (ct == BinType || (ct == StrType && h.writeExt)) {
      ByteBehind(b, B8(ct), l, rest);
    } else if l < 0x1_0000 {
      NumberBehind(b, B16(ct), l, 2, rest);
    } else {
      NumberBehind(b, B32(ct), l, 4, rest);
    }
  }

  // ----- Whole values

  lemma TextRoundTrip(ct: Container, s: seq<byte>, rest: seq<byte>, h: Handle)
    requires ct == StrType || (ct == BinType && h.writeExt)
    requires |s| < MaxLength
    ensures Dec(Header(ct, |s|, h) + s + rest, h) == Done(if IsString(ct, h) then Str(s) else Raw(s), rest)
  {
    var b := Header(ct, |s|, h) + (s + rest);
    assert Header(ct, |s|, h) + s + rest == b;
    HeadOfContainer(ct, |s|, s + rest, h);
    assert (s + rest)[..|s|] == s && (s + rest)[|s|..] == rest;
  }

  lemma {:induction false} RoundTrip(v: Value, rest: seq<byte>, h: Handle)
    requires Encodable(v, h)
    ensures Dec(Enc(v, h) + rest, h) == Done(Norm(v, h), rest)
    decreases v
  {
    match v
    case Nil => assert ([0xc0] + rest)[1..] == rest;
    case Bool(b) => assert (Enc(v, h) + rest)[1..] == rest;
    case Int(i) => HeadOfInt(i, rest, h);
    case Uint(u) => HeadOfUint(u, rest, h);
    case Str(s) => TextRoundTrip(StrType, s, rest, h);
    case Raw(s) => TextRoundTrip(RawType(h), s, rest, h);
    case List(items) =>
      RoundTripAll(items, rest, h);
      ListFromItems(items, EncAll(items, h), NormAll(items, h), rest, h);
    case Map(pairs) =>
      RoundTripPairs(pairs, |pairs| / 2, rest, [], h);
      MapFromPairs(|pairs| / 2, EncAll(pairs, h), NormPairs(pairs, h), rest, h);
  }

  lemma {:induction false} ListFromItems(items: seq<Value>, bytes: seq<byte>, vs: seq<Value>, rest: seq<byte>,
      h: Handle)
    requires |items| < MaxLength && DecAll(bytes + rest, |items|, h) == DoneAll(vs, rest)
    ensures Dec(Header(ListType, |items|, h) + bytes + rest, h) == Done(List(vs), rest)
  {
    Associative(Header(ListType, |items|, h), bytes, rest);
    HeadOfContainer(ListType, |items|, bytes + rest, h);
  }

  lemma {:induction false} MapFromPairs(n: nat, bytes: seq<byte>, vs: seq<Value>, rest: seq<byte>, h: Handle)
    requires n < MaxLength && DecPairs(bytes + rest, n, [], h) == DoneAll(vs, rest)
    ensures Dec(Header(MapType, n, h) + bytes + rest, h) == Done(Map(vs), rest)
  {
    Associative(Header(MapType, n, h), bytes, rest);
    HeadOfContainer(MapType, n, bytes + rest, h);
  }

  lemma {:induction false} RoundTripAll(vs: seq<Value>, rest: seq<byte>, h: Handle)
    requires EncodableAll(vs, h)
    ensures DecAll(EncAll(vs, h) + rest, |vs|, h) == DoneAll(NormAll(vs, h), rest)
    decreases vs
  {
    if vs == [] {
      assert [] + rest == rest;
    } else {
      Associative(Enc(vs[0], h), EncAll(vs[1..], h), rest);
      RoundTrip(vs[0], EncAll(vs[1..], h) + rest, h);
      RoundTripAll(vs[1..], rest, h);
    }
  }

  lemma {:induction false} RoundTripPairs(vs: seq<Value>, n: nat, rest: seq<byte>, seen: seq<Value>, h: Handle)
    requires |vs| == 2 * n && EncodableAll(vs, h) && GoodKeys(vs, seen, h)
    ensures DecPairs(EncAll(vs, h) + rest, n, seen, h) == DoneAll(NormPairs(vs, h), rest)
    decreases vs
  {
    if vs == [] {
      EmptyIsUnit(rest);
    } else {
      var k, v, more := vs[0], vs[1], vs[2..];
      var tail := EncAll(more, h) + rest;
      var key, m := Key(Norm(k, h)), n - 1;
      EncodablePair(vs, h);
      RoundTrip(k, Enc(v, h) + tail, h);
      RoundTrip(v, tail, h);
      FirstPair(vs, rest, seen, h);
      RoundTripPairs(more, m, rest, seen + [key], h);
      OnePair(key, Norm(v, h), tail, n, m, seen, NormPairs(more, h), rest, h);
      NormPairsFirst(vs, h);
    }
  }

  lemma {:induction false} FirstPair(vs: seq<Value>, rest: seq<byte>, seen: seq<Value>, h: Handle)
    requires |vs| >= 2 && EncodableAll(vs, h) && CheckKey(Norm(vs[0], h), seen) == Fresh(Key(Norm(vs[0], h)))
    requires var tail := EncAll(vs[2..], h) + rest;
      && Dec(Enc(vs[0], h) + (Enc(vs[1], h) + tail), h) == Done(Norm(vs[0], h), Enc(vs[1], h) + tail)
      && Dec(Enc(vs[1], h) + tail, h) == Done(Norm(vs[1], h), tail)
    ensures DecPair(EncAll(vs, h) + rest, seen, h) ==
            DonePair(Key(Norm(vs[0], h)), Norm(vs[1], h), EncAll(vs[2..], h) + rest)
  {
    var tail := EncAll(vs[2..], h) + rest;
    PairFirst(vs, rest, h);
    PairOf(EncAll(vs, h) + rest, Norm(vs[0], h), Enc(vs[1], h) + tail, Norm(vs[1], h), tail, seen, h);
  }

  lemma {:induction false} PairFirst(vs: seq<Value>, rest: seq<byte>, h: Handle)
    requires |vs| >= 2 && EncodableAll(vs, h)
    ensures EncAll(vs, h) + rest == Enc(vs[0], h) + (Enc(vs[1], h) + (EncAll(vs[2..], h) + rest))
    ensures Encodable(vs[0], h) && Encodable(vs[1], h) && EncodableAll(vs[2..], h)
  {
    EncodablePair(vs, h);
    assert vs[1..][1..] == vs[2..] && vs[1..][0] == vs[1];
    Associative(Enc(vs[1], h), EncAll(vs[2..], h), rest);
    Associative(Enc(vs[0], h), EncAll(vs[1..], h), rest);
  }

  lemma {:induction false} OnePair(k: Value, v: Value, b: seq<byte>, n: nat, m: nat, seen: seq<Value>, more: seq<Value>,
                rest: seq<byte>, h: Handle)
    requires n == m + 1 && DecPairs(b, m, seen + [k], h) == DoneAll(more, rest)
    ensures BehindPair(DonePair(k, v, b), n, seen, h) == DoneAll([k, v] + more, rest)
  {
    assert n - 1 == m;
  }

  lemma {:induction false} PairOf(b: seq<byte>, k: Value, b1: seq<byte>, v: Value, b2: seq<byte>, seen: seq<Value>,
      h: Handle)
    requires Dec(b, h) == Done(k, b1) && Dec(b1, h) == Done(v, b2) && CheckKey(k, seen) == Fresh(Key(k))
    ensures DecPair(b, seen, h) == DonePair(Key(k), v, b2)
  {
  }

  lemma {:induction false} NormPairsFirst(vs: seq<Value>, h: Handle)
    requires |vs| >= 2
    ensures NormPairs(vs, h) == [Key(Norm(vs[0], h)), Norm(vs[1], h)] + NormPairs(vs[2..], h)
  {
  }

  /** No encoding is the beginning of another: what is equal as bytes was equal, up to the merged types. */
  lemma SelfDelimiting(v: Value, w: Value, r: seq<byte>, s: seq<byte>, h: Handle)
    requires Encodable(v, h) && Encodable(w, h) && Enc(v, h) + r == Enc(w, h) + s
    ensures Norm(v, h) == Norm(w, h) && r == s
  {
    RoundTrip(v, r, h);
    RoundTrip(w, s, h);
  }

  // ----- Decoded values

  lemma {:induction false} NormTwice(v: Value, h: Handle)
    ensures Norm(Norm(v, h), h) == Norm(v, h)
    decreases v, 0
  {
    match v
    case List(items) => NormAllTwice(items, h);
    case Map(pairs) => NormPairsTwice(pairs, h);
    case _ =>
  }

  lemma {:induction false} NormAllTwice(vs: seq<Value>, h: Handle)
    ensures NormAll(NormAll(vs, h), h) == NormAll(vs, h)
    decreases vs
  {
    if vs != [] {
      NormTwice(vs[0], h);
      NormAllTwice(vs[1..], h);
      assert NormAll(vs, h)[1..] == NormAll(vs[1..], h);
    }
  }

  lemma {:induction false} NormKeyTwice(k: Value, h: Handle)
    ensures Key(Norm(Key(Norm(k, h)), h)) == Key(Norm(k, h))
    decreases k, 1
  {
    NormTwice(k, h);
  }

  lemma {:induction false} NormPairsTwice(vs: seq<Value>, h: Handle)
    ensures NormPairs(NormPairs(vs, h), h) == NormPairs(vs, h)
    decreases vs
  {
    if |vs| == 1 {
      NormTwice(vs[0], h);
    } else if |vs| > 1 {
      NormKeyTwice(vs[0], h);
      NormTwice(vs[1], h);
      NormPairsTwice(vs[2..], h);
      NormPairsFirst(vs, h);
      var r := NormPairs(vs, h);
      assert r[2..] == NormPairs(vs[2..], h) && r[0] == Key(Norm(vs[0], h)) && r[1] == Norm(vs[1], h);
      NormPairsFirst(r, h);
    }
  }

  lemma {:induction false} NormIsEncodable(v: Value, h: Handle)
    requires Encodable(v, h)
    ensures Encodable(Norm(v, h), h)
    decreases v
  {
    match v
    case List(items) => NormAllIsEncodable(items, h);
    case Map(pairs) =>
      NormPairsAreEncodable(pairs, h);
      NormKeysAreGood(pairs, [], h);
    case _ =>
  }

  lemma {:induction false} NormAllIsEncodable(vs: seq<Value>, h: Handle)
    requires EncodableAll(vs, h)
    ensures EncodableAll(NormAll(vs, h), h)
    decreases vs
  {
    if vs != [] {
      NormIsEncodable(vs[0], h);
      NormAllIsEncodable(vs[1..], h);
      assert NormAll(vs, h)[1..] == NormAll(vs[1..], h);
    }
  }

  lemma {:induction false} EncodablePair(vs: seq<Value>, h: Handle)
    requires |vs| >= 2 && EncodableAll(vs, h)
    ensures Encodable(vs[0], h) && Encodable(vs[1], h) && EncodableAll(vs[2..], h)
  {
    assert vs[1..][1..] == vs[2..] && vs[1..][0] == vs[1];
  }

  lemma {:induction false} EncodableTwo(k: Value, v: Value, more: seq<Value>, h: Handle)
    requires Encodable(k, h) && Encodable(v, h) && EncodableAll(more, h)
    ensures EncodableAll([k, v] + more, h)
  {
    EncodableCons(v, more, h);
    EncodableCons(k, [v] + more, h);
    assert [k, v] + more == [k] + ([v] + more);
  }

  lemma {:induction false} EncodableCons(v: Value, vs: seq<Value>, h: Handle)
    requires Encodable(v, h) && EncodableAll(vs, h)
    ensures EncodableAll([v] + vs, h)
  {
    assert ([v] + vs)[1..] == vs;
  }

  lemma {:induction false} NormPairsAreEncodable(vs: seq<Value>, h: Handle)
    requires EncodableAll(vs, h)
    ensures EncodableAll(NormPairs(vs, h), h)
    decreases vs
  {
    if |vs| == 1 {
      NormIsEncodable(vs[0], h);
      EncodableCons(Norm(vs[0], h), [], h);
    } else if |vs| > 1 {
      var more := NormPairs(vs[2..], h);
      EncodablePair(vs, h);
      NormIsEncodable(vs[0], h);
      NormIsEncodable(vs[1], h);
      NormPairsAreEncodable(vs[2..], h);
      NormPairsFirst(vs, h);
      EncodableTwo(Key(Norm(vs[0], h)), Norm(vs[1], h), more, h);
    }
  }

  lemma {:induction false} NormKeysAreGood(vs: seq<Value>, seen: seq<Value>, h: Handle)
    requires GoodKeys(vs, seen, h)
    ensures GoodKeys(NormPairs(vs, h), seen, h)
    decreases |vs|
  {
    if |vs| > 1 {
      NormKeyTwice(vs[0], h);
      NormKeysAreGood(vs[2..], seen + [Key(Norm(vs[0], h))], h);
      NormPairsFirst(vs, h);
      assert NormPairs(vs, h)[2..] == NormPairs(vs[2..], h);
    }
  }

  /** What a decoder has returned survives any further trip unchanged. */
  lemma DecodedIsStable(v: Value, rest: seq<byte>, h: Handle)
    requires Encodable(v, h)
    ensures Dec(Enc(Norm(v, h), h) + rest, h) == Done(Norm(v, h), rest)
  {
    NormIsEncodable(v, h);
    NormTwice(v, h);
    RoundTrip(Norm(v, h), rest, h);
  }
}
