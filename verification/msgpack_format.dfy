/** The msgpack format byte by byte: what each descriptor stands for, and that the encoder always takes the shortest. */
module MsgpackFormat {
  import opened Bytes
  import opened CodecReader
  import opened Msgpack
  import opened MsgpackRoundTrip

  /** Descriptors that say everything. */
  lemma SmallDescriptors(bd: byte, b: seq<byte>, h: Handle)
    ensures bd <= 0x7f ==> ReadHead(bd, b, h) == Scalar(Int(bd), b)
    ensures bd >= 0xe0 ==> ReadHead(bd, b, h) == Scalar(Int(bd - 0x100), b)
    ensures bd == 0xc0 ==> ReadHead(bd, b, h) == Scalar(Nil, b)
    ensures bd == 0xc2 ==> ReadHead(bd, b, h) == Scalar(Bool(false), b)
    ensures bd == 0xc3 ==> ReadHead(bd, b, h) == Scalar(Bool(true), b)
    ensures 0x80 <= bd <= 0x8f ==> ReadHead(bd, b, h) == Pairs(bd - 0x80, b)
    ensures 0x90 <= bd <= 0x9f ==> ReadHead(bd, b, h) == Items(bd - 0x90, b)
    ensures 0xa0 <= bd <= 0xbf ==> ReadHead(bd, b, h) == Text(h.rawToString, bd - 0xa0, b)
    ensures bd == 0xc1 ==> ReadHead(bd, b, h) == Bad(BadDescriptor)
  {
  }

  /** Unsigned numbers of 1, 2, 4 and 8 bytes. */
  lemma UintDescriptors(n: nat, rest: seq<byte>, h: Handle)
    ensures n < 0x100 ==> ReadHead(0xcc, BigEndian(n, 1) + rest, h) == Scalar(Uint(n), rest)
    ensures n < 0x1_0000 ==> ReadHead(0xcd, BigEndian(n, 2) + rest, h) == Scalar(Uint(n), rest)
    ensures n < 0x1_0000_0000 ==> ReadHead(0xce, BigEndian(n, 4) + rest, h) == Scalar(Uint(n), rest)
    ensures n < 0x1_0000_0000_0000_0000 ==> ReadHead(0xcf, BigEndian(n, 8) + rest, h) == Scalar(Uint(n), rest)
  {
    Capacities();
    if n < 0x100 {
      ReadBack(n, 1, rest);
    }
    if n < 0x1_0000 {
      ReadBack(n, 2, rest);
    }
    if n < 0x1_0000_0000 {
      ReadBack(n, 4, rest);
    }
    if n < 0x1_0000_0000_0000_0000 {
      ReadBack(n, 8, rest);
    }
  }

  function TwosComplement(n: nat, size: nat): int {
    if n < size / 2 then n else n - size
  }

  /** Signed numbers of 1, 2, 4 and 8 bytes. */
  lemma IntDescriptor1(n: nat, rest: seq<byte>, h: Handle)
    requires n < 0x100
    ensures ReadHead(0xd0, BigEndian(n, 1) + rest, h) == Scalar(Int(TwosComplement(n, 0x100)), rest)
  {
    Capacities();
    ReadBack(n, 1, rest);
  }

  lemma IntDescriptor2(n: nat, rest: seq<byte>, h: Handle)
    requires n < 0x1_0000
    ensures ReadHead(0xd1, BigEndian(n, 2) + rest, h) == Scalar(Int(TwosComplement(n, 0x1_0000)), rest)
  {
    Capacities();
    ReadBack(n, 2, rest);
  }

  lemma IntDescriptor4(n: nat, rest: seq<byte>, h: Handle)
    requires n < 0x1_0000_0000
    ensures ReadHead(0xd2, BigEndian(n, 4) + rest, h) == Scalar(Int(TwosComplement(n, 0x1_0000_0000)), rest)
  {
    Capacities();
    ReadBack(n, 4, rest);
  }

  lemma IntDescriptor8(n: nat, rest: seq<byte>, h: Handle)
    requires n < 0x1_0000_0000_0000_0000
    ensures ReadHead(0xd3, BigEndian(n, 8) + rest, h) == Scalar(Int(TwosComplement(n, 0x1_0000_0000_0000_0000)), rest)
  {
    Capacities();
    ReadBack(n, 8, rest);
  }

  /** Lengths of strings, and of byte slices. */
  lemma StrDescriptor1(n: nat, rest: seq<byte>, h: Handle)
    requires n < 0x100
    ensures ReadHead(0xd9, BigEndian(n, 1) + rest, h) == Text(h.rawToString, n, rest)
  {
    Capacities();
    ReadBack(n, 1, rest);
  }

  lemma StrDescriptor2(n: nat, rest: seq<byte>, h: Handle)
    requires n < 0x1_0000
    ensures ReadHead(0xda, BigEndian(n, 2) + rest, h) == Text(h.rawToString, n, rest)
  {
    Capacities();
    ReadBack(n, 2, rest);
  }

  lemma StrDescriptor4(n: nat, rest: seq<byte>, h: Handle)
    requires n < 0x1_0000_0000
    ensures ReadHead(0xdb, BigEndian(n, 4) + rest, h) == Text(h.rawToString, n, rest)
  {
    Capacities();
    ReadBack(n, 4, rest);
  }

  lemma BinDescriptor1(n: nat, rest: seq<byte>, h: Handle)
    requires n < 0x100
    ensures ReadHead(0xc4, BigEndian(n, 1) + rest, h) == Text(false, n, rest)
  {
    Capacities();
    ReadBack(n, 1, rest);
  }

  lemma BinDescriptor2(n: nat, rest: seq<byte>, h: Handle)
    requires n < 0x1_0000
    ensures ReadHead(0xc5, BigEndian(n, 2) + rest, h) == Text(false, n, rest)
  {
    Capacities();
    ReadBack(n, 2, rest);
  }

  lemma BinDescriptor4(n: nat, rest: seq<byte>, h: Handle)
    requires n < 0x1_0000_0000
    ensures ReadHead(0xc6, BigEndian(n, 4) + rest, h) == Text(false, n, rest)
  {
    Capacities();
    ReadBack(n, 4, rest);
  }

  /** Lengths of arrays and maps. */
  lemma ContainerDescriptors(n: nat, rest: seq<byte>, h: Handle)
    ensures n < 0x1_0000 ==> ReadHead(0xdc, BigEndian(n, 2) + rest, h) == Items(n, rest)
    ensures n < 0x1_0000_0000 ==> ReadHead(0xdd, BigEndian(n, 4) + rest, h) == Items(n, rest)
    ensures n < 0x1_0000 ==> ReadHead(0xde, BigEndian(n, 2) + rest, h) == Pairs(n, rest)
    ensures n < 0x1_0000_0000 ==> ReadHead(0xdf, BigEndian(n, 4) + rest, h) == Pairs(n, rest)
  {
    Capacities();
    if n < 0x1_0000 {
      ReadBack(n, 2, rest);
    }
    if n < 0x1_0000_0000 {
      ReadBack(n, 4, rest);
    }
  }

  // ----- The shortest form

  /** No other bytes that say the same number are shorter. */
  lemma UintIsShortest(u: uint64, b: seq<byte>, h: Handle)
    requires b != [] && HeadOf(b, h) == Scalar(Norm(Uint(u), h), [])
    ensures |EncUint(u)| <= |b|
  {
    Capacities();
  }

  lemma IntIsShortest(i: int64, b: seq<byte>, h: Handle)
    requires b != [] && HeadOf(b, h) == Scalar(Norm(Int(i), h), [])
    ensures |EncInt(i)| <= |b|
  {
    Capacities();
    if i >= 0 {
      assert Norm(Int(i), h) == Norm(Uint(i), h);
      UintIsShortest(i, b, h);
    }
  }

  /** Nor are other headers for the same length, with one exception: unless extensions are written, a string of
      32 to 255 bytes has a header of three bytes, although the decoder knows one of two. */
  lemma HeaderIsShortest(ct: Container, l: nat, b: seq<byte>, h: Handle)
    requires b != [] && Describes(ct, b[0]) && l < MaxLength
    requires HeadOf(b, h) == ContainerHead(ct, IsString(ct, h), l, [])
    ensures if ct == StrType && !h.writeExt && 32 <= l < 256 then |Header(ct, l, h)| == 3
            else |Header(ct, l, h)| <= |b|
  {
    Capacities();
  }

  /** How long headers are. */
  lemma HeaderLengths(ct: Container, l: nat, h: Handle)
    requires l < MaxLength
    ensures |Header(ct, l, h)| ==
      if (ct == StrType && l < 32) || ((ct == ListType || ct == MapType) && l < 16) then 1
      else if l < 256 && (ct == BinType || (ct == StrType && h.writeExt)) then 2
      else if l < 65536 then 3
      else 5
  {
  }

  /** Nil and booleans take one byte; text is written as bytes exactly when extensions are on and it is a byte slice. */
  lemma OneByteValues(h: Handle, s: seq<byte>)
    ensures Enc(Nil, h) == [0xc0] && Enc(Bool(false), h) == [0xc2] && Enc(Bool(true), h) == [0xc3]
    ensures |s| < 32 ==> Enc(Str(s), h) == [0xa0 + |s|] + s
    ensures |s| < 256 && h.writeExt ==> Enc(Raw(s), h) == [0xc4, |s|] + s
    ensures !h.writeExt ==> Enc(Raw(s), h) == Enc(Str(s), h)
  {
  }
}
