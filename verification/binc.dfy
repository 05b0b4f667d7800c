/** The binc format of go-msgpack, as far as strings go: lengths, and the dictionary of symbols that an encoder and a
    decoder keep in step without ever exchanging it. */
module Binc {
  import opened Bytes
  import opened CodecReader
  import opened Sequences

  type Text = seq<byte>

  const VdString: nat := 4
  const VdByteArray: nat := 5
  const VdSymbol: nat := 11

  // ----- Descriptors

  /** b >> 4 */
  function High(b: nat): nat {
    if b < 16 then 0 else 1 + High(b - 16)
  }

  /** b & 0x0f */
  function Low(b: nat): (l: nat)
    ensures l < 16
  {
    if b < 16 then b else Low(b - 16)
  }

  lemma {:induction false} Nibbles(vd: nat, vs: nat)
    requires vs < 16
    ensures High(vd * 16 + vs) == vd && Low(vd * 16 + vs) == vs
    decreases vd
  {
    if vd > 0 {
      Nibbles(vd - 1, vs);
    }
  }

  /** The four flag bits of a symbol: a wide id, a definition, and the precision of its length. */
  datatype Flags = Flags(wide: bool, def: bool, prec: nat)

  function FlagsOf(vs: nat): (f: Flags)
    requires vs < 16
    ensures f.prec < 4
  {
    var three := if vs >= 8 then vs - 8 else vs;
    Flags(vs >= 8, three >= 4, if three >= 4 then three - 4 else three)
  }

  // ----- Lengths and strings

  /** Short lengths stand in the descriptor; longer ones behind it, in 1, 2, 4 or 8 bytes. */
  function EncLen(vd: nat, l: nat): seq<byte>
    requires vd < 16
  {
    var bd: nat := vd * 16;
    if l < 12 then [bd + l + 4]
    else if l <= 0xff then [bd, l]
    else if l <= 0xffff then [bd + 1] + BigEndian(l, 2)
    else if l <= 0xffff_ffff then [bd + 2] + BigEndian(l, 4)
    else [bd + 3] + BigEndian(l, 8)
  }

  function EncString(vd: nat, s: Text): seq<byte>
    requires vd < 16
  {
    EncLen(vd, |s|) + s
  }

  /** The decoder takes the length from 1, 2, 3 or 4 bytes. */
  function DecLen(vs: nat, b: seq<byte>): Read {
    if vs <= 3 then ReadNumber(b, vs + 1) else Number'(vs - 4, b)
  }

  // ----- Tokens

  /** What a string is sent as: in full, as a symbol that is defined on the way, or as one known from before. */
  datatype Token = Plain(text: Text) | Ref(id: nat) | Def(id: nat, text: Text)

  /** The precision of a definition's length. */
  function LenPrec(l: nat): (p: nat)
    ensures p < 4
  {
    if l <= 0xff then 0 else if l <= 0xffff then 1 else if l <= 0xffff_ffff then 2 else 3
  }

  function PrecWidth(p: nat): nat {
    if p == 0 then 1 else if p == 1 then 2 else if p == 2 then 4 else 8
  }

  function SymbolHead(flags: nat, id: nat): seq<byte>
    requires flags < 8
  {
    if id <= 0xff then [0xb0 + flags, id] else [0xb8 + flags] + BigEndian(id, 2)
  }

  function EncToken(t: Token): seq<byte> {
    match t
    case Plain(text) => EncString(VdString, text)
    case Ref(id) => SymbolHead(0, id)
    case Def(id, text) =>
      SymbolHead(4 + LenPrec(|text|), id) + (BigEndian(|text|, PrecWidth(LenPrec(|text|))) + text)
  }

  datatype Parsed = Parsed(t: Token, rest: seq<byte>) | Broken(error: Error)

  function ReadText(n: nat, b: seq<byte>): Parsed {
    if n > |b| then Broken(Missing(|b|)) else Parsed(Plain(b[..n]), b[n..])
  }

  /** A length of 64 bits turns negative as an int when it is too large, and then nothing is read. */
  function AsInt(n: nat): nat {
    if n < 0x8000_0000_0000_0000 then n else 0
  }

  function DecPlain(vs: nat, b: seq<byte>): Parsed {
    match DecLen(vs, b)
    case NoNumber(e) => Broken(e)
    case Number'(n, rest) => ReadText(n, rest)
  }

  function DecDef(id: nat, prec: nat, b: seq<byte>): Parsed {
    match ReadNumber(b, PrecWidth(prec))
    case NoNumber(e) => Broken(e)
    case Number'(n, rest) =>
      var text := ReadText(AsInt(n), rest);
      if text.Broken? then text else Parsed(Def(id, text.t.text), text.rest)
  }

  function DecSymbol(f: Flags, b: seq<byte>): Parsed {
    match ReadNumber(b, if f.wide then 2 else 1)
    case NoNumber(e) => Broken(e)
    case Number'(id, rest) => if f.def then DecDef(id, f.prec, rest) else Parsed(Ref(id), rest)
  }

  /** A token whose descriptor is split already. */
  function DecBehind(vd: nat, vs: nat, b: seq<byte>): Parsed
    requires vs < 16
  {
    if vd == VdString || vd == VdByteArray then DecPlain(vs, b)
    else if vd == VdSymbol then DecSymbol(FlagsOf(vs), b)
    else Broken(BadDescriptor)
  }

  function DecToken(b: seq<byte>): Parsed {
    if b == [] then Broken(Eof) else DecBehind(High(b[0]), Low(b[0]), b[1..])
  }

  // ----- Plain strings

  lemma TextBack(s: Text, rest: seq<byte>)
    ensures ReadText(|s|, s + rest) == Parsed(Plain(s), rest)
  {
    assert (s + rest)[..|s|] == s && (s + rest)[|s|..] == rest;
  }

  /** A token behind its descriptor. */
  lemma DescriptorBack(vd: nat, vs: nat, b: seq<byte>, more: seq<byte>)
    requires vd < 16 && vs < 16 && b == [vd * 16 + vs] + more
    ensures DecToken(b) == DecBehind(vd, vs, more)
  {
    assert b[0] == vd * 16 + vs && b[1..] == more;
    Nibbles(vd, vs);
  }

  lemma ShortBack(vd: nat, s: Text, rest: seq<byte>)
    requires vd == VdString || vd == VdByteArray
    requires |s| <= 0xffff
    ensures DecToken(EncString(vd, s) + rest) == Parsed(Plain(s), rest)
  {
    var l, b, more := |s|, EncString(vd, s) + rest, s + rest;
    Associative(EncLen(vd, l), s, rest);
    TextBack(s, rest);
    Capacities();
    if l < 12 {
      DescriptorBack(vd, l + 4, b, more);
    } else if l <= 0xff {
      assert b == [vd * 16 + 0] + ([l] + more);
      DescriptorBack(vd, 0, b, [l] + more);
      OneByte(l, more);
    } else {
      assert b == [vd * 16 + 1] + (BigEndian(l, 2) + more);
      DescriptorBack(vd, 1, b, BigEndian(l, 2) + more);
      ReadBack(l, 2, more);
    }
  }

  /** The decoder's view of a longer length: it reads fewer bytes than were written, so the length shrinks. */
  lemma LongIsShortened(l: nat, width: nat, read: nat, b: seq<byte>)
    requires 0 < read < width && 0 < l < Capacity(width)
    ensures var r := ReadNumber(BigEndian(l, width) + b, read); r.Number'? && r.n < l
  {
    var bytes := BigEndian(l, width);
    assert (bytes + b)[..read] == bytes[..read];
    NumberOfBigEndian(l, width);
    PrefixIsSmaller(bytes, read);
  }

  lemma {:induction false} PrefixIsSmaller(b: seq<byte>, n: nat)
    requires n < |b| && Number(b) > 0
    ensures Number(b[..n]) < Number(b)
    decreases |b|
  {
    var init := b[..|b| - 1];
    if n == |b| - 1 {
      NumberGrows(b);
    } else {
      assert b[..n] == init[..n];
      NumberGrows(b);
      if Number(init) > 0 {
        PrefixIsSmaller(init, n);
      } else {
        ZeroPrefix(init, n);
      }
    }
  }

  lemma NumberGrows(b: seq<byte>)
    requires b != [] && Number(b) > 0
    ensures Number(b[..|b| - 1]) < Number(b)
  {
  }

  lemma {:induction false} ZeroPrefix(b: seq<byte>, n: nat)
    requires n <= |b| && Number(b) == 0
    ensures Number(b[..n]) == 0
    decreases |b|
  {
    if n < |b| {
      ZeroPrefix(b[..|b| - 1], n);
      assert b[..|b| - 1][..n] == b[..n];
    } else {
      assert b[..n] == b;
    }
  }

  /** A string that is sent in full survives exactly when its length fits into two bytes: beyond that the encoder
      writes 4 or 8 bytes of length where the decoder reads 3 or 4. */
  lemma StringRoundTripIff(vd: nat, s: Text, rest: seq<byte>)
    requires vd == VdString || vd == VdByteArray
    requires |s| < 0x8000_0000_0000_0000
    ensures DecToken(EncString(vd, s) + rest) == Parsed(Plain(s), rest) <==> |s| <= 0xffff
  {
    var l, b := |s|, EncString(vd, s) + rest;
    if l <= 0xffff {
      ShortBack(vd, s, rest);
    } else {
      Capacities();
      Associative(EncLen(vd, l), s, rest);
      var wide := l > 0xffff_ffff;
      var width, read := if wide then 8 else 4, if wide then 4 else 3;
      assert b == [vd * 16 + (read - 1)] + (BigEndian(l, width) + (s + rest));
      DescriptorBack(vd, read - 1, b, BigEndian(l, width) + (s + rest));
      LongIsShortened(l, width, read, s + rest);
    }
  }

  // ----- Symbols on the wire

  lemma SymbolHeadBack(flags: nat, id: nat, b: seq<byte>, more: seq<byte>)
    requires flags < 8 && id < 0x1_0000 && b == SymbolHead(flags, id) + more
    ensures DecToken(b) == if flags >= 4 then DecDef(id, flags - 4, more) else Parsed(Ref(id), more)
  {
    Capacities();
    if id <= 0xff {
      assert b == [VdSymbol * 16 + flags] + ([id] + more);
      DescriptorBack(VdSymbol, flags, b, [id] + more);
      OneByte(id, more);
    } else {
      assert b == [VdSymbol * 16 + (8 + flags)] + (BigEndian(id, 2) + more);
      DescriptorBack(VdSymbol, 8 + flags, b, BigEndian(id, 2) + more);
      ReadBack(id, 2, more);
    }
  }

  predicate Sendable(t: Token) {
    match t
    case Plain(text) => |text| <= 0xffff
    case Ref(id) => id < 0x1_0000
    case Def(id, text) => id < 0x1_0000 && |text| < 0x8000_0000_0000_0000
  }

  lemma PrecisionFits(l: nat)
    requires l < 0x8000_0000_0000_0000
    ensures l < Capacity(PrecWidth(LenPrec(l)))
  {
    Capacities();
  }

  lemma DefBack(id: nat, text: Text, prec: nat, width: nat, rest: seq<byte>)
    requires |text| < 0x8000_0000_0000_0000 && width == PrecWidth(prec) && |text| < Capacity(width)
    ensures DecDef(id, prec, BigEndian(|text|, width) + (text + rest)) == Parsed(Def(id, text), rest)
  {
    ReadBack(|text|, width, text + rest);
    TextBack(text, rest);
  }

  lemma DefRoundTrip(id: nat, text: Text, rest: seq<byte>)
    requires id < 0x1_0000 && |text| < 0x8000_0000_0000_0000
    ensures DecToken(EncToken(Def(id, text)) + rest) == Parsed(Def(id, text), rest)
  {
    var prec, width := LenPrec(|text|), PrecWidth(LenPrec(|text|));
    var flags, length := 4 + prec, BigEndian(|text|, width);
    var b, more := EncToken(Def(id, text)) + rest, length + (text + rest);
    assert b == SymbolHead(flags, id) + more by {
      Associative(SymbolHead(flags, id), length + text, rest);
      Associative(length, text, rest);
    }
    SymbolHeadBack(flags, id, b, more);
    PrecisionFits(|text|);
    DefBack(id, text, prec, width, rest);
  }

  /** Tokens are self-delimiting. */
  lemma TokenRoundTrip(t: Token, rest: seq<byte>)
    requires Sendable(t)
    ensures DecToken(EncToken(t) + rest) == Parsed(t, rest)
  {
    match t
    case Plain(text) => ShortBack(VdString, text, rest);
    case Ref(id) => SymbolHeadBack(0, id, EncToken(t) + rest, rest);
    case Def(id, text) => DefRoundTrip(id, text, rest);
  }
}
