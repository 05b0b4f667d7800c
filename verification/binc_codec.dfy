/** codec/binc.go: the drivers that write and read strings and symbols, each with its own side of the dictionary. */
module BincCodec {
  import opened Bytes
  import opened CodecReader
  import opened CodecWriter
  import opened Sequences
  import opened Binc
  import opened BincSymbols

  class EncDriver {
    const w: BytesEncWriter
    var m: map<Text, nat>
    var s: nat

    constructor (w: BytesEncWriter)
      ensures this.w == w && State() == Sender(map[], 0)
    {
      this.w, m, s := w, map[], 0;
    }

    ghost function State(): Sender
      reads `m, `s
    {
      Sender(m, s)
    }

    twostate predicate Wrote(bytes: seq<byte>)
      requires old(w.Valid())
      reads w, w.b
    {
      w.Valid() && (w.b == old(w.b) || fresh(w.b)) && w.Contents() == old(w.Contents()) + bytes
    }

    method WriteTagged(bd: byte, n: nat, width: nat)
      requires w.Valid()
      modifies w, w.b
      ensures Wrote([bd] + BigEndian(n, width))
    {
      ghost var was := w.Contents();
      w.WriteN1(bd);
      w.WriteNumber(n, width);
      Associative(was, [bd], BigEndian(n, width));
    }

    method EncLenTo(vd: nat, l: nat)
      requires w.Valid() && vd < 16
      modifies w, w.b
      ensures Wrote(EncLen(vd, l))
    {
      var bd: nat := vd * 16;
      if l < 12 {
        w.WriteN1(bd + l + 4);
      } else if l <= 0xff {
        w.WriteN2(bd, l);
      } else if l <= 0xffff {
        WriteTagged(bd + 1, l, 2);
      } else if l <= 0xffff_ffff {
        WriteTagged(bd + 2, l, 4);
      } else {
        WriteTagged(bd + 3, l, 8);
      }
    }

    method EncodeString(v: Text)
      requires w.Valid()
      modifies w, w.b
      ensures Wrote(EncString(VdString, v))
    {
      ghost var was := w.Contents();
      EncLenTo(VdString, |v|);
      if |v| > 0 {
        w.WriteB(v);
      }
      Associative(was, EncLen(VdString, |v|), v);
      EmptyIsUnit(was + EncLen(VdString, |v|));
    }

    method WriteHead(flags: nat, id: nat)
      requires w.Valid() && flags < 8
      modifies w, w.b
      ensures Wrote(SymbolHead(flags, id))
    {
      if id <= 0xff {
        w.WriteN2(0xb0 + flags, id);
      } else {
        WriteTagged(0xb8 + flags, id, 2);
      }
    }

    method WriteDef(id: nat, v: Text)
      requires w.Valid()
      modifies w, w.b
      ensures Wrote(EncToken(Def(id, v)))
    {
      ghost var was := w.Contents();
      var lenprec := LenPrec(|v|);
      WriteHead(4 + lenprec, id);
      ghost var head := SymbolHead(4 + lenprec, id);
      w.WriteNumber(|v|, PrecWidth(lenprec));
      ghost var length := BigEndian(|v|, PrecWidth(lenprec));
      w.WriteB(v);
      Associative(head, length, v);
      Associative(was, head, length);
      Associative(was, head + length, v);
    }

    method EncodeSymbol(v: Text)
      requires w.Valid()
      modifies `m, `s, w, w.b
      ensures Wrote(EncToken(TokenFor(old(State()), v))) && State() == Sent(old(State()), v)
    {
      if |v| <= 1 {
        EncodeString(v);
        return;
      }
      ghost var was := State();
      if v in m {
        KnownToken(was, v);
        WriteHead(0, m[v]);
      } else {
        s := (s + 1) % Sequencer;
        var ui := s % Ids;
        NewToken(was, v, s, ui);
        m := m[v := ui];
        WriteDef(ui, v);
      }
    }
  }

  class DecDriver {
    const r: BytesDecReader
    var m: map<nat, Text>

    constructor (r: BytesDecReader)
      ensures this.r == r && m == map[]
    {
      this.r, m := r, map[];
    }

    /** decUint into a scratch array that is filled from its end. */
    method DecLenFrom(vs: nat) returns (n: Outcome<nat>)
      requires r.Valid()
      modifies r
      ensures r.Valid()
      ensures match DecLen(vs, old(r.Rest()))
        case NoNumber(e) => n == Panicked(e)
        case Number'(l, rest) => n == Got(l) && r.Rest() == rest
    {
      if vs <= 3 {
        n := r.ReadNumberOf(vs + 1);
      } else {
        n := Got(vs - 4);
      }
    }

    /** A string, in full or through the dictionary, from its descriptor on. */
    method DecodeString() returns (o: Outcome<Text>)
      requires r.Valid()
      modifies `m, r
      ensures r.Valid()
      ensures match DecToken(old(r.Rest()))
        case Broken(e) => o == Panicked(e)
        case Parsed(t, rest) => o == Got(Meaning(old(m), t)) && m == Learned(old(m), t) && r.Rest() == rest
    {
      var bd := r.ReadN1();
      if bd.Panicked? {
        return Panicked(bd.error);
      }
      var vd, vs := High(bd.value), Low(bd.value);
      assert DecToken(old(r.Rest())) == DecBehind(vd, vs, r.Rest());
      if vd == VdString || vd == VdByteArray {
        o := DecodePlain(vs);
      } else if vd == VdSymbol {
        o := DecodeSymbol(FlagsOf(vs));
      } else {
        o := Panicked(BadDescriptor);
      }
    }

    method DecodePlain(vs: nat) returns (o: Outcome<Text>)
      requires r.Valid()
      modifies r
      ensures r.Valid()
      ensures match DecPlain(vs, old(r.Rest()))
        case Broken(e) => o == Panicked(e)
        case Parsed(t, rest) => t.Plain? && o == Got(t.text) && r.Rest() == rest
    {
      var length := DecLenFrom(vs);
      if length.Panicked? {
        return Panicked(length.error);
      }
      o := r.ReadN(length.value);
    }

    method DecodeSymbol(f: Flags) returns (o: Outcome<Text>)
      requires r.Valid()
      modifies `m, r
      ensures r.Valid()
      ensures match DecSymbol(f, old(r.Rest()))
        case Broken(e) => o == Panicked(e)
        case Parsed(t, rest) => o == Got(Meaning(old(m), t)) && m == Learned(old(m), t) && r.Rest() == rest
    {
      var symbol := r.ReadNumberOf(if f.wide then 2 else 1);
      if symbol.Panicked? {
        return Panicked(symbol.error);
      }
      if f.def {
        o := DecodeDef(symbol.value, f.prec);
      } else {
        o := Got(if symbol.value in m then m[symbol.value] else []);
      }
    }

    method DecodeDef(id: nat, prec: nat) returns (o: Outcome<Text>)
      requires r.Valid()
      modifies `m, r
      ensures r.Valid()
      ensures match DecDef(id, prec, old(r.Rest()))
        case Broken(e) => o == Panicked(e)
        case Parsed(t, rest) => o == Got(Meaning(old(m), t)) && m == Learned(old(m), t) && r.Rest() == rest
    {
      var slen := r.ReadNumberOf(PrecWidth(prec));
      if slen.Panicked? {
        return Panicked(slen.error);
      }
      o := r.ReadN(AsInt(slen.value));
      if o.Got? {
        m := m[id := o.value];
      }
    }
  }

  lemma KnownToken(e: Sender, v: Text)
    requires |v| > 1 && v in e.m
    ensures TokenFor(e, v) == Ref(e.m[v]) && Sent(e, v) == e
  {
  }

  lemma NewToken(e: Sender, v: Text, s: nat, id: nat)
    requires |v| > 1 && v !in e.m && s == (e.s + 1) % Sequencer && id == s % Ids
    ensures TokenFor(e, v) == Def(id, v) && Sent(e, v) == Sender(e.m[v := id], s)
  {
  }
}
