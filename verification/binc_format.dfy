/** The bytes of binc strings, and how a symbol is sent: in full the first time and by two or three bytes after that. */
module BincFormat {
  import opened Bytes
  import opened Sequences
  import opened Binc
  import opened BincSymbols

  // ----- Bytes

  lemma PlainBytes(s: Text)
    ensures |s| < 12 ==> EncToken(Plain(s)) == [0x44 + |s|] + s
    ensures 12 <= |s| < 0x100 ==> EncToken(Plain(s)) == [0x40, |s|] + s
    ensures 0x100 <= |s| < 0x1_0000 ==> EncToken(Plain(s)) == [0x41, |s| / 0x100, |s| % 0x100] + s
  {
    if 0x100 <= |s| < 0x1_0000 {
      BigEndian2(|s|);
    }
  }

  /** The descriptor of a symbol and its id. */
  lemma HeadBytes(flags: nat, id: nat)
    requires flags < 8 && id < 0x1_0000
    ensures SymbolHead(flags, id) == if id < 0x100 then [0xb0 + flags, id] else [0xb8 + flags, id / 0x100, id % 0x100]
  {
    BigEndian2(id);
  }

  lemma RefBytes(id: nat)
    requires id < 0x1_0000
    ensures EncToken(Ref(id)) == if id < 0x100 then [0xb0, id] else [0xb8, id / 0x100, id % 0x100]
  {
    HeadBytes(0, id);
  }

  lemma ShortDefBytes(id: nat, s: Text)
    requires id < 0x1_0000 && |s| < 0x100
    ensures EncToken(Def(id, s)) ==
      (if id < 0x100 then [0xb4, id] else [0xbc, id / 0x100, id % 0x100]) + ([|s|] + s)
  {
    HeadBytes(4, id);
    BigEndian1(|s|);
  }

  lemma LongDefBytes(id: nat, s: Text)
    requires id < 0x1_0000 && 0x100 <= |s| < 0x1_0000
    ensures EncToken(Def(id, s)) ==
      (if id < 0x100 then [0xb5, id] else [0xbd, id / 0x100, id % 0x100]) + ([|s| / 0x100, |s| % 0x100] + s)
  {
    assert LenPrec(|s|) == 1;
    HeadBytes(5, id);
    BigEndian2(|s|);
  }

  // ----- Runs

  lemma {:induction false} TokenInRun(defs: seq<Text>, vs: seq<Text>, i: nat)
    requires i < |vs|
    ensures SendAll(SenderOf(defs), vs)[i] == TokenFor(SenderOf(DefsAfter(defs, vs, i)), vs[i])
    decreases i
  {
    if i > 0 {
      GrownSender(defs, vs[0]);
      TokenInRun(Grown(defs, vs[0]), vs[1..], i - 1);
    }
  }

  lemma {:induction false} DefinedBefore(defs: seq<Text>, vs: seq<Text>, i: nat, v: Text)
    requires i <= |vs|
    ensures v in DefsAfter(defs, vs, i) <==> v in defs || (|v| > 1 && v in vs[..i])
    decreases i
  {
    if i > 0 {
      DefinedBefore(Grown(defs, vs[0]), vs[1..], i - 1, v);
      assert vs[..i] == [vs[0]] + vs[1..][..i - 1];
      assert v in Grown(defs, vs[0]) <==> v in defs || (|v| > 1 && v == vs[0]);
    }
  }

  lemma KnownIsReferred(defs: seq<Text>, v: Text)
    requires Distinct(defs) && v in defs && |v| > 1
    ensures var t := TokenFor(SenderOf(defs), v); t.Ref? && t.id < 0x1_0000 && |EncToken(t)| <= 3
  {
    SenderKnows(defs, v);
    SenderHas(defs, IndexOf(defs, v));
    RefBytes(SenderMap(defs)[v]);
  }

  lemma NewIsDefined(defs: seq<Text>, v: Text)
    requires v !in defs && |v| > 1
    ensures TokenFor(SenderOf(defs), v) == Def((|defs| + 1) % 0x1_0000, v)
  {
    SenderKnows(defs, v);
    NextId(|defs|);
  }

  /** The i-th string of a run: up to one byte it is sent as it is; a longer one is defined when it comes first, by
      the number of symbols so far, and takes at most three bytes whenever it comes again. */
  lemma SentOnce(vs: seq<Text>, i: nat, v: Text, t: Token)
    requires i < |vs| && v == vs[i] && t == SendAll(Sender(map[], 0), vs)[i]
    ensures |v| <= 1 ==> t == Plain(v)
    ensures |v| > 1 && v !in vs[..i] ==> t == Def((|DefsAfter([], vs, i)| + 1) % 0x1_0000, v)
    ensures |v| > 1 && v in vs[..i] ==> t.Ref? && t.id < 0x1_0000 && |EncToken(t)| <= 3
  {
    var before := DefsAfter([], vs, i);
    assert SenderOf([]) == Sender(map[], 0);
    TokenInRun([], vs, i);
    DefinedBefore([], vs, i, v);
    if v in before {
      DefsStayDistinct([], vs, i);
      KnownIsReferred(before, v);
    } else if |v| > 1 {
      NewIsDefined(before, v);
    }
  }

  /** The symbols so far are the different strings of more than one byte. */
  lemma SymbolsSoFar(vs: seq<Text>, i: nat, v: Text)
    requires i <= |vs|
    ensures Distinct(DefsAfter([], vs, i))
    ensures v in DefsAfter([], vs, i) <==> |v| > 1 && v in vs[..i]
  {
    DefsStayDistinct([], vs, i);
    DefinedBefore([], vs, i, v);
  }
}
