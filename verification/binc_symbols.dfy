/** The symbol dictionary of binc. Sixteen bits name a symbol, so the numbers wrap around; a symbol can be referred to
    as long as fewer than 65536 others were defined after it. */
module BincSymbols {
  import opened Bytes
  import opened CodecReader
  import opened Sequences
  import opened Binc

  const Ids: nat := 0x1_0000
  const Sequencer: nat := 0x1_0000_0000

  // ----- The two ends

  /** The encoder: the ids it has given out, and a 32-bit sequencer. */
  datatype Sender = Sender(m: map<Text, nat>, s: nat)

  /** The token for a string; strings of at most one byte are never symbols. */
  function TokenFor(e: Sender, v: Text): Token {
    if |v| <= 1 then Plain(v)
    else if v in e.m then Ref(e.m[v])
    else Def((e.s + 1) % Sequencer % Ids, v)
  }

  function Sent(e: Sender, v: Text): Sender {
    match TokenFor(e, v)
    case Def(id, _) => Sender(e.m[v := id], (e.s + 1) % Sequencer)
    case _ => e
  }

  /** The decoder's dictionary; a reference to an unknown id reads as the empty string. */
  function Meaning(m: map<nat, Text>, t: Token): Text {
    match t
    case Plain(text) => text
    case Ref(id) => if id in m then m[id] else []
    case Def(_, text) => text
  }

  function Learned(m: map<nat, Text>, t: Token): map<nat, Text> {
    if t.Def? then m[t.id := t.text] else m
  }

  function SendAll(e: Sender, vs: seq<Text>): (r: seq<Token>)
    ensures |r| == |vs|
    decreases |vs|
  {
    if vs == [] then [] else [TokenFor(e, vs[0])] + SendAll(Sent(e, vs[0]), vs[1..])
  }

  function ReceiveAll(m: map<nat, Text>, ts: seq<Token>): (r: seq<Text>)
    ensures |r| == |ts|
    decreases |ts|
  {
    if ts == [] then [] else [Meaning(m, ts[0])] + ReceiveAll(Learned(m, ts[0]), ts[1..])
  }

  // ----- What both ends know

  /** The symbols defined so far, in order, none twice. */
  predicate Distinct(defs: seq<Text>) {
    forall i, j :: 0 <= i < j < |defs| ==> defs[i] != defs[j]
  }

  function IdOf(k: nat): nat {
    (k + 1) % Ids
  }

  function SenderMap(defs: seq<Text>): map<Text, nat> {
    if defs == [] then map[] else SenderMap(defs[..|defs| - 1])[defs[|defs| - 1] := IdOf(|defs| - 1)]
  }

  function SenderOf(defs: seq<Text>): Sender {
    Sender(SenderMap(defs), |defs| % Sequencer)
  }

  function ReceiverOf(defs: seq<Text>): map<nat, Text> {
    if defs == [] then map[] else ReceiverOf(defs[..|defs| - 1])[IdOf(|defs| - 1) := defs[|defs| - 1]]
  }

  function Grown(defs: seq<Text>, v: Text): seq<Text> {
    if |v| <= 1 || v in defs then defs else defs + [v]
  }

  lemma {:induction false} SenderKnows(defs: seq<Text>, v: Text)
    ensures v in SenderMap(defs) <==> v in defs
    decreases |defs|
  {
    if defs != [] {
      var init := defs[..|defs| - 1];
      SenderKnows(init, v);
      assert defs == init + [defs[|defs| - 1]];
    }
  }

  lemma {:induction false} SenderHas(defs: seq<Text>, k: nat)
    requires Distinct(defs) && k < |defs|
    ensures defs[k] in SenderMap(defs) && SenderMap(defs)[defs[k]] == IdOf(k)
    decreases |defs|
  {
    var init := defs[..|defs| - 1];
    if k < |init| {
      SenderHas(init, k);
      assert init[k] == defs[k] && defs[k] != defs[|defs| - 1];
    }
  }

  /** The decoder finds a symbol under its id until 65536 newer ones have been defined; then it finds another. */
  lemma {:induction false} ReceiverHas(defs: seq<Text>, k: nat)
    requires Distinct(defs) && k < |defs|
    ensures IdOf(k) in ReceiverOf(defs)
    ensures ReceiverOf(defs)[IdOf(k)] == defs[k] <==> |defs| - k <= Ids
    decreases |defs|
  {
    var n := |defs| - 1;
    var init := defs[..n];
    if k < n {
      ReceiverHas(init, k);
      assert init[k] == defs[k] && defs[k] != defs[n];
      SameId(k, n);
    }
  }

  lemma SameId(k: nat, n: nat)
    requires k < n
    ensures IdOf(k) == IdOf(n) ==> n - k >= Ids
    ensures n - k == Ids ==> IdOf(k) == IdOf(n)
  {
  }

  // ----- In step

  /** How many symbols were defined before v was; strings that are in no dictionary count as just defined. */
  function IndexOf(defs: seq<Text>, v: Text): (k: nat)
    requires v in defs
    ensures k < |defs| && defs[k] == v
  {
    if defs[0] == v then 0 else IndexOf(defs[1..], v) + 1
  }

  /** Fewer than 65536 symbols are newer than this one. */
  predicate InTime(defs: seq<Text>, v: Text) {
    |v| > 1 && v in defs ==> |defs| - IndexOf(defs, v) <= Ids
  }

  lemma GrownIsDistinct(defs: seq<Text>, v: Text)
    requires Distinct(defs)
    ensures Distinct(Grown(defs, v))
  {
  }

  lemma GrownSender(defs: seq<Text>, v: Text)
    ensures Sent(SenderOf(defs), v) == SenderOf(Grown(defs, v))
    ensures Learned(ReceiverOf(defs), TokenFor(SenderOf(defs), v)) == ReceiverOf(Grown(defs, v))
  {
    SenderKnows(defs, v);
    if Grown(defs, v) != defs {
      var more := defs + [v];
      assert more[..|more| - 1] == defs && more[|more| - 1] == v;
      NextId(|defs|);
    }
  }

  lemma NextId(n: nat)
    ensures (n % Sequencer + 1) % Sequencer == (n + 1) % Sequencer
    ensures (n + 1) % Sequencer % Ids == IdOf(n)
  {
    var m := n + 1;
    assert m == m / Sequencer * Ids * Ids + m % Sequencer;
    ModOfMod(m / Sequencer * Ids, m % Sequencer);
  }

  lemma ModOfMod(k: nat, r: nat)
    ensures (k * Ids + r) % Ids == r % Ids
  {
    if k > 0 {
      ModOfMod(k - 1, r);
    }
  }

  lemma OneInStep(defs: seq<Text>, v: Text)
    requires Distinct(defs)
    ensures Meaning(ReceiverOf(defs), TokenFor(SenderOf(defs), v)) == v <==> InTime(defs, v)
  {
    SenderKnows(defs, v);
    if |v| > 1 && v in defs {
      var k := IndexOf(defs, v);
      SenderHas(defs, k);
      ReceiverHas(defs, k);
    }
  }

  /** The symbols defined once the first i strings have been sent. */
  function DefsAfter(defs: seq<Text>, vs: seq<Text>, i: nat): (r: seq<Text>)
    requires i <= |vs|
    decreases i
  {
    if i == 0 then defs else DefsAfter(Grown(defs, vs[0]), vs[1..], i - 1)
  }

  /** What comes out of both ends, from the point where they know these symbols. */
  function Through(defs: seq<Text>, vs: seq<Text>): (r: seq<Text>)
    ensures |r| == |vs|
  {
    ReceiveAll(ReceiverOf(defs), SendAll(SenderOf(defs), vs))
  }

  predicate ComesOut(defs: seq<Text>, vs: seq<Text>, i: nat)
    requires i < |vs|
  {
    Through(defs, vs)[i] == vs[i]
  }

  predicate Timely(defs: seq<Text>, vs: seq<Text>, i: nat)
    requires i < |vs|
  {
    InTime(DefsAfter(defs, vs, i), vs[i])
  }

  /** For any run of strings through both ends: the i-th comes out as it went in exactly when it is not a symbol that
      65536 or more newer ones have been defined after. */
  lemma {:induction false} InStepIff(defs: seq<Text>, vs: seq<Text>, i: nat)
    requires Distinct(defs) && i < |vs|
    ensures ComesOut(defs, vs, i) == Timely(defs, vs, i)
    decreases i
  {
    if i == 0 {
      FirstInStep(defs, vs);
    } else {
      var j := i - 1;
      GrownIsDistinct(defs, vs[0]);
      InStepIff(Grown(defs, vs[0]), vs[1..], j);
      LaterOut(defs, vs, i, j);
      LaterTimely(defs, vs, i, j);
    }
  }

  lemma FirstInStep(defs: seq<Text>, vs: seq<Text>)
    requires Distinct(defs) && vs != []
    ensures ComesOut(defs, vs, 0) == Timely(defs, vs, 0)
  {
    OneInStep(defs, vs[0]);
  }

  lemma LaterTimely(defs: seq<Text>, vs: seq<Text>, i: nat, j: nat)
    requires i == j + 1 && i < |vs|
    ensures Timely(defs, vs, i) == Timely(Grown(defs, vs[0]), vs[1..], j)
  {
    assert vs[1..][j] == vs[i];
  }

  lemma LaterOut(defs: seq<Text>, vs: seq<Text>, i: nat, j: nat)
    requires i == j + 1 && i < |vs|
    ensures ComesOut(defs, vs, i) == ComesOut(Grown(defs, vs[0]), vs[1..], j)
  {
    GrownSender(defs, vs[0]);
    Later(ReceiverOf(defs), SenderOf(defs), vs, i, j);
    assert vs[1..][j] == vs[i];
  }

  lemma Later(m: map<nat, Text>, e: Sender, vs: seq<Text>, i: nat, j: nat)
    requires i == j + 1 && i < |vs|
    ensures ReceiveAll(m, SendAll(e, vs))[i] ==
            ReceiveAll(Learned(m, TokenFor(e, vs[0])), SendAll(Sent(e, vs[0]), vs[1..]))[j]
  {
    var ts := SendAll(e, vs);
    assert ts[0] == TokenFor(e, vs[0]) && ts[1..] == SendAll(Sent(e, vs[0]), vs[1..]);
  }

  lemma {:induction false} DefsStayDistinct(defs: seq<Text>, vs: seq<Text>, i: nat)
    requires Distinct(defs) && i <= |vs|
    ensures Distinct(DefsAfter(defs, vs, i))
    decreases i
  {
    if i > 0 {
      GrownIsDistinct(defs, vs[0]);
      DefsStayDistinct(Grown(defs, vs[0]), vs[1..], i - 1);
    }
  }

  lemma {:induction false} DefsComeFrom(defs: seq<Text>, vs: seq<Text>, i: nat, v: Text)
    requires i <= |vs| && v in DefsAfter(defs, vs, i)
    ensures v in defs || (v in vs && |v| > 1)
    decreases i
  {
    if i > 0 {
      DefsComeFrom(Grown(defs, vs[0]), vs[1..], i - 1, v);
    }
  }

  lemma {:induction false} DistinctFits(defs: seq<Text>, all: set<Text>)
    requires Distinct(defs) && forall v :: v in defs ==> v in all
    ensures |defs| <= |all|
    decreases |defs|
  {
    if defs != [] {
      var last, init := defs[|defs| - 1], defs[..|defs| - 1];
      assert forall v :: v in init ==> v in all && v != last;
      DistinctFits(init, all - {last});
    }
  }

  /** With at most 65536 different symbols every run comes out as it went in. */
  lemma FewSymbolsStayInStep(vs: seq<Text>, symbols: set<Text>)
    requires |symbols| <= Ids && forall v :: v in vs && |v| > 1 ==> v in symbols
    ensures ReceiveAll(map[], SendAll(Sender(map[], 0), vs)) == vs
  {
    assert ReceiverOf([]) == map[] && SenderOf([]) == Sender(map[], 0);
    var r := ReceiveAll(map[], SendAll(Sender(map[], 0), vs));
    forall i | 0 <= i < |vs| ensures r[i] == vs[i] {
      DefsStayDistinct([], vs, i);
      forall v | v in DefsAfter([], vs, i) ensures v in symbols {
        DefsComeFrom([], vs, i, v);
      }
      DistinctFits(DefsAfter([], vs, i), symbols);
      InStepIff([], vs, i);
      assert Timely([], vs, i);
    }
  }

  lemma {:induction false} AllDefined(defs: seq<Text>, vs: seq<Text>, i: nat)
    requires i <= |vs| && Distinct(defs + vs[..i]) && forall v :: v in vs[..i] ==> |v| > 1
    ensures DefsAfter(defs, vs, i) == defs + vs[..i]
    decreases i
  {
    if i > 0 {
      var all := defs + vs[..i];
      assert all[|defs|] == vs[0] && forall k :: 0 <= k < |defs| ==> all[k] == defs[k];
      assert vs[..i][0] == vs[0] && vs[0] in vs[..i];
      var more := vs[1..][..i - 1];
      assert vs[..i] == [vs[0]] + more;
      Associative(defs, [vs[0]], more);
      assert forall v :: v in more ==> v in vs[..i];
      AllDefined(defs + [vs[0]], vs[1..], i - 1);
    }
  }

  /** More are too many: after 65537 different symbols the first one, sent again, comes out as another. */
  lemma ManySymbolsLoseStep(symbols: seq<Text>)
    requires Distinct(symbols) && |symbols| > Ids && forall v :: v in symbols ==> |v| > 1
    ensures ReceiveAll(map[], SendAll(Sender(map[], 0), symbols + [symbols[0]]))[|symbols|] != symbols[0]
  {
    var vs, n := symbols + [symbols[0]], |symbols|;
    assert vs[..n] == symbols && [] + vs[..n] == symbols;
    AllDefined([], vs, n);
    InStepIff([], vs, n);
    assert symbols[0] in symbols && IndexOf(symbols, symbols[0]) == 0;
    assert !Timely([], vs, n);
    assert ReceiverOf([]) == map[] && SenderOf([]) == Sender(map[], 0);
  }

  // ----- On the wire

  function Encoded(ts: seq<Token>): seq<byte> {
    if ts == [] then [] else EncToken(ts[0]) + Encoded(ts[1..])
  }

  /** n strings off the wire, through the dictionary m. */
  datatype Received = Received(vs: seq<Text>, rest: seq<byte>) | Lost(error: Error)

  function Behind(v: Text, more: Received): Received {
    if more.Lost? then more else Received([v] + more.vs, more.rest)
  }

  function DecodeAll(m: map<nat, Text>, b: seq<byte>, n: nat): Received
    decreases n, 1
  {
    if n == 0 then Received([], b) else DecodeFrom(m, DecToken(b), n)
  }

  function DecodeFrom(m: map<nat, Text>, first: Parsed, n: nat): Received
    requires n > 0
    decreases n, 0
  {
    match first
    case Broken(e) => Lost(e)
    case Parsed(t, rest) =>
      Behind(Meaning(m, t), DecodeAll(Learned(m, t), rest, n - 1))
  }

  lemma {:induction false} WireCarriesTokens(m: map<nat, Text>, ts: seq<Token>, rest: seq<byte>)
    requires forall i :: 0 <= i < |ts| ==> Sendable(ts[i])
    ensures DecodeAll(m, Encoded(ts) + rest, |ts|) == Received(ReceiveAll(m, ts), rest)
    decreases |ts|
  {
    if ts == [] {
      assert [] + rest == rest;
    } else {
      var tail := Encoded(ts[1..]) + rest;
      TokenRoundTrip(ts[0], tail);
      Associative(EncToken(ts[0]), Encoded(ts[1..]), rest);
      WireCarriesTokens(Learned(m, ts[0]), ts[1..], rest);
      DecodeOne(m, ts[0], tail, |ts|, |ts[1..]|);
    }
  }

  lemma DecodeOne(m: map<nat, Text>, t: Token, tail: seq<byte>, n: nat, less: nat)
    requires n == less + 1
    ensures DecodeFrom(m, Parsed(t, tail), n) == Behind(Meaning(m, t), DecodeAll(Learned(m, t), tail, less))
  {
    assert n - 1 == less;
  }

  predicate GoodIds(e: Sender) {
    forall v :: v in e.m ==> e.m[v] < Ids
  }

  lemma {:induction false} SendsSendable(e: Sender, vs: seq<Text>)
    requires GoodIds(e) && forall v :: v in vs ==> |v| < 0x8000_0000_0000_0000
    ensures forall i :: 0 <= i < |vs| ==> Sendable(SendAll(e, vs)[i])
    decreases |vs|
  {
    if vs != [] {
      SendsSendable(Sent(e, vs[0]), vs[1..]);
      assert vs[0] in vs && Sendable(TokenFor(e, vs[0]));
    }
  }

  /** From strings to bytes and back: at most 65536 different symbols survive any run, whatever follows it. */
  lemma SymbolsRoundTrip(vs: seq<Text>, symbols: set<Text>, rest: seq<byte>)
    requires |symbols| <= Ids && forall v :: v in vs && |v| > 1 ==> v in symbols
    requires forall v :: v in vs ==> |v| < 0x8000_0000_0000_0000
    ensures DecodeAll(map[], Encoded(SendAll(Sender(map[], 0), vs)) + rest, |vs|) == Received(vs, rest)
  {
    FewSymbolsStayInStep(vs, symbols);
    SendsSendable(Sender(map[], 0), vs);
    WireCarriesTokens(map[], SendAll(Sender(map[], 0), vs), rest);
  }
}
