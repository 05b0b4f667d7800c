/** memberlist's compound messages: several messages framed into one packet. */
module Compound {
  import opened Bytes
  import opened Sequences

  const CompoundMsg: byte := 7

  // ----- Specification

  function Table(msgs: seq<seq<byte>>): (t: seq<byte>)
    ensures |t| == 2 * |msgs|
  {
    if msgs == [] then [] else BigEndian(|msgs[0]|, 2) + Table(msgs[1..])
  }

  /** A conversion to uint8. */
  function Wrapped(n: nat): (b: byte)
    ensures n < 0x100 ==> b == n
  {
    if n < 0x100 then n else Wrapped(n - 0x100)
  }

  /** Type byte, count byte, two length bytes a message, and the messages themselves. */
  function Made(msgs: seq<seq<byte>>): seq<byte> {
    [CompoundMsg] + Listed(Wrapped(|msgs|), msgs)
  }

  function Listed(count: byte, msgs: seq<seq<byte>>): seq<byte> {
    [count] + Table(msgs) + Concat(msgs)
  }

  /** The outcome of decoding. Panicked is Go's slice bounds panic. */
  datatype Decoded = MissingCount | TruncatedTable | Panicked | Parts(trunc: nat, parts: seq<seq<byte>>)

  /** The first n table entries. Slicing in Go reaches up to the capacity of the buffer,
      so entries beyond its length come from the spare bytes behind it. */
  function Lengths(memory: seq<byte>, n: nat): (l: seq<nat>)
    requires 2 * n <= |memory|
    ensures |l| == n
  {
    if n == 0 then [] else [Number(memory[..2])] + Lengths(memory[2..], n - 1)
  }

  /** Cuts the stream into parts until one does not fit; the rest is counted as truncated. */
  function Split(stream: seq<byte>, lengths: seq<nat>): (d: Decoded)
    ensures d.Parts? && |d.parts| + d.trunc == |lengths|
  {
    if lengths == [] then Parts(0, [])
    else if |stream| < lengths[0] then Parts(|lengths|, [])
    else
      var rest := Split(stream[lengths[0]..], lengths[1..]);
      Parts(rest.trunc, [stream[..lengths[0]]] + rest.parts)
  }

  /** The count is a uint8 and is doubled as one. */
  function Doubled(n: nat): nat {
    2 * n % 0x100
  }

  function Decode(buf: seq<byte>, spare: seq<byte>): Decoded {
    if buf == [] then MissingCount
    else
      var n: nat := buf[0];
      var rest := buf[1..];
      if |rest| < Doubled(n) then TruncatedTable
      else if |rest + spare| < 2 * n then Panicked
      else Split(rest[Doubled(n)..], Lengths(rest + spare, n))
  }

  // ----- Decoding what was made

  function Sizes(msgs: seq<seq<byte>>): (l: seq<nat>)
    ensures |l| == |msgs|
    ensures forall i :: 0 <= i < |msgs| ==> l[i] == |msgs[i]|
  {
    if msgs == [] then [] else [|msgs[0]|] + Sizes(msgs[1..])
  }

  predicate Short(msgs: seq<seq<byte>>) {
    forall i :: 0 <= i < |msgs| ==> |msgs[i]| < 0x1_0000
  }

  lemma {:induction false} LengthsOfTable(msgs: seq<seq<byte>>, rest: seq<byte>)
    ensures Lengths(Table(msgs) + rest, |msgs|) == Sizes(msgs) <==> Short(msgs)
  {
    if msgs != [] {
      var entry, tail := BigEndian(|msgs[0]|, 2), Table(msgs[1..]) + rest;
      Associative(entry, Table(msgs[1..]), rest);
      LengthsFirst(entry, tail, |msgs|, |msgs[1..]|);
      LengthsOfTable(msgs[1..], rest);
      NumberOfBigEndian(|msgs[0]|, 2);
      Capacities();
      SameSizes(Number(entry), Lengths(tail, |msgs[1..]|), |msgs[0]|, Sizes(msgs[1..]));
      ShortFirst(msgs);
    }
  }

  lemma LengthsFirst(entry: seq<byte>, tail: seq<byte>, n: nat, less: nat)
    requires |entry| == 2 && n == less + 1 && 2 * less <= |tail|
    ensures Lengths(entry + tail, n) == [Number(entry)] + Lengths(tail, less)
  {
    assert (entry + tail)[..2] == entry && (entry + tail)[2..] == tail && n - 1 == less;
  }

  lemma SameSizes(x: nat, more: seq<nat>, y: nat, sizes: seq<nat>)
    ensures [x] + more == [y] + sizes <==> x == y && more == sizes
  {
    assert ([x] + more)[0] == x && ([x] + more)[1..] == more;
    assert ([y] + sizes)[0] == y && ([y] + sizes)[1..] == sizes;
  }

  lemma ShortFirst(msgs: seq<seq<byte>>)
    requires msgs != []
    ensures Short(msgs) <==> |msgs[0]| < 0x1_0000 && Short(msgs[1..])
  {
    assert msgs == [msgs[0]] + msgs[1..];
  }

  /** Splitting by the true lengths gives the messages back exactly when the stream starts with them. */
  lemma {:induction false} SplitIff(stream: seq<byte>, msgs: seq<seq<byte>>)
    ensures Split(stream, Sizes(msgs)) == Parts(0, msgs) <==> Concat(msgs) <= stream
  {
    if msgs != [] {
      var n := |msgs[0]|;
      assert Sizes(msgs)[1..] == Sizes(msgs[1..]);
      if n <= |stream| {
        SplitIff(stream[n..], msgs[1..]);
        var rest := Split(stream[n..], Sizes(msgs[1..]));
        assert Split(stream, Sizes(msgs)) == Parts(rest.trunc, [stream[..n]] + rest.parts);
        assert Parts(rest.trunc, [stream[..n]] + rest.parts) == Parts(0, msgs)
          <==> stream[..n] == msgs[0] && rest == Parts(0, msgs[1..]) by {
          assert msgs == [msgs[0]] + msgs[1..];
          assert ([stream[..n]] + rest.parts)[1..] == rest.parts;
        }
        assert Concat(msgs) <= stream <==> msgs[0] == stream[..n] && Concat(msgs[1..]) <= stream[n..] by {
          PrefixOfConcat(msgs[0], Concat(msgs[1..]), stream);
        }
      }
    }
  }

  lemma PrefixOfConcat(a: seq<byte>, b: seq<byte>, stream: seq<byte>)
    requires |a| <= |stream|
    ensures a + b <= stream <==> a == stream[..|a|] && b <= stream[|a|..]
  {
    if a + b <= stream {
      assert stream[..|a|] == (a + b)[..|a|] == a;
      assert stream[|a|..][..|b|] == (a + b)[|a|..] == b;
    }
  }

  lemma {:induction false} PartSizes(stream: seq<byte>, lengths: seq<nat>)
    ensures var parts := Split(stream, lengths).parts;
      forall i :: 0 <= i < |parts| ==> |parts[i]| == lengths[i]
  {
    if lengths != [] && lengths[0] <= |stream| {
      PartSizes(stream[lengths[0]..], lengths[1..]);
    }
  }

  /** The table entries that the wrapped doubling leaves in front of the messages. */
  function Skew(msgs: seq<seq<byte>>): seq<byte> {
    Table(msgs)[Doubled(|msgs|)..]
  }

  /** Decoding inverts making exactly when lengths and count fit their fields and the left-over
      table entries happen to be a prefix that the messages repeat. */
  lemma RoundTripIff(msgs: seq<seq<byte>>, spare: seq<byte>)
    ensures Decode(Made(msgs)[1..], spare) == Parts(0, msgs)
      <==> Short(msgs) && |msgs| < 0x100 && Concat(msgs) <= Skew(msgs) + Concat(msgs)
  {
    if |msgs| < 0x100 {
      CountedRoundTrip(msgs, spare);
    } else {
      DecodedCount(Made(msgs)[1..], spare);
    }
  }

  /** In particular decoding inverts making for at most 127 messages of at most 65535 bytes each. */
  lemma RoundTrip(msgs: seq<seq<byte>>, spare: seq<byte>)
    requires |msgs| <= 127 && Short(msgs)
    ensures Decode(Made(msgs)[1..], spare) == Parts(0, msgs)
  {
    EmptyIsUnit(Concat(msgs));
    NoSkew(msgs);
    CountedRoundTrip(msgs, spare);
  }

  lemma CountedRoundTrip(msgs: seq<seq<byte>>, spare: seq<byte>)
    requires |msgs| < 0x100
    ensures Decode(Made(msgs)[1..], spare) == Parts(0, msgs)
      <==> Short(msgs) && Concat(msgs) <= Skew(msgs) + Concat(msgs)
  {
    var stream := Skew(msgs) + Concat(msgs);
    var lengths := DecodeOfMade(msgs, Concat(msgs), spare);
    if Short(msgs) {
      SplitIff(stream, msgs);
    } else {
      PartsFixLengths(stream, lengths, msgs);
    }
  }

  lemma PartsFixLengths(stream: seq<byte>, lengths: seq<nat>, msgs: seq<seq<byte>>)
    requires |lengths| == |msgs| && lengths != Sizes(msgs)
    ensures Split(stream, lengths) != Parts(0, msgs)
  {
    PartSizes(stream, lengths);
    var i :| 0 <= i < |msgs| && lengths[i] != |msgs[i]|;
    assert i < |Split(stream, lengths).parts| ==> |Split(stream, lengths).parts[i]| != |msgs[i]|;
  }

  lemma DecodedCount(buf: seq<byte>, spare: seq<byte>)
    ensures var d := Decode(buf, spare); d.Parts? ==> |d.parts| + d.trunc < 0x100
  {
  }

  /** Decoding with any body behind the table, whole or cut. */
  lemma DecodeOfMade(msgs: seq<seq<byte>>, body: seq<byte>, spare: seq<byte>) returns (lengths: seq<nat>)
    requires |msgs| < 0x100
    ensures |lengths| == |msgs| && (lengths == Sizes(msgs) <==> Short(msgs))
    ensures Decode([|msgs|] + Table(msgs) + body, spare) == Split(Skew(msgs) + body, lengths)
    ensures Made(msgs)[1..] == [|msgs|] + Table(msgs) + Concat(msgs)
  {
    var memory := Table(msgs) + (body + spare);
    lengths := Lengths(memory, |msgs|);
    LengthsOfTable(msgs, body + spare);
    Associative([|msgs|], Table(msgs), body);
    Associative(Table(msgs), body, spare);
    DecodeCounted(|msgs|, Table(msgs) + body, spare, memory);
    DropHead(Table(msgs), body, Doubled(|msgs|));
    MadeBehindType(msgs);
  }

  lemma DecodeCounted(n: nat, rest: seq<byte>, spare: seq<byte>, memory: seq<byte>)
    requires n < 0x100 && 2 * n <= |rest| && memory == rest + spare
    ensures Decode([n] + rest, spare) == Split(rest[Doubled(n)..], Lengths(memory, n))
  {
    assert ([n] + rest)[0] == n && ([n] + rest)[1..] == rest;
  }

  lemma DropHead<T>(a: seq<T>, b: seq<T>, k: nat)
    requires k <= |a|
    ensures (a + b)[k..] == a[k..] + b
  {
  }

  lemma MadeBehindType(msgs: seq<seq<byte>>)
    requires |msgs| < 0x100
    ensures Made(msgs)[1..] == [|msgs|] + Table(msgs) + Concat(msgs)
  {
    BehindFirst(CompoundMsg, Listed(|msgs|, msgs));
  }

  lemma BehindFirst<T>(x: T, rest: seq<T>)
    ensures ([x] + rest)[1..] == rest
  {
  }

  /** Beyond 127 messages the framing is garbled in practice: when the first message starts with a byte
      other than 0 and the message 128 from the end is shorter than 256 bytes. */
  lemma OverfullIsGarbled(msgs: seq<seq<byte>>, spare: seq<byte>)
    requires 128 <= |msgs| <= 255
    requires msgs[0] != [] && msgs[0][0] != 0 && |msgs[|msgs| - 128]| < 0x100
    ensures Decode(Made(msgs)[1..], spare) != Parts(0, msgs)
  {
    RoundTripIff(msgs, spare);
    var k := |msgs| - 128;
    assert Doubled(|msgs|) == 2 * k;
    TableAt(msgs, k);
    assert Skew(msgs)[0] == Table(msgs)[2 * k] == 0;
    assert Concat(msgs)[0] == msgs[0][0] != (Skew(msgs) + Concat(msgs))[0];
  }

  lemma {:induction false} TableAt(msgs: seq<seq<byte>>, k: nat)
    requires k < |msgs|
    ensures |msgs[k]| < 0x100 ==> Table(msgs)[2 * k] == 0
  {
    if k == 0 {
      BigEndian1(|msgs[0]| / 0x100);
    } else {
      TableAt(msgs[1..], k - 1);
    }
  }

  // ----- Truncation

  /** How many whole messages fit into the given number of bytes. */
  function Whole(msgs: seq<seq<byte>>, cut: nat): (p: nat)
    ensures p <= |msgs|
  {
    if msgs == [] || cut < |msgs[0]| then 0 else 1 + Whole(msgs[1..], cut - |msgs[0]|)
  }

  /** Whole counts the longest prefix of messages that fits. */
  lemma {:induction false} WholeIsLongest(msgs: seq<seq<byte>>, cut: nat, p: nat)
    requires p <= |msgs|
    ensures |Concat(msgs[..p])| <= cut <==> p <= Whole(msgs, cut)
  {
    if p != 0 {
      assert msgs[..p][1..] == msgs[1..][..p - 1];
      assert Concat(msgs[..p]) == msgs[0] + Concat(msgs[1..][..p - 1]);
      if |msgs[0]| <= cut {
        WholeIsLongest(msgs[1..], cut - |msgs[0]|, p - 1);
      }
    }
  }

  lemma {:induction false} SplitOfCut(msgs: seq<seq<byte>>, cut: nat)
    requires cut <= |Concat(msgs)|
    ensures Split(Concat(msgs)[..cut], Sizes(msgs))
         == Parts(|msgs| - Whole(msgs, cut), msgs[..Whole(msgs, cut)])
  {
    if msgs != [] {
      var n := |msgs[0]|;
      assert Sizes(msgs)[1..] == Sizes(msgs[1..]);
      if n <= cut {
        var less := cut - n;
        var more := Concat(msgs[1..])[..less];
        TakePast(msgs[0], Concat(msgs[1..]), cut, less);
        SplitOfCut(msgs[1..], less);
        SplitFirst(msgs[0], more, Sizes(msgs));
        FirstAndMore(msgs, Whole(msgs[1..], less), Whole(msgs, cut));
      }
    }
  }

  lemma TakePast<T>(a: seq<T>, b: seq<T>, cut: nat, less: nat)
    requires cut == |a| + less && less <= |b|
    ensures (a + b)[..cut] == a + b[..less]
  {
  }

  lemma FirstAndMore<T>(s: seq<T>, p: nat, q: nat)
    requires s != [] && q == p + 1 && q <= |s|
    ensures s[..q] == [s[0]] + s[1..][..p]
  {
  }

  /** The parts in front of what the rest of the stream splits into. */
  function Behind(parts: seq<seq<byte>>, d: Decoded): Decoded {
    if d.Parts? then Parts(d.trunc, parts + d.parts) else d
  }

  lemma SplitFirst(part: seq<byte>, more: seq<byte>, lengths: seq<nat>)
    requires lengths != [] && lengths[0] == |part|
    ensures Split(part + more, lengths) == Behind([part], Split(more, lengths[1..]))
  {
    assert (part + more)[..|part|] == part && (part + more)[|part|..] == more;
  }

  /** For any cut of the payload behind the length table, exactly the messages that arrived whole are
      returned, and trunc is the number of the others. */
  lemma CutKeepsWholeMessages(msgs: seq<seq<byte>>, cut: nat, spare: seq<byte>)
    requires |msgs| <= 127 && Short(msgs) && cut <= |Concat(msgs)|
    ensures Decode(Made(msgs)[1..][..1 + 2 * |msgs| + cut], spare)
         == Parts(|msgs| - Whole(msgs, cut), msgs[..Whole(msgs, cut)])
  {
    var body := Concat(msgs)[..cut];
    CutBehindTable(msgs, cut);
    DecodeUnskewed(msgs, body, spare);
    SplitOfCut(msgs, cut);
  }

  lemma CutBehindTable(msgs: seq<seq<byte>>, cut: nat)
    requires |msgs| < 0x100 && cut <= |Concat(msgs)|
    ensures Made(msgs)[1..][..1 + 2 * |msgs| + cut] == [|msgs|] + Table(msgs) + Concat(msgs)[..cut]
  {
    MadeBehindType(msgs);
    TakePast([|msgs|] + Table(msgs), Concat(msgs), 1 + 2 * |msgs| + cut, cut);
  }

  lemma DecodeUnskewed(msgs: seq<seq<byte>>, body: seq<byte>, spare: seq<byte>)
    requires |msgs| <= 127 && Short(msgs)
    ensures Decode([|msgs|] + Table(msgs) + body, spare) == Split(body, Sizes(msgs))
  {
    var lengths := DecodeOfMade(msgs, body, spare);
    NoSkew(msgs);
    EmptyIsUnit(body);
  }

  lemma NoSkew(msgs: seq<seq<byte>>)
    requires |msgs| <= 127
    ensures Skew(msgs) == []
  {
  }

  /** A cut inside the table leaves nothing to decode. */
  lemma CutTableIsAnError(msgs: seq<seq<byte>>, cut: nat, spare: seq<byte>)
    requires |msgs| <= 127 && cut < 1 + 2 * |msgs|
    ensures Decode(Made(msgs)[1..][..cut], spare) == if cut == 0 then MissingCount else TruncatedTable
  {
    MadeBehindType(msgs);
    var framed := [|msgs|] + Table(msgs) + Concat(msgs);
    if cut > 0 {
      assert framed[..cut][0] == |msgs|;
    }
  }

  // ----- The layout

  /** Where everything stands: the type 7, the count, the length of message k, and message k itself behind the ones
      before it. */
  lemma MadeLayout(msgs: seq<seq<byte>>, k: nat, i: nat, at: nat)
    requires |msgs| <= 255 && k < |msgs| && |msgs[k]| < 0x1_0000
    requires i == 2 + 2 * k && at == 2 + 2 * |msgs| + |Concat(msgs[..k])|
    ensures var m := Made(msgs);
      && |m| == 2 + 2 * |msgs| + |Concat(msgs)| && m[0] == 7 && m[1] == |msgs|
      && m[i] == |msgs[k]| / 0x100 && m[i + 1] == |msgs[k]| % 0x100
      && at + |msgs[k]| <= |m| && m[at..at + |msgs[k]|] == msgs[k]
  {
    MadeIs(msgs);
    EntryAt(msgs, k);
    PartAt(msgs, k);
    BigEndian2(|msgs[k]|);
    Placed(Made(msgs), Wrapped(|msgs|), Table(msgs), Concat(msgs), i, 2 * k, at, |Concat(msgs[..k])|, |msgs[k]|);
  }

  lemma Placed(m: seq<byte>, count: byte, table: seq<byte>, body: seq<byte>, i: nat, entry: nat,
               at: nat, part: nat, n: nat)
    requires m == [CompoundMsg, count] + table + body
    requires entry + 1 < |table| && i == 2 + entry && part + n <= |body| && at == 2 + |table| + part
    ensures |m| == 2 + |table| + |body| && m[0] == 7 && m[1] == count
    ensures m[i] == table[entry] && m[i + 1] == table[entry + 1]
    ensures m[at..at + n] == body[part..part + n]
  {
    InTable([CompoundMsg, count], table, body, entry);
    InTable([CompoundMsg, count], table, body, entry + 1);
    InBody([CompoundMsg, count] + table, body, part, n);
  }

  lemma MadeIs(msgs: seq<seq<byte>>)
    ensures Made(msgs) == [CompoundMsg, Wrapped(|msgs|)] + Table(msgs) + Concat(msgs)
  {
    TwoFirst(CompoundMsg, Wrapped(|msgs|), Table(msgs), Concat(msgs));
  }

  lemma TwoFirst<T>(x: T, y: T, a: seq<T>, b: seq<T>)
    ensures [x] + ([y] + a + b) == [x, y] + a + b
  {
  }

  lemma InTable(head: seq<byte>, table: seq<byte>, body: seq<byte>, i: nat)
    requires i < |table| && |head| == 2
    ensures (head + table + body)[2 + i] == table[i]
  {
  }

  lemma InBody(front: seq<byte>, body: seq<byte>, at: nat, n: nat)
    requires at + n <= |body|
    ensures (front + body)[|front| + at..|front| + at + n] == body[at..at + n]
  {
  }

  lemma {:induction false} EntryAt(msgs: seq<seq<byte>>, k: nat)
    requires k < |msgs|
    ensures Table(msgs)[2 * k] == BigEndian(|msgs[k]|, 2)[0] && Table(msgs)[2 * k + 1] == BigEndian(|msgs[k]|, 2)[1]
  {
    if k > 0 {
      EntryAt(msgs[1..], k - 1);
    }
  }

  lemma {:induction false} PartAt(msgs: seq<seq<byte>>, k: nat)
    requires k < |msgs|
    ensures var at := |Concat(msgs[..k])|;
      at + |msgs[k]| <= |Concat(msgs)| && Concat(msgs)[at..at + |msgs[k]|] == msgs[k]
  {
    if k > 0 {
      PartAt(msgs[1..], k - 1);
      assert msgs[..k][1..] == msgs[1..][..k - 1];
      InBody(msgs[0], Concat(msgs[1..]), |Concat(msgs[1..][..k - 1])|, |msgs[k]|);
    }
  }

  // ----- The two functions

  method MakeCompoundMessage(msgs: seq<seq<byte>>) returns (buf: seq<byte>)
    ensures buf == Made(msgs)
  {
    buf := [CompoundMsg];
    buf := buf + [Wrapped(|msgs|)];
    ghost var head := buf;
    for i := 0 to |msgs|
      invariant buf == head + Table(msgs[..i])
    {
      buf := buf + BigEndian(|msgs[i]|, 2);
      TableOfPrefix(msgs, i);
      Associative(head, Table(msgs[..i]), BigEndian(|msgs[i]|, 2));
    }
    assert msgs[..|msgs|] == msgs;
    ghost var framed := buf;
    for i := 0 to |msgs|
      invariant buf == framed + Concat(msgs[..i])
    {
      buf := buf + msgs[i];
      ConcatOfPrefix(msgs, i);
      Associative(framed, Concat(msgs[..i]), msgs[i]);
    }
    Associative([CompoundMsg], [Wrapped(|msgs|)], Table(msgs));
    Associative([CompoundMsg], [Wrapped(|msgs|)] + Table(msgs), Concat(msgs));
  }

  lemma {:induction false} TableOfPrefix(msgs: seq<seq<byte>>, i: nat)
    requires i < |msgs|
    ensures Table(msgs[..i + 1]) == Table(msgs[..i]) + BigEndian(|msgs[i]|, 2)
  {
    if i == 0 {
      assert msgs[..1] == [msgs[0]] && Table(msgs[..1][1..]) == [];
    } else {
      TableOfPrefix(msgs[1..], i - 1);
      assert msgs[..i + 1][1..] == msgs[1..][..i] && msgs[..i][1..] == msgs[1..][..i - 1];
    }
  }

  lemma {:induction false} ConcatOfPrefix<T>(parts: seq<seq<T>>, i: nat)
    requires i < |parts|
    ensures Concat(parts[..i + 1]) == Concat(parts[..i]) + parts[i]
  {
    if i == 0 {
      assert parts[..1] == [parts[0]] && Concat(parts[..1][1..]) == [];
    } else {
      ConcatOfPrefix(parts[1..], i - 1);
      assert parts[..i + 1][1..] == parts[1..][..i] && parts[..i][1..] == parts[1..][..i - 1];
    }
  }

  method DecodeCompoundMessage(buf: seq<byte>, spare: seq<byte>) returns (d: Decoded)
    ensures d == Decode(buf, spare)
  {
    if |buf| < 1 {
      return MissingCount;
    }
    var numParts: nat := buf[0];
    var rest := buf[1..];
    if |rest| < 2 * numParts % 0x100 {
      return TruncatedTable;
    }
    if |rest + spare| < 2 * numParts {
      return Panicked;
    }
    var lengths := ReadLengths(rest + spare, numParts);
    d := CutParts(rest[2 * numParts % 0x100..], lengths);
  }

  method ReadLengths(memory: seq<byte>, n: nat) returns (lengths: seq<nat>)
    requires 2 * n <= |memory|
    ensures lengths == Lengths(memory, n)
  {
    lengths := [];
    ghost var at, left := 0, n;
    assert memory[0..] == memory;
    for i := 0 to n
      invariant at == 2 * i && left == n - i
      invariant at + 2 * left <= |memory| && lengths + Lengths(memory[at..], left) == Lengths(memory, n)
    {
      var entry := memory[2 * i..2 * i + 2];
      LengthsAt(memory, entry, lengths, at, at + 2, left, left - 1);
      lengths := lengths + [Number(entry)];
      at, left := at + 2, left - 1;
    }
  }

  lemma LengthsAt(memory: seq<byte>, entry: seq<byte>, l: seq<nat>, at: nat, next: nat, left: nat, less: nat)
    requires next == at + 2 && left == less + 1 && next + 2 * less <= |memory| && entry == memory[at..next]
    ensures l + Lengths(memory[at..], left) == l + [Number(entry)] + Lengths(memory[next..], less)
  {
    assert memory[at..] == entry + memory[next..];
    LengthsFirst(entry, memory[next..], left, less);
    Associative(l, [Number(entry)], Lengths(memory[next..], less));
  }

  /** The loop that cuts the payload into parts. */
  method CutParts(payload: seq<byte>, lengths: seq<nat>) returns (d: Decoded)
    ensures d == Split(payload, lengths)
  {
    var stream := payload;
    var parts := [];
    ghost var left := lengths;
    for idx := 0 to |lengths|
      invariant left == lengths[idx..]
      invariant Behind(parts, Split(stream, left)) == Split(payload, lengths)
    {
      var n := lengths[idx];
      assert left[0] == n && left[1..] == lengths[idx + 1..];
      if |stream| < n {
        return Parts(|lengths| - idx, parts);
      }
      var part := stream[..n];
      SplitNext(stream, part, stream[n..], left, parts);
      stream := stream[n..];
      parts := parts + [part];
      left := left[1..];
    }
    return Parts(0, parts);
  }

  lemma SplitNext(stream: seq<byte>, part: seq<byte>, more: seq<byte>, left: seq<nat>, parts: seq<seq<byte>>)
    requires left != [] && left[0] == |part| && stream == part + more
    ensures Behind(parts, Split(stream, left)) == Behind(parts + [part], Split(more, left[1..]))
  {
    SplitFirst(part, more, left);
    Associative(parts, [part], Split(more, left[1..]).parts);
  }
}
