/** Suffix compression (section 4.1.4 of RFC 1035) preserves names. What packing does with the map is refined by a
    recursive description; every map entry points at a label that a decoder can read the suffix from, in fewer hops
    than the suffix has labels. */
module DnsCompression {
  import opened Bytes
  import opened Wrappers
  import opened Sequences
  import opened DnsNames

  predicate Plain(l: Label) {
    forall i :: 0 <= i < |l| ==> l[i] != Dot && l[i] != Backslash
  }

  predicate PlainName(labels: seq<Label>) {
    WireName(labels) && forall l :: l in labels ==> Plain(l)
  }

  /** Text without escapes; each label is closed by a dot. */
  function Joined(labels: seq<Label>): seq<byte> {
    if labels == [] then [] else labels[0] + [Dot] + Joined(labels[1..])
  }

  function Text(labels: seq<Label>): seq<byte> {
    if labels == [] then [Dot] else Joined(labels)
  }

  // ----- A recursive description of compression

  datatype Suffixed = Suffixed(bytes: seq<byte>, known: map<seq<byte>, nat>)

  /** The map once the suffix that starts at off is recorded. */
  function Recorded(known: map<seq<byte>, nat>, key: seq<byte>, off: nat): map<seq<byte>, nat> {
    if off < MaxCompressionOffset then known[key := off] else known
  }

  /** A name at an offset: the first known suffix becomes a pointer, and every longer suffix is recorded. */
  function Compressed(labels: seq<Label>, off: nat, known: map<seq<byte>, nat>): Suffixed
    requires WireName(labels)
    decreases |labels|
  {
    if labels == [] then Suffixed([0], known)
    else if Joined(labels) in known then Suffixed(PointerBytes(known[Joined(labels)]), known)
    else
      assert WireLabel(labels[0]);
      var counted := CountedLabel(labels[0]);
      var rest := Compressed(labels[1..], off + |counted|, Recorded(known, Joined(labels), off));
      Suffixed(counted + rest.bytes, rest.known)
  }

  // ----- Packing refines it

  lemma {:induction false} ScanPlain(job: Job, st: Packing, l: Label)
    requires Plain(l) && At(job.s, st.p, l)
    ensures Scan(job, st) == Scan(job, st.(p := st.p + |l|, cur := st.cur + l, first := st.first && l == []))
    decreases |l|
  {
    if l == [] {
      assert st.cur + l == st.cur;
      assert st == st.(p := st.p + |l|, cur := st.cur + l, first := st.first && l == []);
    } else {
      AtPoint(job.s, st.p, l, 0);
      assert [l[0]] + l[1..] == l;
      AtTail(job.s, st.p, [l[0]], l[1..]);
      ScanPlain(job, st.(p := st.p + 1, cur := st.cur + [l[0]], first := false), l[1..]);
      assert st.cur + [l[0]] + l[1..] == st.cur + l;
    }
  }

  /** The outcome r puts the bytes of c behind the bytes `out`. */
  predicate PacksTo(start: nat, out: seq<byte>, r: Packed, c: Suffixed) {
    && (r.error == NoError ==> r.bytes == out + c.bytes && r.known == c.known && r.off == start + |r.bytes|)
    && (r.error == NoError || r.error == ErrBuf || r.error == Panicked)
  }

  predicate Fits(job: Job, st: Packing, labels: seq<Label>)
    requires WireName(labels)
  {
    job.start + |st.out| + |Wire(labels)| <= job.lenmsg
  }

  /** Between two labels of a name without escapes. */
  predicate AtLabel(job: Job, st: Packing, labels: seq<Label>) {
    && job.compress && !job.counting && job.s != [Dot]
    && st.cur == [] && st.stale == []
    && st.p <= |job.s| && job.s[st.p..] == Joined(labels)
  }

  /** The state at the dot behind the first label. */
  function AtDot(st: Packing, l: Label): Packing {
    st.(p := st.p + |l|, cur := l, first := st.first && l == [])
  }

  /** At the dot, the buffer from the label on is the suffix. */
  predicate DotOf(job: Job, dot: Packing, labels: seq<Label>)
    requires labels != []
  {
    && dot.p < |job.s| && job.s[dot.p] == Dot && Key(job, dot) == Joined(labels)
    && job.s[dot.p + 1..] == Joined(labels[1..])
  }

  lemma ScanToTheDot(job: Job, st: Packing, labels: seq<Label>)
    requires AtLabel(job, st, labels) && PlainName(labels) && labels != []
    ensures Scan(job, st) == Scan(job, AtDot(st, labels[0]))
  {
    assert Plain(labels[0]);
    TextAtDot(job.s, st.p, labels[0], Joined(labels[1..]));
    PlainRun(job, st, labels[0]);
  }

  lemma PlainRun(job: Job, st: Packing, l: Label)
    requires st.cur == [] && Plain(l) && At(job.s, st.p, l)
    ensures Scan(job, st) == Scan(job, AtDot(st, l))
  {
    ScanPlain(job, st, l);
    AtDotIsPlain(st, l);
  }

  lemma AtDotIsPlain(st: Packing, l: Label)
    requires st.cur == []
    ensures AtDot(st, l) == st.(p := st.p + |l|, cur := st.cur + l, first := st.first && l == [])
  {
    EmptyIsUnit(l);
  }

  lemma ToTheDot(job: Job, st: Packing, labels: seq<Label>)
    requires AtLabel(job, st, labels) && labels != []
    ensures DotOf(job, AtDot(st, labels[0]), labels)
  {
    TextAtDot(job.s, st.p, labels[0], Joined(labels[1..]));
    KeyAtDot(job, AtDot(st, labels[0]), Joined(labels[1..]));
  }

  lemma TextAtDot(s: seq<byte>, p: nat, l: Label, rest: seq<byte>)
    requires p <= |s| && s[p..] == l + [Dot] + rest
    ensures At(s, p, l) && p + |l| < |s| && s[p + |l|] == Dot
    ensures s[p + |l|..] == [Dot] + rest && s[p + |l| + 1..] == rest
  {
    Associative(l, [Dot], rest);
    SuffixSplits(s, p, l, [Dot] + rest);
    SuffixSplits(s, p + |l|, [Dot], rest);
    AtPoint(s, p + |l|, [Dot], 0);
  }

  lemma KeyAtDot(job: Job, dot: Packing, rest: seq<byte>)
    requires dot.p <= |job.s| && job.s[dot.p..] == [Dot] + rest && dot.stale == []
    ensures Key(job, dot) == dot.cur + [Dot] + rest
  {
    EmptyIsUnit(dot.cur + ([Dot] + rest));
    Associative(dot.cur, [Dot], rest);
  }

  /** What packing makes of the rest of a name. */
  function PackRest(job: Job, st: Packing): Packed {
    Finish(job, Scan(job, st))
  }

  lemma {:induction false} PackingCompresses(job: Job, st: Packing, labels: seq<Label>)
    requires AtLabel(job, st, labels) && PlainName(labels)
    ensures PacksTo(job.start, st.out, PackRest(job, st), Compressed(labels, job.start + |st.out|, st.known))
    ensures Fits(job, st, labels) ==> PackRest(job, st).error == NoError
    decreases |labels|
  {
    if labels != [] {
      var l, off := labels[0], job.start + |st.out|;
      assert WireLabel(l);
      if off + 1 + |l| > job.lenmsg {
        NoRoomForLabel(job, st, labels);
      } else if Joined(labels) in st.known {
        KnownSuffix(job, st, labels);
      } else {
        var next := UnknownSuffix(job, st, labels, off);
        PackingCompresses(job, next, labels[1..]);
        var behind := job.start + |next.out|;
        NewSuffixUnfolds(labels, off, st.known, behind);
        var c := Compressed(labels[1..], behind, next.known);
        PacksToBehind(job.start, st.out, CountedLabel(l), next.out, PackRest(job, next), c);
      }
    }
  }

  lemma NewSuffixUnfolds(labels: seq<Label>, off: nat, known: map<seq<byte>, nat>, behind: nat)
    requires WireName(labels) && labels != [] && Joined(labels) !in known && WireLabel(labels[0])
    requires behind == off + |CountedLabel(labels[0])|
    ensures var c := Compressed(labels[1..], behind, Recorded(known, Joined(labels), off));
      Compressed(labels, off, known) == Suffixed(CountedLabel(labels[0]) + c.bytes, c.known)
  {
  }

  lemma NoRoomForLabel(job: Job, st: Packing, labels: seq<Label>)
    requires AtLabel(job, st, labels) && PlainName(labels) && labels != [] && WireLabel(labels[0])
    requires job.start + |st.out| + 1 + |labels[0]| > job.lenmsg
    ensures PackRest(job, st).error == ErrBuf
  {
    ScanToTheDot(job, st, labels);
    ToTheDot(job, st, labels);
    assert Turn(job, AtDot(st, labels[0])).Stopped?;
  }

  lemma UnknownSuffix(job: Job, st: Packing, labels: seq<Label>, off: nat) returns (next: Packing)
    requires AtLabel(job, st, labels) && PlainName(labels) && labels != [] && WireLabel(labels[0])
    requires off == job.start + |st.out| && off + 1 + |labels[0]| <= job.lenmsg && Joined(labels) !in st.known
    ensures AtLabel(job, next, labels[1..]) && PackRest(job, st) == PackRest(job, next)
    ensures next.out == st.out + CountedLabel(labels[0])
    ensures next.known == Recorded(st.known, Joined(labels), off)
  {
    ScanToTheDot(job, st, labels);
    ToTheDot(job, st, labels);
    next := EmittedAtDot(job, AtDot(st, labels[0]), labels, off);
    SameRest(job, st, next);
  }

  lemma SameRest(job: Job, a: Packing, b: Packing)
    requires Scan(job, a) == Scan(job, b)
    ensures PackRest(job, a) == PackRest(job, b)
  {
  }

  lemma EmittedAtDot(job: Job, dot: Packing, labels: seq<Label>, off: nat) returns (next: Packing)
    requires labels != [] && DotOf(job, dot, labels) && WireLabel(dot.cur) && dot.cur == labels[0]
    requires job.compress && !job.counting && job.s != [Dot] && dot.stale == [] && Joined(labels) !in dot.known
    requires off == job.start + |dot.out| && off + 1 + |dot.cur| <= job.lenmsg
    ensures Scan(job, dot) == Scan(job, next) && AtLabel(job, next, labels[1..])
    ensures next.out == dot.out + CountedLabel(dot.cur)
    ensures next.known == Recorded(dot.known, Joined(labels), off)
  {
    next := Emitted(job, dot);
    assert |Joined(labels)| > 1;
    Associative<byte>(dot.out, [|dot.cur|], dot.cur);
    ScanGoes(job, dot, next);
  }

  lemma PacksToBehind(start: nat, out: seq<byte>, counted: seq<byte>, next: seq<byte>, r: Packed, c: Suffixed)
    requires next == out + counted && PacksTo(start, next, r, c)
    ensures PacksTo(start, out, r, Suffixed(counted + c.bytes, c.known))
  {
    Associative(out, counted, c.bytes);
  }

  lemma KnownSuffix(job: Job, st: Packing, labels: seq<Label>)
    requires AtLabel(job, st, labels) && PlainName(labels) && labels != [] && WireLabel(labels[0])
    requires job.start + |st.out| + 1 + |labels[0]| <= job.lenmsg && Joined(labels) in st.known
    ensures var r := PackRest(job, st);
      && PacksTo(job.start, st.out, r, Suffixed(PointerBytes(st.known[Joined(labels)]), st.known))
      && r.error == NoError
  {
    ScanToTheDot(job, st, labels);
    ToTheDot(job, st, labels);
    HitAtDot(job, AtDot(st, labels[0]), labels);
    var out := st.out + [|labels[0]|] + labels[0];
    assert out[..|st.out|] == st.out;
  }

  lemma HitAtDot(job: Job, dot: Packing, labels: seq<Label>)
    requires labels != [] && DotOf(job, dot, labels) && WireLabel(dot.cur) && dot.cur == labels[0]
    requires job.compress && Joined(labels) in dot.known && job.start + |dot.out| + 1 + |dot.cur| <= job.lenmsg
    ensures Scan(job, dot) == Hit(dot.out + [|dot.cur|] + dot.cur, dot.labels, dot.known,
                                  dot.known[Joined(labels)], |dot.out|)
  {
    assert |Joined(labels)| > 1;
  }

  /** The outcome of packing a name without escapes. */
  lemma PackCompresses(labels: seq<Label>, start: nat, lenmsg: nat, known: map<seq<byte>, nat>)
    requires PlainName(labels)
    ensures var r, c := Pack(Text(labels), start, Some(lenmsg), known, true), Compressed(labels, start, known);
      && (r.error == NoError ==> r.bytes == c.bytes && r.known == c.known && r.off == start + |c.bytes|)
      && (start + |Wire(labels)| <= lenmsg ==> r.error == NoError)
  {
    var s := Text(labels);
    var job := Job(s, start, lenmsg, false, true);
    var st := Start(known);
    if labels == [] {
      if start + 1 <= lenmsg {
        assert Key(job, st) == [Dot];
        assert Emitted(job, st) == Packing(1, [], false, [], [0], 1, known);
        assert Scan(job, Emitted(job, st)) == Ended([0], 1, known);
      }
    } else {
      JoinedEndsInADot(labels);
      assert WireLabel(labels[0]);
      assert s[0..] == s;
      PackingCompresses(job, st, labels);
      assert [] + Compressed(labels, start, known).bytes == Compressed(labels, start, known).bytes;
    }
  }

  lemma {:induction false} JoinedEndsInADot(labels: seq<Label>)
    requires labels != []
    ensures var s := Joined(labels); s != [] && s[|s| - 1] == Dot && |s| > |labels[0]|
    decreases |labels|
  {
    if |labels| > 1 {
      JoinedEndsInADot(labels[1..]);
    }
  }

  // ----- Decoding keeps up

  lemma StepExtends(msg: seq<byte>, more: seq<byte>, off: nat)
    requires !StepAt(msg, off).Stop?
    ensures StepAt(msg + more, off) == StepAt(msg, off)
  {
    var c: nat := msg[off];
    if 0 < c < 0x40 {
      assert (msg + more)[off + 1..off + 1 + c] == msg[off + 1..off + 1 + c];
    }
  }

  /** Bytes that are added later, and hops to spare, change nothing. */
  lemma {:induction false} DecodeExtends(msg: seq<byte>, more: seq<byte>, off: nat, hops: nat, spare: nat)
    requires Decode(msg, off, hops).Name?
    ensures Decode(msg + more, off, hops + spare) == Decode(msg, off, hops)
    decreases hops, |msg| - off
  {
    StepExtends(msg, more, off);
    match StepAt(msg, off)
    case End =>
    case Literal(_, next) => DecodeExtends(msg, more, next, hops, spare);
    case Pointer(target) => DecodeExtends(msg, more, target, hops - 1, spare);
  }

  lemma PointerIsRead(pointer: nat)
    requires pointer < MaxCompressionOffset
    ensures PointerBytes(pointer) == [0xC0 + pointer / 0x100, pointer % 0x100]
  {
    var n := 0xC000 + pointer;
    assert (3 - pointer / 0x4000 % 4) * 0x4000 + pointer % 0x4000 == n;
    BigEndian1(n / 0x100);
    assert BigEndian(n, 2) == BigEndian(n / 0x100, 1) + [n % 0x100];
  }

  lemma DecodePointer(msg: seq<byte>, pointer: nat, hops: nat)
    requires pointer < MaxCompressionOffset && Decode(msg, pointer, hops).Name?
    ensures Decode(msg + PointerBytes(pointer), |msg|, hops + 1) ==
            Name(Decode(msg, pointer, hops).labels, |msg| + 2)
  {
    PointerIsRead(pointer);
    var all := msg + PointerBytes(pointer);
    assert all[|msg|] == 0xC0 + pointer / 0x100 && all[|msg| + 1] == pointer % 0x100;
    assert StepAt(all, |msg|) == Pointer(pointer);
    DecodeExtends(msg, PointerBytes(pointer), pointer, hops, 0);
  }

  lemma {:induction false} JoinedIsInjective(a: seq<Label>, b: seq<Label>)
    requires PlainName(a) && PlainName(b) && Joined(a) == Joined(b)
    ensures a == b
    decreases |a|
  {
    if a != [] && b != [] {
      assert Plain(a[0]) && Plain(b[0]);
      FirstDot(a[0], Joined(a[1..]), b[0], Joined(b[1..]));
      JoinedIsInjective(a[1..], b[1..]);
      assert a == [a[0]] + a[1..] && b == [b[0]] + b[1..];
    }
  }

  function DotAt(s: seq<byte>): nat {
    if s == [] || s[0] == Dot then 0 else 1 + DotAt(s[1..])
  }

  lemma {:induction false} DotBehind(x: Label, rest: seq<byte>)
    requires Plain(x)
    ensures DotAt(x + [Dot] + rest) == |x|
    decreases |x|
  {
    if x == [] {
      assert x + [Dot] + rest == [Dot] + rest;
    } else {
      DotBehind(x[1..], rest);
      assert (x + [Dot] + rest)[1..] == x[1..] + [Dot] + rest;
    }
  }

  lemma FirstDot(x: Label, restX: seq<byte>, y: Label, restY: seq<byte>)
    requires Plain(x) && Plain(y) && x + [Dot] + restX == y + [Dot] + restY
    ensures x == y && restX == restY
  {
    var s := x + [Dot] + restX;
    DotBehind(x, restX);
    DotBehind(y, restY);
    assert x == s[..|x|] && y == s[..|y|];
    assert restX == s[|x| + 1..] && restY == s[|y| + 1..];
  }

  /** A decoder reads these labels from o, in fewer hops than there are labels. */
  predicate Reads(msg: seq<byte>, o: nat, labels: seq<Label>)
    requires labels != []
  {
    Decode(msg, o, |labels| - 1).Name? && Decode(msg, o, |labels| - 1).labels == labels
  }

  /** An entry of the map is good when a decoder reads the key's labels from it. */
  ghost predicate Points(msg: seq<byte>, key: seq<byte>, o: nat) {
    && o < MaxCompressionOffset
    && forall labels :: PlainName(labels) && labels != [] && Joined(labels) == key ==> Reads(msg, o, labels)
  }

  /** The entries that a suffix of this many bytes may hit are good. */
  ghost predicate Sound(msg: seq<byte>, known: map<seq<byte>, nat>, length: nat) {
    forall key :: key in known && |key| <= length ==> Points(msg, key, known[key])
  }

  lemma ReadsExtends(msg: seq<byte>, more: seq<byte>, o: nat, labels: seq<Label>)
    requires labels != [] && Reads(msg, o, labels)
    ensures Reads(msg + more, o, labels)
  {
    DecodeExtends(msg, more, o, |labels| - 1, 0);
  }

  lemma PointsExtends(msg: seq<byte>, more: seq<byte>, key: seq<byte>, o: nat)
    requires Points(msg, key, o)
    ensures Points(msg + more, key, o)
  {
    forall labels | PlainName(labels) && labels != [] && Joined(labels) == key
      ensures Reads(msg + more, o, labels)
    {
      ReadsExtends(msg, more, o, labels);
    }
  }

  lemma SoundExtends(msg: seq<byte>, more: seq<byte>, known: map<seq<byte>, nat>, length: nat)
    requires Sound(msg, known, length)
    ensures Sound(msg + more, known, length)
  {
    forall key | key in known && |key| <= length ensures Points(msg + more, key, known[key]) {
      PointsExtends(msg, more, key, known[key]);
    }
  }

  lemma PointsFromDecode(msg: seq<byte>, labels: seq<Label>, o: nat)
    requires PlainName(labels) && labels != [] && o < MaxCompressionOffset && Reads(msg, o, labels)
    ensures Points(msg, Joined(labels), o)
  {
    forall other | PlainName(other) && other != [] && Joined(other) == Joined(labels)
      ensures Reads(msg, o, other)
    {
      JoinedIsInjective(other, labels);
    }
  }

  /** Only new suffixes of the name are recorded, and old entries stay. */
  predicate Grows(known: map<seq<byte>, nat>, known': map<seq<byte>, nat>, length: nat) {
    && (forall key :: key in known ==> key in known' && known'[key] == known[key])
    && (forall key :: key in known' && key !in known ==> |key| <= length)
  }

  lemma {:induction false} CompressedGrows(labels: seq<Label>, off: nat, known: map<seq<byte>, nat>)
    requires WireName(labels)
    ensures Grows(known, Compressed(labels, off, known).known, |Joined(labels)|)
    decreases |labels|
  {
    if labels != [] && Joined(labels) !in known {
      var next := off + |CountedLabel(labels[0])|;
      CompressedGrows(labels[1..], next, Recorded(known, Joined(labels), off));
    }
  }

  /** One name behind a message whose reachable entries are sound: the decoder reads the name in at most as many
      hops as it has labels, and the entries stay sound. */
  lemma {:induction false} CompressedIsSound(msg: seq<byte>, labels: seq<Label>, known: map<seq<byte>, nat>,
                                             all: seq<byte>)
    requires PlainName(labels) && Sound(msg, known, |Joined(labels)|)
    requires all == msg + Compressed(labels, |msg|, known).bytes
    ensures Decode(all, |msg|, |labels|) == Name(labels, |all|)
    ensures labels != [] && Joined(labels) !in known ==> Decode(all, |msg|, |labels| - 1) == Name(labels, |all|)
    ensures Sound(all, Compressed(labels, |msg|, known).known, |Joined(labels)|)
    decreases |labels|
  {
    if labels == [] {
      assert all[|msg|] == 0;
      SoundExtends(msg, [0], known, 0);
      assert Compressed(labels, |msg|, known).known == known;
    } else if Joined(labels) in known {
      KnownIsSound(msg, labels, known);
      assert Compressed(labels, |msg|, known).known == known;
    } else {
      assert WireLabel(labels[0]);
      var counted, known1 := CountedLabel(labels[0]), Recorded(known, Joined(labels), |msg|);
      var c := Compressed(labels[1..], |msg + counted|, known1);
      NewSuffixUnfolds(labels, |msg|, known, |msg + counted|);
      Associative(msg, counted, c.bytes);
      SoundForTheRest(msg, labels, known, counted);
      CompressedIsSound(msg + counted, labels[1..], known1, all);
      CompressedGrows(labels[1..], |msg + counted|, known1);
      NewLabelIsDecoded(msg, labels, c.bytes, all);
      NewSuffixIsSound(msg, labels, known, all, c.known);
      assert Compressed(labels, |msg|, known).known == c.known;
    }
  }

  lemma KnownIsSound(msg: seq<byte>, labels: seq<Label>, known: map<seq<byte>, nat>)
    requires PlainName(labels) && Sound(msg, known, |Joined(labels)|) && labels != [] && Joined(labels) in known
    ensures var all := msg + PointerBytes(known[Joined(labels)]);
      Decode(all, |msg|, |labels|) == Name(labels, |all|) && Sound(all, known, |Joined(labels)|)
  {
    var o := known[Joined(labels)];
    assert Points(msg, Joined(labels), o);
    DecodePointer(msg, o, |labels| - 1);
    SoundExtends(msg, PointerBytes(o), known, |Joined(labels)|);
  }

  lemma SoundForTheRest(msg: seq<byte>, labels: seq<Label>, known: map<seq<byte>, nat>, counted: seq<byte>)
    requires labels != [] && Sound(msg, known, |Joined(labels)|)
    ensures Sound(msg + counted, Recorded(known, Joined(labels), |msg|), |Joined(labels[1..])|)
  {
    assert |Joined(labels[1..])| < |Joined(labels)|;
    SoundExtends(msg, counted, known, |Joined(labels)|);
  }

  lemma LabelIsDecoded(all: seq<byte>, off: nat, labels: seq<Label>)
    requires labels != [] && WireLabel(labels[0]) && At(all, off, CountedLabel(labels[0]))
    requires Decode(all, off + 1 + |labels[0]|, |labels| - 1) == Name(labels[1..], |all|)
    ensures Decode(all, off, |labels| - 1) == Name(labels, |all|)
  {
    DecodeLabel(all, off, labels[0], |labels| - 1);
    assert [labels[0]] + labels[1..] == labels;
  }

  lemma SpareHop(all: seq<byte>, off: nat, hops: nat)
    requires Decode(all, off, hops).Name?
    ensures Decode(all, off, hops + 1) == Decode(all, off, hops)
  {
    DecodeExtends(all, [], off, hops, 1);
    EmptyIsUnit(all);
  }

  lemma NewLabelIsDecoded(msg: seq<byte>, labels: seq<Label>, more: seq<byte>, all: seq<byte>)
    requires labels != [] && WireLabel(labels[0]) && all == msg + CountedLabel(labels[0]) + more
    requires Decode(all, |msg + CountedLabel(labels[0])|, |labels| - 1) == Name(labels[1..], |all|)
    ensures Decode(all, |msg|, |labels| - 1) == Name(labels, |all|)
    ensures Decode(all, |msg|, |labels|) == Name(labels, |all|)
  {
    AtBehind(msg, CountedLabel(labels[0]), more);
    LabelIsDecoded(all, |msg|, labels);
    SpareHop(all, |msg|, |labels| - 1);
  }

  lemma NewSuffixIsSound(msg: seq<byte>, labels: seq<Label>, known: map<seq<byte>, nat>,
                         all: seq<byte>, known': map<seq<byte>, nat>)
    requires PlainName(labels) && Sound(msg, known, |Joined(labels)|) && labels != [] && Joined(labels) !in known
    requires Grows(Recorded(known, Joined(labels), |msg|), known', |Joined(labels[1..])|)
    requires msg <= all && Sound(all, known', |Joined(labels[1..])|) && Reads(all, |msg|, labels)
    ensures Sound(all, known', |Joined(labels)|)
  {
    assert all == msg + all[|msg|..];
    forall key | key in known' && |key| <= |Joined(labels)| ensures Points(all, key, known'[key]) {
      if |key| > |Joined(labels[1..])| {
        if key in known {
          PointsExtends(msg, all[|msg|..], key, known[key]);
        } else {
          assert key in Recorded(known, Joined(labels), |msg|);
          PointsFromDecode(all, labels, |msg|);
        }
      }
    }
  }
}
