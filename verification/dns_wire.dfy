/** The wire form byte by byte: what a reader refuses, where a compressed name points, and which texts do not pack. */
module DnsWire {
  import opened Bytes
  import opened Sequences
  import opened Wrappers
  import opened DnsNames
  import opened DnsEscapes
  import opened DnsCompression

  // ----- Reading

  /** Length bytes from 64 to 191 are reserved; labels, pointers and names must lie within the message. */
  lemma Refused(msg: seq<byte>, off: nat, hops: nat)
    ensures off >= |msg| ==> Decode(msg, off, hops) == Failed(ErrBuf)
    ensures off < |msg| && 64 <= msg[off] < 192 ==> Decode(msg, off, hops) == Failed(ErrRdata)
    ensures off < |msg| && 0 < msg[off] < 64 && off + 1 + msg[off] > |msg| ==>
      Decode(msg, off, hops) == Failed(ErrBuf)
    ensures off + 1 == |msg| && msg[off] >= 192 ==> Decode(msg, off, hops) == Failed(ErrBuf)
  {
  }

  /** The name continues elsewhere. */
  function Continued(rest: Unpacked, next: nat): Unpacked {
    if rest.Failed? then rest else Name(rest.labels, next)
  }

  /** The lower fourteen bits of two bytes from 192 on are an offset where the name continues; each one takes a hop. */
  lemma Followed(msg: seq<byte>, off: nat, hops: nat, high: nat, low: nat)
    requires off + 1 < |msg| && msg[off] == high >= 192 && msg[off + 1] == low
    ensures hops == 0 ==> Decode(msg, off, hops) == Failed(ErrPointers)
    ensures hops > 0 ==>
      Decode(msg, off, hops) == Continued(Decode(msg, (high - 192) * 256 + low, hops - 1), off + 2)
  {
    assert StepAt(msg, off) == Pointer((high - 192) * 256 + low);
  }

  // ----- Compression

  /** Joined texts of longer suffixes are longer. */
  lemma SuffixIsShorter(labels: seq<Label>)
    requires labels != []
    ensures |Joined(labels[1..])| < |Joined(labels)|
  {
  }

  lemma {:induction false} LaterIsShorter(labels: seq<Label>, k: nat)
    requires labels != [] && 0 < k <= |labels|
    ensures |Joined(labels[k..])| < |Joined(labels)|
    decreases |labels|
  {
    SuffixIsShorter(labels);
    if k > 1 {
      LaterIsShorter(labels[1..], k - 1);
      assert labels[1..][k - 1..] == labels[k..];
    }
  }

  /** No proper suffix in front of the k-th is known. */
  ghost predicate FirstKnown(labels: seq<Label>, known: map<seq<byte>, nat>, k: nat) {
    && k <= |labels|
    && (forall i :: 0 <= i < k ==> Joined(labels[i..]) !in known)
    && (k < |labels| ==> Joined(labels[k..]) in known)
  }

  /** The longest suffix that is known becomes a pointer to where it stands; the labels in front of it, or all labels
      and a zero byte when none is known, are written out. */
  lemma {:induction false} LongestKnownSuffixIsPointedAt(labels: seq<Label>, off: nat, known: map<seq<byte>, nat>,
                                                         k: nat)
    requires WireName(labels) && FirstKnown(labels, known, k)
    ensures WireName(labels[..k])
    ensures Compressed(labels, off, known).bytes ==
      Encoded(labels[..k]) + if k == |labels| then [0] else PointerBytes(known[Joined(labels[k..])])
    decreases |labels|
  {
    assert labels[0..] == labels;
    if k == 0 {
      EmptyIsUnit(Compressed(labels, off, known).bytes);
      assert labels[..k] == [];
    } else {
      var l, more, key := labels[0], labels[1..], Joined(labels);
      assert WireLabel(l);
      var next, known1 := off + |CountedLabel(l)|, Recorded(known, key, off);
      RestIsFirstKnown(labels, known, k, off);
      LongestKnownSuffixIsPointedAt(more, next, known1, k - 1);
      NewSuffixUnfolds(labels, off, known, next);
      assert labels[..k] == [l] + more[..k - 1];
      assert Encoded([l] + more[..k - 1]) == CountedLabel(l) + Encoded(more[..k - 1]) by {
        assert ([l] + more[..k - 1])[1..] == more[..k - 1];
      }
      assert more[k - 1..] == labels[k..];
      LaterIsShorter(labels, k);
      Associative(CountedLabel(l), Encoded(more[..k - 1]),
                  if k == |labels| then [0] else PointerBytes(known[Joined(labels[k..])]));
    }
  }

  lemma RestIsFirstKnown(labels: seq<Label>, known: map<seq<byte>, nat>, k: nat, off: nat)
    requires FirstKnown(labels, known, k) && 0 < k
    ensures FirstKnown(labels[1..], Recorded(known, Joined(labels), off), k - 1) && Joined(labels) !in known
  {
    assert labels[0..] == labels;
    var more := labels[1..];
    forall i | 0 <= i < k - 1 ensures Joined(more[i..]) !in Recorded(known, Joined(labels), off) {
      assert more[i..] == labels[i + 1..];
      LaterIsShorter(labels, i + 1);
    }
    if k < |labels| {
      assert more[k - 1..] == labels[k..];
    }
  }

  predicate Records(known: map<seq<byte>, nat>, key: seq<byte>, at: nat) {
    if at < 16384 then key in known && known[key] == at else key !in known
  }

  /** And every suffix written out is known from then on, by its offset, unless that is 16384 or more. */
  lemma {:induction false} WrittenSuffixesAreRecorded(labels: seq<Label>, off: nat, known: map<seq<byte>, nat>, k: nat,
                                                      i: nat, key: seq<byte>, at: nat)
    requires WireName(labels) && FirstKnown(labels, known, k) && i < k && WireName(labels[..i])
    requires key == Joined(labels[i..]) && at == off + |Encoded(labels[..i])|
    ensures Records(Compressed(labels, off, known).known, key, at)
    decreases |labels|
  {
    assert WireLabel(labels[0]);
    var more, next, known1 := labels[1..], off + |CountedLabel(labels[0])|, Recorded(known, Joined(labels), off);
    RestIsFirstKnown(labels, known, k, off);
    NewSuffixUnfolds(labels, off, known, next);
    if i == 0 {
      assert labels[0..] == labels && labels[..0] == [];
      FirstIsRecorded(labels, off, next, known);
    } else {
      assert more[i - 1..] == labels[i..];
      FirstEncoded(labels, i);
      WrittenSuffixesAreRecorded(more, next, known1, k - 1, i - 1, key, at);
    }
  }

  lemma FirstIsRecorded(labels: seq<Label>, off: nat, next: nat, known: map<seq<byte>, nat>)
    requires WireName(labels) && labels != [] && Joined(labels) !in known
    ensures Records(Compressed(labels[1..], next, Recorded(known, Joined(labels), off)).known, Joined(labels), off)
  {
    CompressedGrows(labels[1..], next, Recorded(known, Joined(labels), off));
    SuffixIsShorter(labels);
  }

  lemma FirstEncoded(labels: seq<Label>, i: nat)
    requires WireName(labels) && 0 < i <= |labels| && WireLabel(labels[0])
    ensures WireName(labels[..i]) && WireName(labels[1..][..i - 1])
    ensures Encoded(labels[..i]) == CountedLabel(labels[0]) + Encoded(labels[1..][..i - 1])
  {
    assert labels[..i][1..] == labels[1..][..i - 1];
  }

  /** Packing a plain name into a message with room: exactly these bytes. */
  lemma PackedNameIs(labels: seq<Label>, start: nat, lenmsg: nat, known: map<seq<byte>, nat>, k: nat,
                     front: seq<Label>, r: Packed)
    requires PlainName(labels) && start + |Wire(labels)| <= lenmsg && FirstKnown(labels, known, k)
    requires front == labels[..k] && r == Pack(Text(labels), start, Some(lenmsg), known, true)
    ensures WireName(front) && r.error == NoError && r.off == start + |r.bytes|
    ensures k == |labels| ==> r.bytes == Encoded(front) + [0]
    ensures k < |labels| && known[Joined(labels[k..])] < 16384 ==>
      var p := known[Joined(labels[k..])]; r.bytes == Encoded(front) + [192 + p / 256, p % 256]
  {
    PackCompresses(labels, start, lenmsg, known);
    var c := Compressed(labels, start, known);
    assert r.bytes == c.bytes;
    CompressedIs(labels, start, known, k, front, c);
  }

  lemma CompressedIs(labels: seq<Label>, start: nat, known: map<seq<byte>, nat>, k: nat, front: seq<Label>, c: Suffixed)
    requires WireName(labels) && FirstKnown(labels, known, k)
    requires front == labels[..k] && c == Compressed(labels, start, known)
    ensures WireName(front)
    ensures k == |labels| ==> c.bytes == Encoded(front) + [0]
    ensures k < |labels| && known[Joined(labels[k..])] < 16384 ==>
      var p := known[Joined(labels[k..])]; c.bytes == Encoded(front) + [192 + p / 256, p % 256]
  {
    LongestKnownSuffixIsPointedAt(labels, start, known, k);
    if k < |labels| && known[Joined(labels[k..])] < 16384 {
      PointerIsRead(known[Joined(labels[k..])]);
    }
  }

  // ----- Texts that do not pack

  /** A text without a final dot is not packed into a message. */
  lemma NotFullyQualified(s: seq<byte>, start: nat, lenmsg: nat, known: map<seq<byte>, nat>, compress: bool)
    requires s != [] && s[|s| - 1] != 46
    ensures Pack(s, start, Some(lenmsg), known, compress) == Packed(lenmsg, 0, ErrFqdn, [], known)
  {
  }

  /** Behind the labels whose text was scanned. */
  predicate BehindLabels(st: Packing, end: Packing, labels: seq<Label>)
    requires WireName(labels)
  {
    && end.p == st.p + |Dotted(labels)| && end.cur == [] && end.out == st.out + Encoded(labels)
    && end.labels == st.labels + |labels| && end.known == st.known && (end.first <==> st.first && labels == [])
  }

  lemma {:induction false} ScanGoodLabels(job: Job, st: Packing, labels: seq<Label>) returns (end: Packing)
    requires !job.compress && WireName(labels) && st.cur == []
    requires At(job.s, st.p, Dotted(labels)) && job.start + |st.out| + |Encoded(labels)| <= job.lenmsg
    ensures Scan(job, st) == Scan(job, end) && BehindLabels(st, end, labels)
    decreases |labels|
  {
    if labels == [] {
      end := st;
      EmptyIsUnit(st.out);
    } else {
      var l, text, rest := labels[0], EscapeLabel(labels[0]) + [Dot], Dotted(labels[1..]);
      assert WireLabel(l);
      AtHead(job.s, st.p, text, rest);
      AtTail(job.s, st.p, text, rest);
      var mid := ScanLabelAndDot(job, st, l);
      end := ScanGoodLabels(job, mid, labels[1..]);
      BehindAll(st, mid, end, labels);
    }
  }

  lemma BehindAll(st: Packing, mid: Packing, end: Packing, labels: seq<Label>)
    requires WireName(labels) && labels != [] && WireLabel(labels[0])
    requires mid == BehindDot(st, |EscapeLabel(labels[0])|, labels[0], mid.stale)
    requires BehindLabels(mid, end, labels[1..])
    ensures BehindLabels(st, end, labels)
  {
    Associative(st.out, CountedLabel(labels[0]), Encoded(labels[1..]));
  }

  /** A label of 64 bytes or more, or an empty one behind another, is refused after the labels in front of it have
      been counted, whatever follows. */
  lemma BadLabelIsRefused(labels: seq<Label>, bad: Label, more: seq<byte>, start: nat, lenmsg: nat)
    requires WireName(labels) && (|bad| >= 64 || (bad == [] && labels != []))
    requires start + |Encoded(labels)| + 1 <= lenmsg
    requires more != [] ==> more[|more| - 1] == Dot
    ensures var r := Pack(Dotted(labels) + EscapeLabel(bad) + [Dot] + more, start, Some(lenmsg), map[], false);
      r.error == ErrRdata && r.labels == |labels| && r.off == lenmsg
  {
    var front := Dotted(labels);
    var s := Dotted(labels) + EscapeLabel(bad) + [Dot] + more;
    var job := Job(s, start, lenmsg, false, false);
    assert s[|s| - 1] == Dot;
    StandsIn(front, EscapeLabel(bad), more, s);
    var mid := ScanGoodLabels(job, Start(map[]), labels);
    EmptyIsUnit(Encoded(labels));
    var dot := ScanLabel(job, mid, bad);
    AtPoint(s, dot.p, [Dot], 0);
    EmptyIsUnit(bad);
    DotRefuses(job, dot);
  }

  lemma DotRefuses(job: Job, dot: Packing)
    requires dot.p < |job.s| && job.s[dot.p] == Dot && (|dot.cur| >= 64 || (dot.cur == [] && !dot.first))
    ensures Scan(job, dot) == Broken(ErrRdata, dot.labels, dot.known)
  {
  }

  lemma StandsIn(front: seq<byte>, text: seq<byte>, more: seq<byte>, s: seq<byte>)
    requires s == front + text + [Dot] + more
    ensures At(s, 0, front) && At(s, |front|, text) && At(s, |front| + |text|, [Dot])
  {
    assert forall i :: 0 <= i < |text| ==> s[|front| + i] == text[i];
  }
}
