/** The presentation form of section 5.1 of RFC 1035 loses nothing: the unescaper inverts the escaper on labels of
    arbitrary bytes, and whatever packs without an error is a well-formed wire name. */
module DnsEscapes {
  import opened Bytes
  import opened Wrappers
  import opened DnsNames
  import opened Sequences

  // ----- Unpacking what is on the wire

  lemma {:induction false} DecodeWire(msg: seq<byte>, off: nat, labels: seq<Label>, hops: nat)
    requires WireName(labels) && At(msg, off, Wire(labels))
    ensures Decode(msg, off, hops) == Name(labels, off + |Wire(labels)|)
    decreases |labels|
  {
    if labels == [] {
      AtPoint(msg, off, Wire(labels), 0);
    } else {
      assert WireLabel(labels[0]);
      var counted, rest := CountedLabel(labels[0]), Wire(labels[1..]);
      Associative(counted, Encoded(labels[1..]), [0]);
      AtHead(msg, off, counted, rest);
      AtTail(msg, off, counted, rest);
      DecodeWire(msg, off + |counted|, labels[1..], hops);
      DecodeLabel(msg, off, labels[0], hops);
      assert [labels[0]] + labels[1..] == labels;
    }
  }

  // ----- Reading an escape back

  lemma DecimalDigits(b: byte)
    ensures b / 100 * 100 + b / 10 % 10 * 10 + b % 10 == b
  {
    var tens: int := b / 10;
    assert b == 10 * tens + b % 10;
    assert tens == 10 * (tens / 10) + tens % 10;
    assert tens / 10 == b / 100;
  }

  lemma DecimalReadsBack(b: byte)
    ensures DddToByte(Decimal(b)[0], Decimal(b)[1], Decimal(b)[2]) == b
  {
    DecimalDigits(b);
  }

  /** A backslash is an error when not even a length byte fits. */
  predicate NoRoom(job: Job, st: Packing) {
    job.start + |st.out| + 1 > job.lenmsg
  }

  predicate RanOut(r: Scanned) {
    r.Broken? && r.error == ErrBuf
  }

  /** The state behind some text that adds to the current label. */
  predicate Advanced(st: Packing, end: Packing, width: nat, l: Label) {
    end == st.(p := st.p + width, cur := st.cur + l, first := st.first && l == [], stale := end.stale)
  }

  lemma AdvancedTwice(st: Packing, mid: Packing, end: Packing, w: nat, v: nat, l: Label)
    requires l != [] && Advanced(st, mid, w, [l[0]]) && Advanced(mid, end, v, l[1..])
    ensures Advanced(st, end, w + v, l)
  {
    Associative(st.cur, [l[0]], l[1..]);
    assert [l[0]] + l[1..] == l;
  }

  lemma ScanEscape(job: Job, st: Packing, b: byte) returns (end: Packing)
    requires At(job.s, st.p, Escape(b))
    ensures Advanced(st, end, |Escape(b)|, [b])
    ensures Scan(job, st) == Scan(job, end) || (NoRoom(job, st) && RanOut(Scan(job, st)))
  {
    var e := Escape(b);
    assert job.s[st.p + 0] == e[0];
    if e == [b] {
      end := st.(p := st.p + 1, cur := st.cur + [b], first := false);
    } else {
      assert job.s[st.p + 1] == e[1];
      EscapeIsRead(job, st, b);
      end := Unescaped(job, st);
    }
  }

  lemma DigitsAreRead(job: Job, st: Packing, d: seq<byte>)
    requires |d| == 3 && (forall x :: x in d ==> IsDigit(x)) && At(job.s, st.p, [Backslash] + d)
    ensures Advanced(st, Unescaped(job, st), 4, [DddToByte(d[0], d[1], d[2])])
  {
    AtTail(job.s, st.p, [Backslash], d);
    AtPoint(job.s, st.p + 1, d, 0);
    AtPoint(job.s, st.p + 1, d, 1);
    AtPoint(job.s, st.p + 1, d, 2);
  }

  lemma EscapeIsRead(job: Job, st: Packing, b: byte)
    requires At(job.s, st.p, Escape(b)) && Escape(b) != [b]
    ensures st.p + 1 < |job.s|
    ensures Advanced(st, Unescaped(job, st), |Escape(b)|, [b])
  {
    AtPoint(job.s, st.p, Escape(b), 1);
    if Escape(b) == [Backslash] + Decimal(b) {
      DigitsAreRead(job, st, Decimal(b));
      DecimalReadsBack(b);
    }
  }

  lemma {:induction false} ScanLabel(job: Job, st: Packing, l: Label) returns (end: Packing)
    requires At(job.s, st.p, EscapeLabel(l))
    ensures Advanced(st, end, |EscapeLabel(l)|, l)
    ensures Scan(job, st) == Scan(job, end) || (NoRoom(job, st) && RanOut(Scan(job, st)))
    decreases |l|
  {
    if l == [] {
      end := st;
      assert st.cur + [] == st.cur;
    } else {
      AtHead(job.s, st.p, Escape(l[0]), EscapeLabel(l[1..]));
      AtTail(job.s, st.p, Escape(l[0]), EscapeLabel(l[1..]));
      var mid := ScanEscape(job, st, l[0]);
      end := ScanLabel(job, mid, l[1..]);
      AdvancedTwice(st, mid, end, |Escape(l[0])|, |EscapeLabel(l[1..])|, l);
    }
  }

  lemma ScanDot(job: Job, dot: Packing)
    requires !job.compress && dot.p < |job.s| && job.s[dot.p] == Dot && 0 < |dot.cur| < 64
    ensures if job.start + |dot.out| + 1 + |dot.cur| <= job.lenmsg then Scan(job, dot) == Scan(job, Emitted(job, dot))
            else RanOut(Scan(job, dot))
  {
    if job.start + |dot.out| + 1 + |dot.cur| <= job.lenmsg {
      ScanGoes(job, dot, Emitted(job, dot));
    }
  }

  /** The state behind a label of l and its dot. */
  function BehindDot(st: Packing, width: nat, l: Label, stale: seq<byte>): Packing
    requires WireLabel(l)
  {
    Packing(st.p + width + 1, [], false, stale, st.out + CountedLabel(l), st.labels + 1, st.known)
  }

  lemma EmittedBehind(job: Job, st: Packing, dot: Packing, width: nat, l: Label)
    requires !job.compress && WireLabel(l) && st.cur == [] && Advanced(st, dot, width, l) && dot.p < |job.s|
    ensures dot.cur == l && Emitted(job, dot) == BehindDot(st, width, l, dot.stale)
  {
    EmptyIsUnit(l);
    Associative(st.out, [|l|], l);
  }

  /** A whole label and its dot. */
  lemma ScanLabelAndDot(job: Job, st: Packing, l: Label) returns (end: Packing)
    requires !job.compress && WireLabel(l) && st.cur == []
    requires At(job.s, st.p, EscapeLabel(l) + [Dot])
    ensures end == BehindDot(st, |EscapeLabel(l)|, l, end.stale)
    ensures if job.start + |st.out| + 1 + |l| <= job.lenmsg then Scan(job, st) == Scan(job, end)
            else RanOut(Scan(job, st))
  {
    AtHead(job.s, st.p, EscapeLabel(l), [Dot]);
    AtTail(job.s, st.p, EscapeLabel(l), [Dot]);
    var dot := ScanLabel(job, st, l);
    AtPoint(job.s, dot.p, [Dot], 0);
    EmittedBehind(job, st, dot, |EscapeLabel(l)|, l);
    ScanDot(job, dot);
    end := Emitted(job, dot);
  }

  lemma {:induction false} ScanLabels(job: Job, st: Packing, labels: seq<Label>)
    requires !job.compress && WireName(labels) && st.cur == []
    requires At(job.s, st.p, Dotted(labels)) && |job.s| == st.p + |Dotted(labels)|
    ensures if labels == [] || job.start + |st.out| + |Encoded(labels)| <= job.lenmsg
            then Scan(job, st) == Ended(st.out + Encoded(labels), st.labels + |labels|, st.known)
            else RanOut(Scan(job, st))
    decreases |labels|
  {
    if labels == [] {
      assert st.out + [] == st.out;
    } else {
      var l, text, rest := labels[0], EscapeLabel(labels[0]) + [Dot], Dotted(labels[1..]);
      AtHead(job.s, st.p, text, rest);
      AtTail(job.s, st.p, text, rest);
      var end := ScanLabelAndDot(job, st, l);
      assert end.p == st.p + |text|;
      ScanLabels(job, end, labels[1..]);
      Associative(st.out, CountedLabel(l), Encoded(labels[1..]));
    }
  }

  lemma {:induction false} DottedEndsInADot(labels: seq<Label>)
    requires labels != []
    ensures var s := Dotted(labels); s != [] && s[|s| - 1] == Dot && (WireName(labels) ==> |s| > 1)
    decreases |labels|
  {
    var text := EscapeLabel(labels[0]) + [Dot];
    if |labels| > 1 {
      DottedEndsInADot(labels[1..]);
    } else {
      EmptyIsUnit(text);
    }
    if WireName(labels) {
      assert WireLabel(labels[0]);
      EscapedIsNotEmpty(labels[0]);
      assert |text| > 1;
    }
  }

  lemma EscapedIsNotEmpty(l: Label)
    requires l != []
    ensures EscapeLabel(l) != []
  {
    assert |Escape(l[0])| >= 1;
  }

  // ----- The main results

  /** What packing the text of any wire name gives, by the room there is behind the start. A buffer with room for
      all labels but not for the zero byte behind them is an index out of range. */
  lemma PackOfPresent(labels: seq<Label>, start: nat, lenmsg: nat, known: map<seq<byte>, nat>)
    requires WireName(labels)
    ensures var r := Pack(Present(labels), start, Some(lenmsg), known, false);
      var end := start + |Wire(labels)|;
      && (end <= lenmsg ==>
            r == Packed(end, if labels == [] then 1 else |labels|, NoError, Wire(labels), known))
      && (end == lenmsg + 1 ==> r.error == if labels == [] then ErrBuf else Panicked)
      && (end > lenmsg + 1 ==> r.error == ErrBuf)
  {
    var s := Present(labels);
    var job := Job(s, start, lenmsg, false, false);
    if labels == [] {
      assert Scan(job, Start(known)) ==
        if start + 1 > lenmsg then Broken(ErrBuf, 0, known) else Ended([0], 1, known) by {
        var st := Start(known);
        if start + 1 <= lenmsg {
          assert Emitted(job, st) == Packing(1, [], false, [], [0], 1, known);
          assert Scan(job, Emitted(job, st)) == Ended([0], 1, known);
        }
      }
    } else {
      DottedEndsInADot(labels);
      assert s[0..] == s;
      ScanLabels(job, Start(known), labels);
      assert [] + Encoded(labels) == Encoded(labels);
    }
  }

  /** For every uncompressed name on the wire: unpacking reads it, and packing the text that unpacking
      gives writes the same bytes again. */
  lemma PresentationIsLossless(msg: seq<byte>, off: nat, labels: seq<Label>, start: nat, lenmsg: nat)
    requires WireName(labels)
    requires At(msg, off, Wire(labels))
    requires start + |Wire(labels)| <= lenmsg
    ensures var read := Decode(msg, off, 10);
      && read.Name? && read.next == off + |Wire(labels)|
      && var r := Pack(Present(read.labels), start, Some(lenmsg), map[], false);
      && r.error == NoError && r.bytes == msg[off..read.next] && r.off == start + |r.bytes|
  {
    DecodeWire(msg, off, labels, MaxPointers);
    AtIsSlice(msg, off, Wire(labels));
    PackOfPresent(labels, start, lenmsg, map[]);
  }

  /** IsDomainName is said not to look at the length of the whole name, but counting labels takes place in 256
      imaginary bytes: a name is valid exactly when its labels and their lengths fit there. */
  lemma LongNamesAreInvalid(labels: seq<Label>)
    requires WireName(labels)
    ensures var r := Pack(Present(labels), 0, None, map[], false);
      && (r.error == NoError <==> |Wire(labels)| <= 257)
      && (r.error == NoError ==> r.labels == if labels == [] then 1 else |labels|)
  {
    var s := Present(labels);
    var job := Job(s, 0, 256, true, false);
    if labels == [] {
      var st := Start(map[]);
      assert Emitted(job, st) == Packing(1, [], false, [], [0], 1, map[]);
      assert Scan(job, Emitted(job, st)) == Ended([0], 1, map[]);
    } else {
      DottedEndsInADot(labels);
      ScanLabels(job, Start(map[]), labels);
    }
  }

  /** Different names have different texts. */
  lemma PresentIsInjective(a: seq<Label>, b: seq<Label>)
    requires WireName(a) && WireName(b) && Present(a) == Present(b)
    ensures a == b
  {
    var room := |Wire(a)| + |Wire(b)|;
    PackOfPresent(a, 0, room, map[]);
    PackOfPresent(b, 0, room, map[]);
    assert Wire(a) == Wire(b);
    var msg: seq<byte> := Wire(a);
    DecodeWire(msg, 0, a, 0);
    DecodeWire(msg, 0, b, 0);
  }

  // ----- Whatever packs is a wire name

  lemma {:induction false} EncodedSnoc(labels: seq<Label>, l: Label)
    requires WireName(labels) && WireLabel(l)
    ensures WireName(labels + [l])
    ensures Encoded(labels + [l]) == Encoded(labels) + CountedLabel(l)
    decreases |labels|
  {
    if labels == [] {
      assert [l][1..] == [];
      EmptyIsUnit([l]);
      EmptyIsUnit(CountedLabel(l));
    } else {
      EncodedSnoc(labels[1..], l);
      assert (labels + [l])[1..] == labels[1..] + [l];
      Associative(CountedLabel(labels[0]), Encoded(labels[1..]), CountedLabel(l));
    }
  }

  lemma {:induction false} ScanIsWellFormed(job: Job, st: Packing, done: seq<Label>) returns (labels: seq<Label>)
    requires !job.compress && WireName(done) && st.out == Encoded(done) && st.labels == |done|
    requires st.first ==> st.p < |job.s| && job.s[st.p] != Dot
    ensures WireName(labels)
    ensures var r := Scan(job, st);
      && !r.Hit? && (r.Broken? ==> r.error != NoError)
      && (r.Ended? ==> r.out == Encoded(labels) && r.labels == |labels| && r.known == st.known)
    decreases |job.s| - st.p
  {
    labels := done;
    if st.p < |job.s| {
      var b := job.s[st.p];
      if b == Backslash {
        if st.p + 1 < |job.s| {
          labels := ScanIsWellFormed(job, Unescaped(job, st), done);
        }
      } else if b != Dot {
        labels := ScanIsWellFormed(job, st.(p := st.p + 1, cur := st.cur + [b], first := false), done);
      } else if st.cur != [] && |st.cur| < 64 {
        EncodedSnoc(done, st.cur);
        assert st.out + [|st.cur|] + st.cur == st.out + CountedLabel(st.cur);
        labels := ScanIsWellFormed(job, Emitted(job, st), done + [st.cur]);
      }
    }
  }

  /** Every text that packs without an error, unless it starts with a dot, is written as a wire name with as many
      labels as reported; so unpacking it and packing the result changes nothing. */
  lemma PackedIsAWireName(s: seq<byte>, start: nat, lenmsg: nat) returns (labels: seq<Label>)
    requires s != [] && s[0] != Dot
    requires Pack(s, start, Some(lenmsg), map[], false).error == NoError
    ensures var r := Pack(s, start, Some(lenmsg), map[], false);
      && WireName(labels) && r.bytes == Wire(labels) && r.labels == |labels|
      && (labels != [] ==> Pack(Present(labels), start, Some(lenmsg), map[], false) == r)
  {
    var job := Job(s, start, lenmsg, false, false);
    labels := ScanIsWellFormed(job, Start(map[]), []);
    PackOfPresent(labels, start, lenmsg, map[]);
  }
}
