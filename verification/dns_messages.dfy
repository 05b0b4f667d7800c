/** Names packed back to back into one message through one compression map, and how the decoder's budget of ten
    pointers relates to them. */
module DnsMessages {
  import opened Bytes
  import opened Wrappers
  import opened Sequences
  import opened DnsNames
  import opened DnsCompression

  /** The message so far and where each name starts; packing stops at the first error. */
  datatype Written = Written(error: Error, msg: seq<byte>, starts: seq<nat>)

  function PackAll(names: seq<seq<Label>>, msg: seq<byte>, known: map<seq<byte>, nat>, lenmsg: nat): Written {
    if names == [] then Written(NoError, msg, [])
    else
      var r := Pack(Text(names[0]), |msg|, Some(lenmsg), known, true);
      if r.error != NoError then Written(r.error, msg, [])
      else
        var rest := PackAll(names[1..], msg + r.bytes, r.known, lenmsg);
        Written(rest.error, rest.msg, [|msg|] + rest.starts)
  }

  /** Where name i ends. */
  function EndOf(w: Written, i: nat): nat {
    if i + 1 < |w.starts| then w.starts[i + 1] else |w.msg|
  }

  ghost predicate AllSound(msg: seq<byte>, known: map<seq<byte>, nat>) {
    forall key :: key in known ==> Points(msg, key, known[key])
  }

  predicate PlainNames(names: seq<seq<Label>>) {
    forall i :: 0 <= i < |names| ==> PlainName(names[i])
  }

  function Size(names: seq<seq<Label>>): nat
    requires PlainNames(names)
  {
    if names == [] then 0 else |Wire(names[0])| + Size(names[1..])
  }

  lemma OneMoreName(msg: seq<byte>, labels: seq<Label>, known: map<seq<byte>, nat>, lenmsg: nat)
    requires PlainName(labels) && AllSound(msg, known)
    requires Pack(Text(labels), |msg|, Some(lenmsg), known, true).error == NoError
    ensures var r := Pack(Text(labels), |msg|, Some(lenmsg), known, true);
      && r.off == |msg + r.bytes|
      && AllSound(msg + r.bytes, r.known)
      && Decode(msg + r.bytes, |msg|, |labels|) == Name(labels, r.off)
  {
    var c := Compressed(labels, |msg|, known);
    PackCompresses(labels, |msg|, lenmsg, known);
    CompressedIsSound(msg, labels, known, msg + c.bytes);
    CompressedGrows(labels, |msg|, known);
    forall key | key in c.known ensures Points(msg + c.bytes, key, c.known[key]) {
      if |key| > |Joined(labels)| {
        PointsExtends(msg, c.bytes, key, known[key]);
      }
    }
  }

  lemma {:induction false} CompressedIsShorter(labels: seq<Label>, off: nat, known: map<seq<byte>, nat>)
    requires WireName(labels)
    ensures |Compressed(labels, off, known).bytes| <= |Wire(labels)|
    decreases |labels|
  {
    if labels != [] {
      assert WireLabel(labels[0]);
      var next := off + |CountedLabel(labels[0])|;
      CompressedIsShorter(labels[1..], next, Recorded(known, Joined(labels), off));
    }
  }

  /** Name i stands at its start. */
  predicate Stands(w: Written, i: nat, labels: seq<Label>)
    requires i < |w.starts|
  {
    Decode(w.msg, w.starts[i], |labels|) == Name(labels, EndOf(w, i))
  }

  /** For any names without escapes, whatever part of them was packed without an error: unpacking at each start
      gives the name and the offset behind it. Without compression they would have needed at least as much room. */
  lemma {:induction false} NamesSurvive(names: seq<seq<Label>>, msg: seq<byte>, known: map<seq<byte>, nat>, lenmsg: nat)
    requires PlainNames(names) && AllSound(msg, known)
    ensures var w := PackAll(names, msg, known, lenmsg);
      && msg <= w.msg && |w.starts| <= |names| && (w.starts != [] ==> w.starts[0] == |msg|)
      && (w.error == NoError ==> |w.starts| == |names|)
      && (|msg| + Size(names) <= lenmsg ==> w.error == NoError)
      && (w.starts == [] ==> w.msg == msg)
      && forall i :: 0 <= i < |w.starts| ==> Stands(w, i, names[i])
    decreases |names|
  {
    if names != [] {
      var r := Pack(Text(names[0]), |msg|, Some(lenmsg), known, true);
      PackCompresses(names[0], |msg|, lenmsg, known);
      CompressedIsShorter(names[0], |msg|, known);
      if r.error == NoError {
        OneMoreName(msg, names[0], known, lenmsg);
        NamesSurvive(names[1..], msg + r.bytes, r.known, lenmsg);
        FirstStands(names, msg + r.bytes, |msg|, PackAll(names[1..], msg + r.bytes, r.known, lenmsg));
      }
    }
  }

  /** One name, ending where the rest begins, in front of names that stand. */
  lemma FirstStands(names: seq<seq<Label>>, msg: seq<byte>, first: nat, rest: Written)
    requires names != [] && msg <= rest.msg && |rest.starts| <= |names[1..]|
    requires Decode(msg, first, |names[0]|) == Name(names[0], |msg|)
    requires if rest.starts == [] then rest.msg == msg else rest.starts[0] == |msg|
    requires forall i :: 0 <= i < |rest.starts| ==> Stands(rest, i, names[1..][i])
    ensures var w := Written(rest.error, rest.msg, [first] + rest.starts);
      forall i :: 0 <= i < |w.starts| ==> Stands(w, i, names[i])
  {
    var w := Written(rest.error, rest.msg, [first] + rest.starts);
    forall i | 0 <= i < |w.starts| ensures Stands(w, i, names[i]) {
      if i == 0 {
        assert rest.msg == msg + rest.msg[|msg|..];
        DecodeExtends(msg, rest.msg[|msg|..], first, |names[0]|, 0);
      } else {
        StandsBehind(w, rest, i, names[1..][i - 1]);
      }
    }
  }

  lemma StandsBehind(w: Written, rest: Written, i: nat, labels: seq<Label>)
    requires 0 < i < |w.starts| && w.msg == rest.msg && w.starts[1..] == rest.starts
    requires Stands(rest, i - 1, labels)
    ensures Stands(w, i, labels)
  {
    assert rest.starts[i - 1] == w.starts[i];
    if i + 1 < |w.starts| {
      assert rest.starts[i] == w.starts[i + 1];
    }
  }

  // ----- The budget

  /** A name of at most ten labels is always read within the budget. */
  lemma TenLabelsFitTheBudget(names: seq<seq<Label>>, lenmsg: nat, i: nat)
    requires PlainNames(names)
    requires i < |PackAll(names, [], map[], lenmsg).starts| && i < |names| && |names[i]| <= 10
    ensures var w := PackAll(names, [], map[], lenmsg);
      ReadAt(w, i, 10) == Name(names[i], EndOf(w, i))
  {
    var w := PackAll(names, [], map[], lenmsg);
    NamesSurvive(names, [], map[], lenmsg);
    assert Stands(w, i, names[i]);
    DecodeExtends(w.msg, [], w.starts[i], |names[i]|, MaxPointers - |names[i]|);
    EmptyIsUnit(w.msg);
  }

  /** n labels, all of them "a". */
  function Chain(n: nat): (c: seq<Label>)
    ensures |c| == n && PlainName(c)
  {
    if n == 0 then [] else [[97]] + Chain(n - 1)
  }

  /** The names "a.", "a.a.", and so on up to n labels, and the longest once more. */
  function ChainNames(k: nat, n: nat): (names: seq<seq<Label>>)
    requires k <= n
    ensures |names| == n - k + 1 && PlainNames(names)
    decreases n - k
  {
    if k == n then [Chain(n)] else [Chain(k + 1)] + ChainNames(k + 1, n)
  }

  lemma {:induction false} ChainLength(n: nat)
    ensures |Joined(Chain(n))| == 2 * n
  {
    if n > 0 {
      ChainLength(n - 1);
      assert Chain(n)[1..] == Chain(n - 1);
    }
  }

  /** The name of k labels was recorded at o, as the longest so far, and reading it takes k - 1 hops. */
  ghost predicate Linked(msg: seq<byte>, known: map<seq<byte>, nat>, k: nat, o: nat) {
    && Joined(Chain(k)) in known && known[Joined(Chain(k))] == o && o < MaxCompressionOffset
    && (forall key :: key in known ==> |key| <= 2 * k)
    && (forall h: nat :: h + 1 < k ==> Decode(msg, o, h) == Failed(ErrPointers))
  }

  /** Running out of hops does not depend on bytes that are added later. */
  lemma {:induction false} PointersExtend(msg: seq<byte>, more: seq<byte>, off: nat, hops: nat)
    requires Decode(msg, off, hops) == Failed(ErrPointers)
    ensures Decode(msg + more, off, hops) == Failed(ErrPointers)
    decreases hops, |msg| - off
  {
    if !StepAt(msg, off).Stop? {
      StepExtends(msg, more, off);
    }
    match StepAt(msg, off)
    case Stop(_) =>
    case End =>
    case Literal(_, next) => PointersExtend(msg, more, next, hops);
    case Pointer(target) => if hops > 0 { PointersExtend(msg, more, target, hops - 1); }
  }

  /** A pointer takes one hop more than what it points at. */
  lemma PointerTakesAHop(msg: seq<byte>, o: nat, hops: nat)
    requires o < MaxCompressionOffset && (hops > 0 ==> Decode(msg, o, hops - 1) == Failed(ErrPointers))
    ensures Decode(msg + PointerBytes(o), |msg|, hops) == Failed(ErrPointers)
  {
    var all := msg + PointerBytes(o);
    PointerIsRead(o);
    assert all[|msg|] == 0xC0 + o / 0x100 && all[|msg| + 1] == o % 0x100;
    assert StepAt(all, |msg|) == Pointer(o);
    if hops > 0 {
      PointersExtend(msg, PointerBytes(o), o, hops - 1);
    }
  }

  lemma ChainCompressed(k: nat, off: nat, known: map<seq<byte>, nat>)
    requires Joined(Chain(k)) in known && Joined(Chain(k + 1)) !in known && off < MaxCompressionOffset && k > 0
    ensures Compressed(Chain(k + 1), off, known) ==
            Suffixed([1, 97] + PointerBytes(known[Joined(Chain(k))]), known[Joined(Chain(k + 1)) := off])
  {
    assert Chain(k + 1)[1..] == Chain(k);
    ChainLength(k);
    ChainLength(k + 1);
    assert CountedLabel([97]) == [1, 97];
  }

  lemma ChainGrows(msg: seq<byte>, known: map<seq<byte>, nat>, k: nat, o: nat)
    requires Linked(msg, known, k, o) && k > 0 && |msg| < MaxCompressionOffset
    ensures var c := Compressed(Chain(k + 1), |msg|, known);
      |c.bytes| == 4 && Linked(msg + c.bytes, c.known, k + 1, |msg|)
  {
    ChainLength(k + 1);
    ChainCompressed(k, |msg|, known);
    var all := msg + [1, 97] + PointerBytes(o);
    assert msg + ([1, 97] + PointerBytes(o)) == all;
    forall h: nat | h + 1 < k + 1 ensures Decode(all, |msg|, h) == Failed(ErrPointers) {
      LinkTakesAHop(msg, o, h);
    }
  }

  lemma LinkTakesAHop(msg: seq<byte>, o: nat, h: nat)
    requires o < MaxCompressionOffset && (h > 0 ==> Decode(msg, o, h - 1) == Failed(ErrPointers))
    ensures Decode(msg + [1, 97] + PointerBytes(o), |msg|, h) == Failed(ErrPointers)
  {
    if h > 0 {
      PointersExtend(msg, [1, 97], o, h - 1);
    }
    var all := msg + [1, 97] + PointerBytes(o);
    PointerTakesAHop(msg + [1, 97], o, h);
    assert all[|msg|] == 1 && all[|msg| + 1..|msg| + 2] == [97];
    assert StepAt(all, |msg|) == Literal([97], |msg| + 2);
  }

  /** What a decoder with these hops reads at the start of name i. */
  function ReadAt(w: Written, i: nat, hops: nat): Unpacked
    requires i < |w.starts|
  {
    Decode(w.msg, w.starts[i], hops)
  }

  lemma ReadAtBehind(w: Written, rest: Written, i: nat, j: nat, hops: nat)
    requires i == j + 1 && j < |rest.starts| && w.msg == rest.msg
    requires |w.starts| == 1 + |rest.starts| && w.starts[1..] == rest.starts
    ensures ReadAt(w, i, hops) == ReadAt(rest, j, hops)
  {
    assert rest.starts[j] == w.starts[1..][j] == w.starts[i];
  }

  lemma PackOne(names: seq<seq<Label>>, msg: seq<byte>, known: map<seq<byte>, nat>, lenmsg: nat)
    requires names != [] && PlainName(names[0]) && |msg| + |Wire(names[0])| <= lenmsg
    ensures var c := Compressed(names[0], |msg|, known);
      var rest := PackAll(names[1..], msg + c.bytes, c.known, lenmsg);
      && |c.bytes| <= |Wire(names[0])|
      && PackAll(names, msg, known, lenmsg) == Written(rest.error, rest.msg, [|msg|] + rest.starts)
  {
    PackCompresses(names[0], |msg|, lenmsg, known);
    CompressedIsShorter(names[0], |msg|, known);
  }

  /** From a chain of k labels on, the last name takes n hops. */
  lemma {:induction false} ChainEnds(msg: seq<byte>, known: map<seq<byte>, nat>, k: nat, n: nat, left: nat, o: nat,
                                     lenmsg: nat, hops: nat)
    requires 0 < k && k + left == n && Linked(msg, known, k, o) && |msg| + 4 * left <= MaxCompressionOffset
    requires |msg| + Size(ChainNames(k, n)) <= lenmsg
    ensures var w := PackAll(ChainNames(k, n), msg, known, lenmsg);
      && |w.starts| == left + 1
      && (n > hops ==> ReadAt(w, left, hops) == Failed(ErrPointers))
    decreases left
  {
    if left == 0 {
      LastLink(msg, known, n, o, lenmsg, hops);
    } else {
      var names := ChainNames(k, n);
      assert names[0] == Chain(k + 1) && names[1..] == ChainNames(k + 1, n);
      PackOne(names, msg, known, lenmsg);
      var c := Compressed(names[0], |msg|, known);
      ChainGrows(msg, known, k, o);
      var less := left - 1;
      ChainEnds(msg + c.bytes, c.known, k + 1, n, less, |msg|, lenmsg, hops);
      var rest := PackAll(names[1..], msg + c.bytes, c.known, lenmsg);
      ReadAtBehind(PackAll(names, msg, known, lenmsg), rest, left, less, hops);
    }
  }

  lemma LastLink(msg: seq<byte>, known: map<seq<byte>, nat>, n: nat, o: nat, lenmsg: nat, hops: nat)
    requires n > 0 && Linked(msg, known, n, o) && |msg| + |Wire(Chain(n))| <= lenmsg
    ensures var w := PackAll([Chain(n)], msg, known, lenmsg);
      |w.starts| == 1 && (n > hops ==> ReadAt(w, 0, hops) == Failed(ErrPointers))
  {
    PackOne([Chain(n)], msg, known, lenmsg);
    assert [Chain(n)][1..] == [];
    assert Compressed(Chain(n), |msg|, known) == Suffixed(PointerBytes(o), known);
    if n > hops {
      PointerTakesAHop(msg, o, hops);
    }
  }

  /** The budget is exact: a message of plain names of up to n labels is always readable when n is at most ten;
      for every larger n there is one, packed without an error, whose last name fails to unpack. */
  lemma TenIsTheLimit(n: nat, lenmsg: nat)
    requires 0 < n <= 4000 && Size(ChainNames(0, n)) <= lenmsg
    ensures var w := PackAll(ChainNames(0, n), [], map[], lenmsg);
      && w.error == NoError && |w.starts| == n + 1
      && (ReadAt(w, n, 10).Name? <==> n <= 10)
  {
    ChainIsPacked(n, lenmsg);
    if n <= MaxPointers {
      LastOfChain(0, n);
      TenLabelsFitTheBudget(ChainNames(0, n), lenmsg, n);
    } else {
      FirstOfChain(n, lenmsg, MaxPointers);
    }
  }

  lemma ChainIsPacked(n: nat, lenmsg: nat)
    requires Size(ChainNames(0, n)) <= lenmsg
    ensures var w := PackAll(ChainNames(0, n), [], map[], lenmsg); w.error == NoError && |w.starts| == n + 1
  {
    NamesSurvive(ChainNames(0, n), [], map[], lenmsg);
  }

  lemma {:induction false} LastOfChain(k: nat, n: nat)
    requires k <= n
    ensures ChainNames(k, n)[n - k] == Chain(n)
    decreases n - k
  {
    if k < n {
      LastOfChain(k + 1, n);
      assert ChainNames(k, n)[1..] == ChainNames(k + 1, n);
    }
  }

  lemma FirstOfChain(n: nat, lenmsg: nat, hops: nat)
    requires hops < n <= 4000 && Size(ChainNames(0, n)) <= lenmsg
    ensures var w := PackAll(ChainNames(0, n), [], map[], lenmsg);
      |w.starts| == n + 1 && ReadAt(w, n, hops) == Failed(ErrPointers)
  {
    var names := ChainNames(0, n);
    ChainHead(n);
    FirstLink();
    PackOne(names, [], map[], lenmsg);
    assert [] + [1, 97, 0] == [1, 97, 0];
    ChainEnds([1, 97, 0], map[Joined(Chain(1)) := 0], 1, n, n - 1, 0, lenmsg, hops);
    var rest := PackAll(names[1..], [1, 97, 0], map[Joined(Chain(1)) := 0], lenmsg);
    ReadAtBehind(PackAll(names, [], map[], lenmsg), rest, n, n - 1, hops);
  }

  lemma ChainHead(n: nat)
    requires n > 0
    ensures var names := ChainNames(0, n);
      names[0] == Chain(1) && names[1..] == ChainNames(1, n) && Size(names) == |Wire(Chain(1))| + Size(names[1..])
  {
  }

  lemma FirstLink()
    ensures |Wire(Chain(1))| == 3
    ensures Compressed(Chain(1), 0, map[]) == Suffixed([1, 97, 0], map[Joined(Chain(1)) := 0])
    ensures Linked([1, 97, 0], map[Joined(Chain(1)) := 0], 1, 0)
  {
    var empty: map<seq<byte>, nat> := map[];
    assert Chain(1) == [[97]] && Chain(1)[1..] == [];
    ChainLength(1);
    assert CountedLabel([97]) == [1, 97];
    assert empty[Joined(Chain(1)) := 0] == map[Joined(Chain(1)) := 0];
  }

  // ----- Texts

  predicate Clean(l: Label) {
    forall i :: 0 <= i < |l| ==> Escape(l[i]) == [l[i]]
  }

  lemma {:induction false} CleanLabel(l: Label)
    requires Clean(l)
    ensures EscapeLabel(l) == l && Plain(l)
    decreases |l|
  {
    if l != [] {
      CleanLabel(l[1..]);
      assert Escape(l[0]) == [l[0]] && [l[0]] + l[1..] == l;
    }
  }

  lemma {:induction false} CleanDotted(labels: seq<Label>)
    requires forall i :: 0 <= i < |labels| ==> Clean(labels[i])
    ensures Dotted(labels) == Joined(labels)
    decreases |labels|
  {
    if labels != [] {
      CleanLabel(labels[0]);
      CleanDotted(labels[1..]);
    }
  }

  /** Where no byte needs an escape, the text that is packed is the text that unpacking gives. */
  lemma CleanText(labels: seq<Label>)
    requires WireName(labels) && forall i :: 0 <= i < |labels| ==> Clean(labels[i])
    ensures Present(labels) == Text(labels) && PlainName(labels)
  {
    CleanDotted(labels);
    forall l | l in labels ensures Plain(l) {
      var i :| 0 <= i < |labels| && labels[i] == l;
      CleanLabel(labels[i]);
    }
  }

  /** Names whose bytes need no escape, of at most ten labels each: whatever was packed of them, back to back and
      compressed, unpacking at each start gives the very text that was packed and the offset behind it. */
  lemma TextsSurvive(names: seq<seq<Label>>, lenmsg: nat, i: nat)
    requires forall k :: 0 <= k < |names| ==>
      WireName(names[k]) && forall j :: 0 <= j < |names[k]| ==> Clean(names[k][j])
    requires i < |names| && |names[i]| <= 10
    requires PlainNames(names) && i < |PackAll(names, [], map[], lenmsg).starts|
    ensures var w := PackAll(names, [], map[], lenmsg);
      var read := ReadAt(w, i, 10);
      read.Name? && Present(read.labels) == Text(names[i]) && read.next == EndOf(w, i)
  {
    CleanText(names[i]);
    TenLabelsFitTheBudget(names, lenmsg, i);
  }
}
