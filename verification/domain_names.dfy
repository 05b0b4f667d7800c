/** miekg/dns/msg.go: unpacking a domain name, and packing one through a text buffer that shrinks in place. */
module DomainNames {
  import opened Bytes
  import opened Sequences
  import opened DnsNames

  // ----- Unpacking

  /** strconv.AppendInt in base ten. */
  function Digits(b: byte): (d: seq<byte>)
    ensures 1 <= |d| <= 3
  {
    if b < 10 then [48 + b] else if b < 100 then [48 + b / 10, 48 + b % 10] else Decimal(b)
  }

  method AppendDigits(s: seq<byte>, b: byte) returns (r: seq<byte>)
    ensures r == s + ([Backslash] + Decimal(b))
  {
    var bufs := Digits(b);
    r := s + [Backslash];
    var i := 0;
    while i < 3 - |bufs|
      invariant 0 <= i <= 3 - |bufs|
      invariant r == s + [Backslash] + seq(i, _ => 48)
    {
      r := r + [48];
      i := i + 1;
    }
    r := r + bufs;
    PaddedDigits(b);
    assert r == s + ([Backslash] + (seq(3 - |bufs|, _ => 48) + bufs));
  }

  lemma PaddedDigits(b: byte)
    ensures Decimal(b) == seq(3 - |Digits(b)|, _ => 48) + Digits(b)
  {
  }

  method AppendByte(s: seq<byte>, b: byte) returns (r: seq<byte>)
    ensures r == s + Escape(b)
  {
    if Special(b) {
      r := s + [Backslash, b];
    } else if b == 9 {
      r := s + [Backslash, 116];
    } else if b == 13 {
      r := s + [Backslash, 114];
    } else if b < 32 || b >= 127 {
      r := AppendDigits(s, b);
    } else {
      r := s + [b];
    }
  }

  lemma {:induction false} EscapeLabelSnoc(l: Label, b: byte)
    ensures EscapeLabel(l + [b]) == EscapeLabel(l) + Escape(b)
    decreases |l|
  {
    if l == [] {
      assert [] + [b] == [b] && [b][1..] == [];
    } else {
      EscapeLabelSnoc(l[1..], b);
      assert (l + [b])[1..] == l[1..] + [b];
      Associative(Escape(l[0]), EscapeLabel(l[1..]), Escape(b));
    }
  }

  method AppendLabel(s: seq<byte>, l: Label) returns (r: seq<byte>)
    ensures r == s + (EscapeLabel(l) + [Dot])
  {
    r := s;
    var j := 0;
    ghost var done: seq<byte> := [];
    EmptyIsUnit(s);
    while j < |l|
      invariant 0 <= j <= |l|
      invariant r == s + done && done == EscapeLabel(l[..j])
    {
      EscapeOneMore(l, j);
      Associative(s, done, Escape(l[j]));
      done := done + Escape(l[j]);
      r := AppendByte(r, l[j]);
      j := j + 1;
    }
    assert l[..j] == l;
    Associative(s, done, [Dot]);
    r := r + [Dot];
  }

  lemma EscapeOneMore(l: Label, j: nat)
    requires j < |l|
    ensures EscapeLabel(l[..j + 1]) == EscapeLabel(l[..j]) + Escape(l[j])
  {
    EscapeLabelSnoc(l[..j], l[j]);
    assert l[..j] + [l[j]] == l[..j + 1];
  }

  lemma {:induction false} DottedSnoc(labels: seq<Label>, l: Label)
    ensures Dotted(labels + [l]) == Dotted(labels) + (EscapeLabel(l) + [Dot])
    decreases |labels|
  {
    if labels == [] {
      assert [] + [l] == [l] && [l][1..] == [];
    } else {
      DottedSnoc(labels[1..], l);
      assert (labels + [l])[1..] == labels[1..] + [l];
      Associative(EscapeLabel(labels[0]) + [Dot], Dotted(labels[1..]), EscapeLabel(l) + [Dot]);
    }
  }

  /** What the whole call returns when the rest of the name unpacks to d, the labels before it were read,
      and the offset behind the first pointer was kept. */
  function Behind(d: Unpacked, before: seq<Label>, jumped: bool, off1: nat): Unpacked {
    if d.Failed? then d else Name(before + d.labels, if jumped then off1 else d.next)
  }

  method ReadStep(msg: seq<byte>, off: nat) returns (step: Step)
    ensures step == StepAt(msg, off)
  {
    if off >= |msg| {
      return Stop(ErrBuf);
    }
    var c: nat := msg[off];
    if c == 0 {
      step := End;
    } else if c < 0x40 {
      step := if off + 1 + c > |msg| then Stop(ErrBuf) else Literal(msg[off + 1..off + 1 + c], off + 1 + c);
    } else if c >= 0xC0 {
      if off + 1 >= |msg| {
        return Stop(ErrBuf);
      }
      var c1: nat := msg[off + 1];
      step := Pointer((c - 0xC0) * 0x100 + c1);
    } else {
      step := Stop(ErrRdata);
    }
  }

  /** On any bytes whatever, unpacking halts: every turn of the loop uses up a pointer or bytes. */
  method UnpackDomainName(msg: seq<byte>, start: nat) returns (s: seq<byte>, next: nat, error: Error)
    ensures var d := Decode(msg, start, 10);
      if d.Failed? then s == [] && next == |msg| && error == d.error
      else s == Present(d.labels) && next == d.next && error == NoError
  {
    var off: nat, off1: nat, ptr: nat := start, 0, 0;
    s := [];
    ghost var before: seq<Label> := [];
    ghost var hops: nat := MaxPointers;
    ghost var goal := Decode(msg, start, MaxPointers);
    NothingBefore(goal, off1);
    while true
      invariant hops == MaxPointers - ptr
      invariant s == Dotted(before)
      invariant Behind(Decode(msg, off, hops), before, ptr > 0, off1) == goal
      decreases hops, |msg| - off
    {
      var step := ReadStep(msg, off);
      match step {
        case Stop(e) =>
          StopsThere(msg, off, hops, before, ptr > 0, off1, e);
          return [], |msg|, e;
        case End =>
          EndsThere(msg, off, hops, before, ptr > 0, off1);
          off := off + 1;
          break;
        case Literal(l, next) =>
          OneMoreLabel(msg, off, hops, l, next, before, ptr > 0, off1);
          DottedSnoc(before, l);
          s := AppendLabel(s, l);
          before, off := before + [l], next;
        case Pointer(target) =>
          if ptr == MaxPointers {
            StopsThere(msg, off, hops, before, ptr > 0, off1, ErrPointers);
            return [], |msg|, ErrPointers;
          }
          JumpTaken(msg, off, hops, target, before, ptr > 0, off1);
          if ptr == 0 {
            off1 := off + 2;
          }
          ptr, hops, off := ptr + 1, hops - 1, target;
      }
    }
    if ptr == 0 {
      off1 := off;
    }
    EndOfName(before);
    if |s| == 0 {
      s := [Dot];
    }
    return s, off1, NoError;
  }

  lemma NothingBefore(d: Unpacked, off1: nat)
    ensures Behind(d, [], false, off1) == d
  {
  }

  lemma StopsThere(msg: seq<byte>, off: nat, hops: nat, before: seq<Label>, jumped: bool, off1: nat, e: Error)
    requires StepAt(msg, off) == Stop(e) || (StepAt(msg, off).Pointer? && hops == 0 && e == ErrPointers)
    ensures Behind(Decode(msg, off, hops), before, jumped, off1) == Failed(e)
  {
  }

  lemma EndsThere(msg: seq<byte>, off: nat, hops: nat, before: seq<Label>, jumped: bool, off1: nat)
    requires StepAt(msg, off) == End
    ensures Behind(Decode(msg, off, hops), before, jumped, off1) == Name(before, if jumped then off1 else off + 1)
  {
    EmptyIsUnit(before);
  }

  lemma JumpTaken(msg: seq<byte>, off: nat, hops: nat, target: nat, before: seq<Label>, jumped: bool, off1: nat)
    requires StepAt(msg, off) == Pointer(target) && hops > 0
    ensures Behind(Decode(msg, off, hops), before, jumped, off1) ==
            Behind(Decode(msg, target, hops - 1), before, true, if jumped then off1 else off + 2)
  {
  }

  lemma OneMoreLabel(msg: seq<byte>, off: nat, hops: nat, l: Label, next: nat,
                     before: seq<Label>, jumped: bool, off1: nat)
    requires StepAt(msg, off) == Literal(l, next)
    ensures Behind(Decode(msg, off, hops), before, jumped, off1) ==
            Behind(Decode(msg, next, hops), before + [l], jumped, off1)
  {
    var rest := Decode(msg, next, hops);
    if rest.Name? {
      assert before + ([l] + rest.labels) == before + [l] + rest.labels;
    }
  }

  lemma EndOfName(labels: seq<Label>)
    ensures labels + [] == labels
    ensures Present(labels) == if Dotted(labels) == [] then [Dot] else Dotted(labels)
  {
  }
}
