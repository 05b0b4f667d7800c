/** What a name looks like in its presentation form: which bytes are escaped, and how. */
module DnsPresentation {
  import opened Bytes
  import opened Sequences
  import opened DnsNames

  /** A printable byte other than . ( ) ; @ " and the backslash stands for itself; all others are escaped. */
  lemma EscapedIff(b: byte)
    ensures Escape(b) == [b] <==> 33 <= b <= 126 && b !in {34, 40, 41, 46, 59, 64, 92}
  {
  }

  /** Two bytes for the special ones, space among them, tab and carriage return; four for the rest. */
  lemma EscapesAre(b: byte)
    requires Escape(b) != [b]
    ensures b in {32, 34, 40, 41, 46, 59, 64, 92} ==> Escape(b) == [92, b]
    ensures b == 9 ==> Escape(b) == [92, 116]
    ensures b == 13 ==> Escape(b) == [92, 114]
    ensures b !in {9, 13, 32, 34, 40, 41, 46, 59, 64, 92} ==>
      var e := Escape(b);
      && |e| == 4 && e[0] == 92 && (b < 32 || b >= 127)
      && (forall i :: 1 <= i < 4 ==> 48 <= e[i] <= 57)
      && 100 * (e[1] - 48) + 10 * (e[2] - 48) + (e[3] - 48) == b
  {
    DigitsOf(b);
  }

  lemma DigitsOf(b: byte)
    ensures 100 * (b / 100) + 10 * (b / 10 % 10) + b % 10 == b
  {
    var tens: int := b / 10;
    assert b == 10 * tens + b % 10 && tens == 10 * (tens / 10) + tens % 10;
    assert tens / 10 == b / 100;
  }

  /** All bytes are printable, and ( ) ; space @ and " stand directly behind a backslash. */
  predicate Printable(text: seq<byte>) {
    forall i :: 0 <= i < |text| ==> PrintableAt(text, i)
  }

  predicate PrintableAt(text: seq<byte>, i: nat)
    requires i < |text|
  {
    && 32 <= text[i] <= 126
    && (text[i] in {32, 34, 40, 41, 59, 64} ==> i > 0 && text[i - 1] == 92)
  }

  lemma PrintableJoin(a: seq<byte>, b: seq<byte>)
    requires Printable(a) && Printable(b)
    ensures Printable(a + b)
  {
    var text := a + b;
    forall i | 0 <= i < |text| ensures PrintableAt(text, i) {
      if i < |a| {
        assert PrintableAt(a, i);
      } else {
        var j := i - |a|;
        assert PrintableAt(b, j);
        assert j > 0 ==> text[i - 1] == b[j - 1];
      }
    }
  }

  lemma EscapeIsPrintable(b: byte)
    ensures Printable(Escape(b))
  {
  }

  lemma {:induction false} LabelIsPrintable(l: Label)
    ensures Printable(EscapeLabel(l))
  {
    if l != [] {
      EscapeIsPrintable(l[0]);
      LabelIsPrintable(l[1..]);
      PrintableJoin(Escape(l[0]), EscapeLabel(l[1..]));
    }
  }

  /** The text of every name is printable. */
  lemma {:induction false} NameIsPrintable(labels: seq<Label>)
    ensures Printable(Dotted(labels)) && Printable(Present(labels))
  {
    assert Printable([Dot]);
    if labels != [] {
      LabelIsPrintable(labels[0]);
      PrintableJoin(EscapeLabel(labels[0]), [Dot]);
      NameIsPrintable(labels[1..]);
      PrintableJoin(EscapeLabel(labels[0]) + [Dot], Dotted(labels[1..]));
    }
  }
}
