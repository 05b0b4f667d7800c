/** The label scanner on the texts of wire names: it finds exactly where the labels' texts start, so comparing texts is
    comparing labels. */
module DnsLabelTexts {
  import opened Bytes
  import opened Sequences
  import opened DnsNames
  import opened DnsEscapes
  import opened DnsLabels
  import opened DnsSubdomains

  // ----- No cut inside a label

  lemma EscapeHasNone(s: seq<byte>, p: nat, b: byte, q: nat)
    requires At(s, p, Escape(b)) && !Quoted(s, p) && q == p + |Escape(b)|
    ensures !Quoted(s, q) && Cuts(s, q) == Cuts(s, p)
  {
    var e := Escape(b);
    AtPoint(s, p, e, 0);
    if |e| == 1 {
      CutsNext(s, p, q);
    } else if |e| == 2 {
      TwoHaveNone(s, p, q);
    } else {
      AtPoint(s, p, e, 1);
      AtPoint(s, p, e, 2);
      AtPoint(s, p, e, 3);
      FourHaveNone(s, p, q);
    }
  }

  lemma TwoHaveNone(s: seq<byte>, p: nat, q: nat)
    requires q == p + 2 <= |s| && s[p] == Backslash && !Quoted(s, p)
    ensures !Quoted(s, q) && Cuts(s, q) == Cuts(s, p)
  {
    EscapeHasNoCut(s, p);
  }

  lemma FourHaveNone(s: seq<byte>, p: nat, q: nat)
    requires q == p + 4 <= |s| && s[p] == Backslash && !Quoted(s, p)
    requires IsDigit(s[p + 1]) && IsDigit(s[p + 2]) && IsDigit(s[p + 3])
    ensures !Quoted(s, q) && Cuts(s, q) == Cuts(s, p)
  {
    EscapeHasNoCut(s, p);
  }

  lemma LabelSplits(s: seq<byte>, p: nat, l: Label, q: nat) returns (mid: nat)
    requires At(s, p, EscapeLabel(l)) && l != [] && q == p + |EscapeLabel(l)|
    ensures mid == p + |Escape(l[0])| && q == mid + |EscapeLabel(l[1..])|
    ensures At(s, p, Escape(l[0])) && At(s, mid, EscapeLabel(l[1..]))
  {
    mid := p + |Escape(l[0])|;
    AtHead(s, p, Escape(l[0]), EscapeLabel(l[1..]));
    AtTail(s, p, Escape(l[0]), EscapeLabel(l[1..]));
  }

  lemma {:induction false} LabelHasNone(s: seq<byte>, p: nat, l: Label, q: nat)
    requires At(s, p, EscapeLabel(l)) && !Quoted(s, p) && q == p + |EscapeLabel(l)|
    ensures !Quoted(s, q) && Cuts(s, q) == Cuts(s, p)
    decreases |l|
  {
    if l != [] {
      var mid := LabelSplits(s, p, l, q);
      EscapeHasNone(s, p, l[0], mid);
      LabelHasNone(s, mid, l[1..], q);
    }
  }

  lemma LabelHasOne(s: seq<byte>, p: nat, l: Label, q: nat)
    requires At(s, p, EscapeLabel(l) + [Dot]) && !Quoted(s, p) && q == p + |EscapeLabel(l) + [Dot]|
    ensures !Quoted(s, q) && Cuts(s, q) == Cuts(s, p) + [q]
  {
    var dot := p + |EscapeLabel(l)|;
    AtHead(s, p, EscapeLabel(l), [Dot]);
    AtTail(s, p, EscapeLabel(l), [Dot]);
    LabelHasNone(s, p, l, dot);
    AtPoint(s, dot, [Dot], 0);
    CutsNext(s, dot, q);
  }

  // ----- The cuts of a name

  /** Where the labels' texts end, when the first starts at p. */
  function Ends(p: nat, labels: seq<Label>): (ends: seq<nat>)
    ensures |ends| == |labels|
    decreases |labels|
  {
    if labels == [] then [] else
      var q := p + |EscapeLabel(labels[0]) + [Dot]|;
      [q] + Ends(q, labels[1..])
  }

  lemma EndsFirst(p: nat, labels: seq<Label>, q: nat)
    requires labels != [] && q == p + |EscapeLabel(labels[0]) + [Dot]|
    ensures Ends(p, labels) == [q] + Ends(q, labels[1..])
  {
  }

  lemma NameSplits(s: seq<byte>, p: nat, labels: seq<Label>, q: nat) returns (mid: nat)
    requires At(s, p, Dotted(labels)) && labels != [] && q == p + |Dotted(labels)|
    ensures mid == p + |EscapeLabel(labels[0]) + [Dot]| && q == mid + |Dotted(labels[1..])|
    ensures At(s, p, EscapeLabel(labels[0]) + [Dot]) && At(s, mid, Dotted(labels[1..]))
  {
    var text := EscapeLabel(labels[0]) + [Dot];
    mid := p + |text|;
    AtHead(s, p, text, Dotted(labels[1..]));
    AtTail(s, p, text, Dotted(labels[1..]));
  }

  lemma {:induction false} NameCuts(s: seq<byte>, p: nat, labels: seq<Label>, q: nat)
    requires At(s, p, Dotted(labels)) && !Quoted(s, p) && q == p + |Dotted(labels)|
    ensures !Quoted(s, q) && Cuts(s, q) == Cuts(s, p) + Ends(p, labels)
    decreases |labels|
  {
    if labels == [] {
      EmptyIsUnit(Cuts(s, p));
    } else {
      var more := labels[1..];
      var mid := NameSplits(s, p, labels, q);
      LabelHasOne(s, p, labels[0], mid);
      NameCuts(s, mid, more, q);
      EndsFirst(p, labels, mid);
      Associative(Cuts(s, p), [mid], Ends(mid, more));
    }
  }

  lemma {:induction false} DottedSplits(labels: seq<Label>, k: nat)
    requires k <= |labels|
    ensures Dotted(labels) == Dotted(labels[..k]) + Dotted(labels[k..])
    decreases k
  {
    if k == 0 {
      assert labels[0..] == labels && labels[..0] == [];
      EmptyIsUnit(Dotted(labels));
    } else {
      DottedSplits(labels[1..], k - 1);
      assert labels[..k][1..] == labels[1..][..k - 1] && labels[1..][k - 1..] == labels[k..];
      Associative(EscapeLabel(labels[0]) + [Dot], Dotted(labels[1..][..k - 1]), Dotted(labels[k..]));
    }
  }

  lemma {:induction false} EndsAt(p: nat, labels: seq<Label>, k: nat)
    requires k < |labels|
    ensures Ends(p, labels)[k] == p + |Dotted(labels[..k + 1])|
    decreases k
  {
    var q := p + |EscapeLabel(labels[0]) + [Dot]|;
    assert labels[..k + 1][1..] == labels[1..][..k];
    if k > 0 {
      EndsAt(q, labels[1..], k - 1);
    } else {
      assert Dotted(labels[1..][..0]) == [];
    }
  }

  /** The scanner's starts are those of the labels' texts. */
  lemma StartsOfName(labels: seq<Label>, k: nat)
    requires WireName(labels) && k < |labels|
    ensures |Starts(Present(labels))| == |labels|
    ensures Starts(Present(labels))[k] == |Dotted(labels[..k])|
  {
    var s := Dotted(labels);
    DottedEndsInADot(labels);
    NameCuts(s, 0, labels, |s|);
    EmptyIsUnit(Ends(0, labels));
    StartsAreEnds(s, |s| - 1, |labels| - 1, labels);
    if k > 0 {
      EndsAt(0, labels, k - 1);
    } else {
      assert labels[..0] == [];
    }
  }

  lemma StartsAreEnds(s: seq<byte>, m: nat, n: nat, labels: seq<Label>)
    requires s == Dotted(labels) && |s| == m + 1 > 1 && |labels| == n + 1 && Cuts(s, |s|) == Ends(0, labels)
    ensures Starts(s) == [0] + Ends(0, labels)[..n]
  {
    LastCut(s, m, n, labels);
  }

  lemma LastCut(s: seq<byte>, m: nat, n: nat, labels: seq<Label>)
    requires s == Dotted(labels) && |s| == m + 1 && |labels| == n + 1 && Cuts(s, |s|) == Ends(0, labels)
    ensures Cuts(s, m) == Ends(0, labels)[..n]
  {
    EndsAt(0, labels, n);
    assert labels[..n + 1] == labels;
  }

  /** The pieces that names are compared by are the labels' texts, each with its dot. */
  lemma PiecesOfName(labels: seq<Label>)
    requires WireName(labels)
    ensures |Pieces(Present(labels))| == |labels|
    ensures forall k :: 0 <= k < |labels| ==> Pieces(Present(labels))[k] == EscapeLabel(labels[k]) + [Dot]
  {
    if labels != [] {
      PieceIs(labels, 0);
    }
    forall k | 0 <= k < |labels| ensures Pieces(Present(labels))[k] == EscapeLabel(labels[k]) + [Dot] {
      PieceIs(labels, k);
    }
  }

  lemma PieceIs(labels: seq<Label>, k: nat)
    requires WireName(labels) && k < |labels|
    ensures |Pieces(Present(labels))| == |labels|
    ensures Pieces(Present(labels))[k] == EscapeLabel(labels[k]) + [Dot]
  {
    DottedEndsInADot(labels);
    PieceOfName(labels, k);
  }

  lemma PieceOfName(labels: seq<Label>, k: nat)
    requires WireName(labels) && k < |labels|
    ensures Ascending(Starts(Present(labels)), |Present(labels)|) && |Starts(Present(labels))| == |labels|
    ensures PiecesAt(Present(labels), Starts(Present(labels)))[k] == EscapeLabel(labels[k]) + [Dot]
  {
    var at := |Dotted(labels[..k])|;
    var end := at + |EscapeLabel(labels[k]) + [Dot]|;
    StartsAscend(Present(labels));
    StartsOfName(labels, k);
    TextStands(labels, k, at, end);
    PieceEnds(labels, k, end);
  }

  lemma TextStands(labels: seq<Label>, k: nat, at: nat, end: nat)
    requires k < |labels| && at == |Dotted(labels[..k])| && end == at + |EscapeLabel(labels[k]) + [Dot]|
    ensures end <= |Dotted(labels)| && Dotted(labels)[at..end] == EscapeLabel(labels[k]) + [Dot]
  {
    DottedSplits(labels, k);
    assert labels[k..][0] == labels[k] && labels[k..][1..] == labels[k + 1..];
    Middle(Dotted(labels), Dotted(labels[..k]), EscapeLabel(labels[k]) + [Dot], Dotted(labels[k + 1..]));
  }

  lemma PieceEnds(labels: seq<Label>, k: nat, end: nat)
    requires WireName(labels) && k < |labels|
    requires end == |Dotted(labels[..k])| + |EscapeLabel(labels[k]) + [Dot]|
    ensures |Starts(Present(labels))| == |labels| && EndOfPiece(Present(labels), Starts(Present(labels)), k) == end
  {
    StartsOfName(labels, k);
    DottedSnocAt(labels, k);
    if k + 1 < |labels| {
      StartsOfName(labels, k + 1);
    } else {
      assert labels[..k + 1] == labels;
    }
  }

  lemma DottedSnocAt(labels: seq<Label>, k: nat)
    requires k < |labels|
    ensures |Dotted(labels[..k + 1])| == |Dotted(labels[..k])| + |EscapeLabel(labels[k]) + [Dot]|
  {
    DottedSplits(labels[..k + 1], k);
    assert labels[..k + 1][..k] == labels[..k] && labels[..k + 1][k..] == [labels[k]];
    assert Dotted([labels[k]]) == EscapeLabel(labels[k]) + [Dot] + [];
  }

  lemma Middle(s: seq<byte>, a: seq<byte>, text: seq<byte>, b: seq<byte>)
    requires s == a + (text + b)
    ensures |a| + |text| <= |s| && s[|a|..|a| + |text|] == text
  {
  }

  // ----- Comparing names

  /** The last n labels are the same. */
  predicate SameEnd(a: seq<Label>, b: seq<Label>, n: nat) {
    n <= |a| && n <= |b| && a[|a| - n..] == b[|b| - n..]
  }

  lemma TextIsInjective(l: Label, m: Label)
    requires WireLabel(l) && WireLabel(m) && EscapeLabel(l) + [Dot] == EscapeLabel(m) + [Dot]
    ensures l == m
  {
    EmptyIsUnit(EscapeLabel(l) + [Dot]);
    assert Dotted([l]) == Dotted([m]);
    PresentIsInjective([l], [m]);
    assert [l][0] == l && [m][0] == m;
  }

  /** The k-th label from the right. */
  function FromTheRight(labels: seq<Label>, k: nat): Label
    requires k < |labels|
  {
    labels[|labels| - 1 - k]
  }

  lemma SameFromRight(a: seq<Label>, b: seq<Label>, n: nat)
    requires n <= |a| && n <= |b|
    ensures SameEnd(a, b, n) <==> forall k :: 0 <= k < n ==> FromTheRight(a, k) == FromTheRight(b, k)
  {
    var x, y := a[|a| - n..], b[|b| - n..];
    assert forall k :: 0 <= k < n ==> FromTheRight(a, k) == x[n - 1 - k] && FromTheRight(b, k) == y[n - 1 - k];
    if forall k :: 0 <= k < n ==> FromTheRight(a, k) == FromTheRight(b, k) {
      forall i | 0 <= i < n ensures x[i] == y[i] {
        assert FromTheRight(a, n - 1 - i) == FromTheRight(b, n - 1 - i);
      }
    }
  }

  lemma SharedAt(a: seq<Label>, b: seq<Label>, k: nat)
    requires WireName(a) && WireName(b) && k < |a| && k < |b|
    ensures k < |Pieces(Present(a))| && k < |Pieces(Present(b))|
    ensures FromRight(Pieces(Present(a)), k) == FromRight(Pieces(Present(b)), k) <==>
            FromTheRight(a, k) == FromTheRight(b, k)
  {
    var l, m := FromTheRight(a, k), FromTheRight(b, k);
    PieceFromRight(a, k, l);
    PieceFromRight(b, k, m);
    if EscapeLabel(l) + [Dot] == EscapeLabel(m) + [Dot] {
      TextIsInjective(l, m);
    }
  }

  lemma PieceFromRight(labels: seq<Label>, k: nat, l: Label)
    requires WireName(labels) && k < |labels| && l == FromTheRight(labels, k)
    ensures k < |Pieces(Present(labels))| && WireLabel(l)
    ensures FromRight(Pieces(Present(labels)), k) == EscapeLabel(l) + [Dot]
  {
    var i := |labels| - 1 - k;
    assert l == labels[i] && l in labels;
    PieceIs(labels, i);
    RightIs(Pieces(Present(labels)), k, i);
  }

  lemma RightIs(pieces: seq<seq<byte>>, k: nat, i: nat)
    requires |pieces| == i + 1 + k
    ensures FromRight(pieces, k) == pieces[i]
  {
  }

  lemma SameEndIsShared(a: seq<Label>, b: seq<Label>, n: nat)
    requires WireName(a) && WireName(b)
    ensures SameEnd(a, b, n) <==> Share(Pieces(Present(a)), Pieces(Present(b)), n)
  {
    PiecesCountOf(a);
    PiecesCountOf(b);
    if n <= |a| && n <= |b| {
      SameFromRight(a, b, n);
      forall k | 0 <= k < n
        ensures FromRight(Pieces(Present(a)), k) == FromRight(Pieces(Present(b)), k) <==>
            FromTheRight(a, k) == FromTheRight(b, k)
      {
        SharedAt(a, b, k);
      }
    }
  }

  lemma PiecesCountOf(labels: seq<Label>)
    requires WireName(labels)
    ensures |Pieces(Present(labels))| == |labels|
  {
    PiecesOfName(labels);
  }

  /** For the texts of any two wire names, CompareDomainName is how many labels they have in common at the end. */
  lemma CompareNames(a: seq<Label>, b: seq<Label>, n: nat)
    requires WireName(a) && WireName(b)
    ensures SameEnd(a, b, n) <==> n <= Common(Pieces(Present(a)), Pieces(Present(b)), 0)
  {
    SameEndIsShared(a, b, n);
    CompareIsLongest(Present(a), Present(b), n);
  }

  /** And one is a subdomain of the other exactly when its labels end with all of the other's. */
  lemma SubDomainOfNames(parent: seq<Label>, child: seq<Label>)
    requires WireName(parent) && WireName(child)
    ensures SubDomain(Present(parent), Present(child)) <==>
      |parent| <= |child| && child[|child| - |parent|..] == parent
  {
    SubDomainIff(Present(parent), Present(child));
    PiecesCountOf(parent);
    SameEndIsShared(parent, child, |parent|);
    WholeEnd(parent, child);
    TextIsNotEmpty(parent);
  }

  lemma WholeEnd(parent: seq<Label>, child: seq<Label>)
    ensures SameEnd(parent, child, |parent|) <==> |parent| <= |child| && child[|child| - |parent|..] == parent
  {
    assert parent[|parent| - |parent|..] == parent;
  }

  lemma TextIsNotEmpty(labels: seq<Label>)
    requires WireName(labels)
    ensures Present(labels) != []
  {
    if labels != [] {
      DottedEndsInADot(labels);
    }
  }
}
