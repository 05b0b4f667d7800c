/** miekg/dns: comparing names label by label from the right, and the subdomain order this gives. */
module DnsSubdomains {
  import opened Bytes
  import opened Sequences
  import opened DnsNames
  import opened DnsLabels

  predicate Ascending(starts: seq<nat>, n: nat) {
    && (forall k :: 0 <= k < |starts| ==> starts[k] <= n)
    && (forall j, k :: 0 <= j < k < |starts| ==> starts[j] < starts[k])
  }

  /** Where the piece of label k ends. */
  function EndOfPiece(s: seq<byte>, starts: seq<nat>, k: nat): nat
    requires k < |starts|
  {
    if k + 1 < |starts| then starts[k + 1] else |s|
  }

  /** The text cut at the label starts; each piece keeps the dot that closes it. */
  function PiecesAt(s: seq<byte>, starts: seq<nat>): (pieces: seq<seq<byte>>)
    requires Ascending(starts, |s|)
    ensures |pieces| == |starts|
  {
    seq(|starts|, k requires 0 <= k < |starts| => s[starts[k]..EndOfPiece(s, starts, k)])
  }

  lemma {:induction false} CutsAscend(s: seq<byte>, n: nat)
    requires n <= |s|
    ensures Ascending(Cuts(s, n), n)
    decreases n
  {
    if n > 0 {
      CutsAscend(s, n - 1);
    }
  }

  lemma StartsAscend(s: seq<byte>)
    ensures Ascending(Starts(s), |s|)
  {
    if s != [Dot] {
      CutsAscend(s, if s == [] then 0 else |s| - 1);
    }
  }

  /** The labels of the fully qualified name, as text. */
  function Pieces(s: seq<byte>): seq<seq<byte>> {
    StartsAscend(Fqdn(s));
    PiecesAt(Fqdn(s), Starts(Fqdn(s)))
  }

  /** The k-th label from the right. */
  function FromRight(a: seq<seq<byte>>, k: nat): seq<byte>
    requires k < |a|
  {
    a[|a| - 1 - k]
  }

  /** The last n labels of both are the same. */
  predicate Share(a: seq<seq<byte>>, b: seq<seq<byte>>, n: nat) {
    n <= |a| && n <= |b| && forall k :: 0 <= k < n ==> FromRight(a, k) == FromRight(b, k)
  }

  /** Where a comparison from the right stops, when it has come to label k. */
  function Common(a: seq<seq<byte>>, b: seq<seq<byte>>, k: nat): (n: nat)
    requires k <= |a| && k <= |b|
    ensures k <= n <= |a| && n <= |b|
    decreases |a| - k
  {
    if k == |a| || k == |b| || FromRight(a, k) != FromRight(b, k) then k else Common(a, b, k + 1)
  }

  // ----- Comparing

  lemma PieceAt(s: seq<byte>, starts: seq<nat>, k: nat, r: nat)
    requires Ascending(starts, |s|) && k < |starts| && k + r + 1 == |starts|
    ensures starts[k] <= |s| && (r > 0 ==> starts[k] <= starts[k + 1])
    ensures FromRight(PiecesAt(s, starts), r) == PiecesAt(s, starts)[k]
    ensures PiecesAt(s, starts)[k] == if r == 0 then s[starts[k]..] else s[starts[k]..starts[k + 1]]
  {
    if r == 0 {
      assert s[starts[k]..|s|] == s[starts[k]..];
    }
  }

  method CompareDomainName(s1: seq<byte>, s2: seq<byte>) returns (n: nat)
    ensures n == Common(Pieces(s1), Pieces(s2), 0)
  {
    var t1, t2 := Fqdn(s1), Fqdn(s2);
    var l1 := Split(t1);
    var l2 := Split(t2);
    StartsAscend(t1);
    StartsAscend(t2);
    n := CompareAt(t1, l1, t2, l2);
  }

  method CompareAt(t1: seq<byte>, l1: seq<nat>, t2: seq<byte>, l2: seq<nat>) returns (n: nat)
    requires Ascending(l1, |t1|) && Ascending(l2, |t2|)
    ensures n == Common(PiecesAt(t1, l1), PiecesAt(t2, l2), 0)
  {
    n := 0;
    if l1 == [] || l2 == [] {
      return;
    }
    ghost var a, b := PiecesAt(t1, l1), PiecesAt(t2, l2);
    var j1: nat, j2: nat := |l1| - 1, |l2| - 1;
    PieceAt(t1, l1, j1, 0);
    PieceAt(t2, l2, j2, 0);
    var same := t1[l1[j1]..] == t2[l2[j2]..];
    NextCommon(a, b, 0, same);
    if !same {
      return;
    }
    n := 1;
    while j1 > 0 && j2 > 0
      invariant j1 == |l1| - n && j2 == |l2| - n
      invariant Common(a, b, n) == Common(a, b, 0)
      decreases j1
    {
      PieceAt(t1, l1, j1 - 1, n);
      PieceAt(t2, l2, j2 - 1, n);
      same := t1[l1[j1 - 1]..l1[j1]] == t2[l2[j2 - 1]..l2[j2]];
      NextCommon(a, b, n, same);
      if !same {
        return;
      }
      n, j1, j2 := n + 1, j1 - 1, j2 - 1;
    }
  }

  lemma NextCommon(a: seq<seq<byte>>, b: seq<seq<byte>>, k: nat, same: bool)
    requires k < |a| && k < |b| && same == (FromRight(a, k) == FromRight(b, k))
    ensures Common(a, b, k) == if same then Common(a, b, k + 1) else k
  {
  }

  lemma {:induction false} CommonIsShared(a: seq<seq<byte>>, b: seq<seq<byte>>, k: nat)
    requires Share(a, b, k)
    ensures var n := Common(a, b, k);
      Share(a, b, n) && (n < |a| && n < |b| ==> FromRight(a, n) != FromRight(b, n))
    decreases |a| - k
  {
    if k < |a| && k < |b| && FromRight(a, k) == FromRight(b, k) {
      CommonIsShared(a, b, k + 1);
    }
  }

  /** CompareDomainName is the length of the longest common suffix of labels. */
  lemma CompareIsLongest(s1: seq<byte>, s2: seq<byte>, m: nat)
    ensures Share(Pieces(s1), Pieces(s2), m) <==> m <= Common(Pieces(s1), Pieces(s2), 0)
  {
    CommonIsShared(Pieces(s1), Pieces(s2), 0);
  }

  // ----- Subdomains

  /** What IsSubDomain computes. */
  predicate SubDomain(parent: seq<byte>, child: seq<byte>) {
    Common(Pieces(parent), Pieces(child), 0) == |Starts(parent)|
  }

  method IsSubDomain(parent: seq<byte>, child: seq<byte>) returns (r: bool)
    ensures r == SubDomain(parent, child)
  {
    var n := CompareDomainName(parent, child);
    var labels := CountLabel(parent);
    r := n == labels;
  }

  lemma PiecesCount(s: seq<byte>)
    ensures s != [] ==> |Pieces(s)| == |Starts(s)|
    ensures s == [] ==> |Pieces(s)| == 0 && |Starts(s)| == 1
  {
    if !Fully(s) && s != [] {
      CutsPrefix(s, [Dot], |s|);
      assert Cuts(s, |s|) == Cuts(s, |s| - 1);
    }
  }

  /** A child is below a parent when the parent's labels are the child's last ones. The empty string is nobody's
      parent; the root is everybody's. */
  lemma SubDomainIff(parent: seq<byte>, child: seq<byte>)
    ensures SubDomain(parent, child) <==> parent != [] && Share(Pieces(parent), Pieces(child), |Pieces(parent)|)
  {
    PiecesCount(parent);
    CompareIsLongest(parent, child, |Pieces(parent)|);
  }

  lemma SubDomainIsReflexive(s: seq<byte>)
    ensures SubDomain(s, s) <==> s != []
  {
    SubDomainIff(s, s);
  }

  lemma SubDomainIsTransitive(a: seq<byte>, b: seq<byte>, c: seq<byte>)
    requires SubDomain(a, b) && SubDomain(b, c)
    ensures SubDomain(a, c)
  {
    SubDomainIff(a, b);
    SubDomainIff(b, c);
    SubDomainIff(a, c);
  }

  lemma {:induction false} PiecesRebuild(s: seq<byte>, starts: seq<nat>, k: nat)
    requires Ascending(starts, |s|) && k < |starts|
    ensures Concat(PiecesAt(s, starts)[k..]) == s[starts[k]..]
    decreases |starts| - k
  {
    var pieces := PiecesAt(s, starts);
    PieceAt(s, starts, k, |starts| - 1 - k);
    assert pieces[k..] == [pieces[k]] + pieces[k + 1..];
    if k + 1 < |starts| {
      PiecesRebuild(s, starts, k + 1);
      assert s[starts[k]..] == s[starts[k]..starts[k + 1]] + s[starts[k + 1]..];
    } else {
      assert pieces[k + 1..] == [];
      assert Concat<byte>([]) == [];
    }
  }

  lemma SharedWhole(x: seq<seq<byte>>, y: seq<seq<byte>>)
    requires |x| == |y| && Share(x, y, |x|)
    ensures x == y
  {
    forall i | 0 <= i < |x| ensures x[i] == y[i] {
      assert FromRight(x, |x| - 1 - i) == FromRight(y, |x| - 1 - i);
    }
  }

  /** Two names that are below each other are the same name, up to a missing final dot. */
  lemma SubDomainIsAntisymmetric(a: seq<byte>, b: seq<byte>)
    requires SubDomain(a, b) && SubDomain(b, a)
    ensures Fqdn(a) == Fqdn(b)
  {
    SubDomainIff(a, b);
    SubDomainIff(b, a);
    SharedWhole(Pieces(a), Pieces(b));
    Rebuilt(a);
    Rebuilt(b);
  }

  lemma Rebuilt(s: seq<byte>)
    ensures Fqdn(s) == if Pieces(s) == [] then [Dot] else Concat(Pieces(s))
  {
    var t := Fqdn(s);
    StartsAscend(t);
    if t != [Dot] {
      PiecesRebuild(t, Starts(t), 0);
      assert Pieces(s)[0..] == Pieces(s) && t[0..] == t;
    }
  }
}
