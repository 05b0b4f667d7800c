/** miekg/dns/labels.go and defaults.go: the label scanner that works on text, and how it relates to the one that
    packs. Dots end labels unless they are escaped by a backslash that is not itself escaped. */
module DnsLabels {
  import opened Bytes
  import opened Wrappers
  import opened DnsNames

  // ----- What the scanner looks for

  /** The byte at i is behind an active backslash. */
  predicate Quoted(s: seq<byte>, i: nat)
    requires i <= |s|
  {
    i > 0 && s[i - 1] == Backslash && !Quoted(s, i - 1)
  }

  predicate EndsLabel(s: seq<byte>, i: nat)
    requires i < |s|
  {
    s[i] == Dot && !Quoted(s, i)
  }

  /** The label starts behind the dots before position n. */
  function Cuts(s: seq<byte>, n: nat): (cuts: seq<nat>)
    requires n <= |s|
    ensures forall k :: 0 <= k < |cuts| ==> 0 < cuts[k] <= n
  {
    if n == 0 then [] else Cuts(s, n - 1) + if EndsLabel(s, n - 1) then [n] else []
  }

  /** All label starts: a dot at the very end starts nothing, and the root has no labels. */
  function Starts(s: seq<byte>): (starts: seq<nat>)
    ensures forall k :: 0 <= k < |starts| ==> starts[k] <= |s|
  {
    if s == [Dot] then [] else [0] + Cuts(s, if s == [] then 0 else |s| - 1)
  }

  predicate Fully(s: seq<byte>) {
    s != [] && s[|s| - 1] == Dot
  }

  function Fqdn(s: seq<byte>): (r: seq<byte>)
    ensures Fully(r)
  {
    if Fully(s) then s else s + [Dot]
  }

  // ----- The scanner

  datatype Found = Found(i: nat, end: bool)

  function NextFrom(s: seq<byte>, i: nat, quote: bool): (r: Found)
    ensures i < r.i && (!r.end ==> r.i < |s|)
    decreases |s| - i
  {
    if i + 1 >= |s| then Found(i + 1, true)
    else if s[i] == Backslash then NextFrom(s, i + 1, !quote)
    else if s[i] == Dot && !quote then Found(i + 1, false)
    else NextFrom(s, i + 1, false)
  }

  method NextLabel(s: seq<byte>, offset: nat) returns (i: nat, end: bool)
    ensures Found(i, end) == NextFrom(s, offset, false)
  {
    var quote := false;
    i := offset;
    while i < |s| - 1
      invariant NextFrom(s, i, quote) == NextFrom(s, offset, false)
      decreases |s| - i
    {
      if s[i] == Backslash {
        quote := !quote;
      } else if s[i] == Dot {
        if !quote {
          return i + 1, false;
        }
        quote := false;
      } else {
        quote := false;
      }
      i := i + 1;
    }
    return i + 1, true;
  }

  /** From a position in step with the quotes, the scanner finds the next cut. */
  lemma {:induction false} NextIsACut(s: seq<byte>, i: nat, m: nat)
    requires i <= m && m + 1 == |s|
    ensures var r := NextFrom(s, i, Quoted(s, i));
      if r.end then Cuts(s, m) == Cuts(s, i)
      else r.i <= m && Cuts(s, r.i) == Cuts(s, i) + [r.i] && !Quoted(s, r.i)
    decreases |s| - i
  {
    if i < m {
      var next := i + 1;
      assert Quoted(s, next) == (s[i] == Backslash && !Quoted(s, i));
      if !EndsLabel(s, i) {
        assert Cuts(s, next) == Cuts(s, i);
        NextIsACut(s, next, m);
      }
    }
  }

  method Split(s: seq<byte>) returns (idx: seq<nat>)
    ensures idx == Starts(s)
  {
    if s == [Dot] {
      return [];
    }
    idx := [0];
    var off, end := 0, false;
    ghost var m := if s == [] then 0 else |s| - 1;
    while true
      invariant off <= m && !Quoted(s, off) && idx == [0] + Cuts(s, off)
      decreases |s| - off
    {
      NextStart(s, off, m, idx);
      off, end := NextLabel(s, off);
      if end {
        return;
      }
      idx := idx + [off];
    }
  }

  lemma NextStart(s: seq<byte>, off: nat, m: nat, idx: seq<nat>)
    requires m == (if s == [] then 0 else |s| - 1) && off <= m && !Quoted(s, off)
    requires idx == [0] + Cuts(s, off) && s != [Dot]
    ensures var r := NextFrom(s, off, false);
      if r.end then idx == Starts(s) else r.i <= m && !Quoted(s, r.i) && idx + [r.i] == [0] + Cuts(s, r.i)
  {
    if s != [] {
      NextIsACut(s, off, m);
    }
  }

  method CountLabel(s: seq<byte>) returns (labels: nat)
    ensures labels == |Starts(s)|
  {
    labels := 0;
    if s == [Dot] {
      return;
    }
    var off, end := 0, false;
    ghost var m := if s == [] then 0 else |s| - 1;
    while true
      invariant off <= m && !Quoted(s, off) && labels == |Cuts(s, off)|
      decreases |s| - off
    {
      NextStart(s, off, m, [0] + Cuts(s, off));
      off, end := NextLabel(s, off);
      labels := labels + 1;
      if end {
        return;
      }
    }
  }

  // ----- The two scanners

  lemma {:induction false} QuotedPrefix(s: seq<byte>, t: seq<byte>, i: nat)
    requires i <= |s|
    ensures Quoted(s + t, i) == Quoted(s, i)
    decreases i
  {
    if i > 0 {
      QuotedPrefix(s, t, i - 1);
    }
  }

  lemma {:induction false} CutsPrefix(s: seq<byte>, t: seq<byte>, i: nat)
    requires i <= |s|
    ensures Cuts(s + t, i) == Cuts(s, i)
    decreases i
  {
    if i > 0 {
      QuotedPrefix(s, t, i - 1);
      CutsPrefix(s, t, i - 1);
    }
  }

  lemma CutsNext(s: seq<byte>, p: nat, q: nat)
    requires q == p + 1 && p < |s| && !Quoted(s, p)
    ensures Cuts(s, q) == Cuts(s, p) + if s[p] == Dot then [q] else []
    ensures Quoted(s, q) <==> s[p] == Backslash
  {
  }

  /** The packer counts the dots that end labels; between two turns it is never behind a backslash. */
  lemma {:induction false} ScanCounts(job: Job, st: Packing)
    requires st.p <= |job.s| && !Quoted(job.s, st.p) && Fully(job.s)
    ensures var r := Scan(job, st);
      r.Ended? ==> r.labels + |Cuts(job.s, st.p)| == st.labels + |Cuts(job.s, |job.s|)|
    decreases |job.s| - st.p
  {
    if st.p < |job.s| && Turn(job, st).Goes? {
      var next := Turn(job, st).next;
      TurnCounts(job, st, next);
      ScanCounts(job, next);
      ScanGoes(job, st, next);
    } else if st.p < |job.s| {
      TurnStops(job, st);
    }
  }

  lemma TurnCounts(job: Job, st: Packing, next: Packing)
    requires st.p < |job.s| && !Quoted(job.s, st.p) && Fully(job.s) && Turn(job, st) == Goes(next)
    ensures !Quoted(job.s, next.p) && next.labels + |Cuts(job.s, st.p)| == st.labels + |Cuts(job.s, next.p)|
  {
    CutsNext(job.s, st.p, st.p + 1);
    if job.s[st.p] == Backslash {
      EscapeHasNoCut(job.s, st.p);
    }
  }

  /** The last dot of the name is never what a backslash stands in front of when the scan stops there. */
  lemma TurnStops(job: Job, st: Packing)
    requires st.p < |job.s| && !Quoted(job.s, st.p) && Fully(job.s) && Turn(job, st).Stopped?
    ensures !Scan(job, st).Ended?
  {
  }

  lemma EscapeHasNoCut(s: seq<byte>, p: nat)
    requires p + 1 < |s| && s[p] == Backslash && !Quoted(s, p)
    ensures !Quoted(s, p + 2) && Cuts(s, p + 2) == Cuts(s, p)
    ensures ThreeDigits(s, p) ==> !Quoted(s, p + 4) && Cuts(s, p + 4) == Cuts(s, p)
  {
    assert Quoted(s, p + 1);
    assert Cuts(s, p + 1) == Cuts(s, p);
    assert Cuts(s, p + 2) == Cuts(s, p + 1);
    if ThreeDigits(s, p) {
      assert !Quoted(s, p + 3) && Cuts(s, p + 3) == Cuts(s, p + 2);
      assert Cuts(s, p + 4) == Cuts(s, p + 3);
    }
  }

  /** For every name but the root that packs without an error, both scanners report the same number of labels
      exactly when the final dot is not escaped; an escaped final dot makes packing lose the last label. */
  lemma ScannersAgree(s: seq<byte>, start: nat, lenmsg: Option<nat>)
    requires s != [] && s != [Dot]
    requires Pack(s, start, lenmsg, map[], false).error == NoError
    ensures var r, text := Pack(s, start, lenmsg, map[], false), Fqdn(s);
      && (r.labels == |Starts(s)| <==> EndsLabel(text, |text| - 1))
      && |Starts(s)| == |Starts(text)| && r.labels <= |Starts(s)| <= r.labels + 1
  {
    var text := Fqdn(s);
    var job := Job(text, start, if lenmsg.Some? then lenmsg.value else 256, lenmsg.None?, false);
    var st := Start(map[]);
    ScanCounts(job, st);
    NoHit(job, st);
    if !Fully(s) {
      CutsPrefix(s, [Dot], |s|);
      assert Cuts(s, |s|) == Cuts(s, |s| - 1);
    }
  }

  lemma {:induction false} NoHit(job: Job, st: Packing)
    requires !job.compress
    ensures var r := Scan(job, st); !r.Hit? && (r.Broken? ==> r.error != NoError)
    decreases |job.s| - st.p
  {
    if st.p < |job.s| && Turn(job, st).Goes? {
      NoHit(job, Turn(job, st).next);
    }
  }
}
