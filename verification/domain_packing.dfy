/** miekg/dns/msg.go: packing a domain name. The text is unescaped in place in a buffer that shrinks from the front
    of the rest, labels are copied to the message, and suffixes go through a compression map that calls share. */
module DomainPacking {
  import opened Bytes
  import opened Sequences
  import opened Wrappers
  import opened DnsNames

  class CompressionMap {
    var entries: map<seq<byte>, nat>

    constructor ()
      ensures entries == map[]
    {
      entries := map[];
    }
  }

  // ----- The text buffer

  /** b without the k elements at i, for a text of n bytes; the bytes behind the shorter text are stale. */
  function Shift(b: seq<byte>, i: nat, n: nat, k: nat): (r: seq<byte>)
    requires i + k <= n <= |b|
    ensures |r| == |b|
  {
    b[..i] + b[i + k..n] + b[n - k..]
  }

  lemma ShiftAt(b: seq<byte>, i: nat, n: nat, k: nat, j: nat)
    requires i + k <= n <= |b| && j < |b|
    ensures Shift(b, i, n, k)[j] == if i <= j < n - k then b[j + k] else b[j]
  {
  }

  lemma ShiftParts(b: seq<byte>, i: nat, n: nat, k: nat)
    requires i + k <= n <= |b|
    ensures Shift(b, i, n, k)[..i] == b[..i]
    ensures Shift(b, i, n, k)[i..n - k] == b[i + k..n]
    ensures Shift(b, i, n, k)[n - k..] == b[n - k..n] + b[n..]
  {
  }

  method ShiftDown(bs: array<byte>, i: nat, n: nat, k: nat)
    requires i + k <= n <= bs.Length && k > 0
    modifies bs
    ensures bs[..] == Shift(old(bs[..]), i, n, k)
  {
    ghost var was := bs[..];
    var j := i;
    while j < n - k
      invariant i <= j <= n - k
      invariant forall x :: i <= x < j ==> bs[x] == was[x + k]
      invariant forall x :: 0 <= x < bs.Length && (x < i || j <= x) ==> bs[x] == was[x]
    {
      bs[j] := bs[j + k];
      j := j + 1;
    }
    forall x | 0 <= x < bs.Length ensures bs[..][x] == Shift(was, i, n, k)[x] {
      ShiftAt(was, i, n, k, x);
    }
  }

  /** The buffer b of n bytes of text stands for the scan `now` of job: what is behind the current label's start,
      what is still to be read, and what is stale; a dot that was escaped is told from one that ended a label. */
  predicate Stage(b: seq<byte>, i: nat, n: nat, begin: nat, escapedDot: bool, job: Job, now: Packing) {
    && begin <= i <= n <= |b| && now.p <= |job.s|
    && b[begin..i] == now.cur && b[i..n] == job.s[now.p..] && b[n..] == now.stale
    && (now.first <==> i == 0)
    && (i > 0 ==> (now.cur == [] <==> b[i - 1] == Dot && !escapedDot))
  }

  /** One byte for a backslash and what follows it, at i. */
  function Replaced(b: seq<byte>, i: nat, n: nat, v: byte): seq<byte>
    requires i + 1 < n <= |b|
  {
    Shift(b, i, n, 1)[i := v]
  }

  lemma ReplacedParts(b: seq<byte>, begin: nat, i: nat, n: nat, v: byte)
    requires begin <= i && i + 1 < n <= |b|
    ensures var r := Replaced(b, i, n, v);
      && r[begin..i + 1] == b[begin..i] + [v]
      && r[i + 1..n - 1] == b[i + 2..n]
      && r[n - 1..] == [b[n - 1]] + b[n..]
  {
    var r := Replaced(b, i, n, v);
    forall j | 0 <= j < |b| ensures r[j] == if j == i then v else if i < j < n - 1 then b[j + 1] else b[j] {
      ShiftAt(b, i, n, 1, j);
    }
  }

  /** Two more bytes gone: three digits became one byte. */
  lemma DigitsParts(r: seq<byte>, begin: nat, i: nat, n: nat)
    requires begin <= i && i + 3 < n <= |r|
    ensures var q := Shift(r, i + 1, n - 1, 2);
      && q[begin..i + 1] == r[begin..i + 1]
      && q[i + 1..n - 3] == r[i + 3..n - 1]
      && q[n - 3..] == r[n - 3..n - 1] + r[n - 1..]
  {
    ShiftParts(r, i + 1, n - 1, 2);
    assert Shift(r, i + 1, n - 1, 2)[..i + 1][begin..] == r[..i + 1][begin..];
  }

  /** The state of the buffer after an escape. */
  datatype Buffer = Buffer(b: seq<byte>, n: nat)

  function UnescapedBuffer(b: seq<byte>, i: nat, n: nat): (r: Buffer)
    requires i + 1 < n <= |b|
    ensures |r.b| == |b|
  {
    if i + 3 < n && IsDigit(b[i + 1]) && IsDigit(b[i + 2]) && IsDigit(b[i + 3]) then
      Buffer(Shift(Replaced(b, i, n, DddToByte(b[i + 1], b[i + 2], b[i + 3])), i + 1, n - 1, 2), n - 3)
    else
      Buffer(Replaced(b, i, n, Letter(b[i + 1])), n - 1)
  }

  lemma TextByte(b: seq<byte>, i: nat, n: nat, s: seq<byte>, p: nat, k: nat)
    requires i <= n <= |b| && p <= |s| && b[i..n] == s[p..] && i + k < n
    ensures p + k < |s| && s[p + k] == b[i + k] && |s| - p == n - i
  {
    assert b[i..n][k] == s[p..][k];
  }

  lemma TextFrom(b: seq<byte>, i: nat, n: nat, s: seq<byte>, p: nat, k: nat)
    requires i <= n <= |b| && p <= |s| && b[i..n] == s[p..] && i + k <= n
    ensures p + k <= |s| && b[i + k..n] == s[p + k..]
  {
    assert b[i + k..n] == b[i..n][k..];
    assert s[p + k..] == s[p..][k..];
  }

  lemma UnescapedStage(b: seq<byte>, i: nat, k: nat, n: nat, begin: nat, escapedDot: bool, job: Job, now: Packing)
    requires Stage(b, i, n, begin, escapedDot, job, now) && k == i + 1 < n
    ensures now.p + 1 < |job.s|
    ensures var r := UnescapedBuffer(b, i, n);
      Stage(r.b, k, r.n, begin, r.b[i] == Dot, job, Unescaped(job, now))
  {
    SameText(b, i, n, job.s, now.p);
    if ThreeDigits(job.s, now.p) {
      DigitsAgree(b, i, n, job, now);
      DigitsStage(b, i, k, n, begin, escapedDot, job, now, Unescaped(job, now).cur[|now.cur|]);
    } else {
      LetterStage(b, i, k, n, begin, escapedDot, job, now);
    }
  }

  /** What an escape looks at. */
  predicate SameBytes(b: seq<byte>, i: nat, n: nat, s: seq<byte>, p: nat) {
    && i + 1 < n <= |b| && p + 1 < |s| && n - i == |s| - p
    && b[i + 1] == s[p + 1] && b[n - 1] == s[|s| - 1]
    && (i + 3 < n ==> b[i + 2] == s[p + 2] && b[i + 3] == s[p + 3] && b[n - 2] == s[|s| - 2])
  }

  lemma SameText(b: seq<byte>, i: nat, n: nat, s: seq<byte>, p: nat)
    requires i + 1 < n <= |b| && p <= |s| && b[i..n] == s[p..]
    ensures SameBytes(b, i, n, s, p)
  {
    TextByte(b, i, n, s, p, 1);
    TextByte(b, i, n, s, p, n - 1 - i);
    if i + 3 < n {
      TextByte(b, i, n, s, p, 2);
      TextByte(b, i, n, s, p, 3);
      TextByte(b, i, n, s, p, n - 2 - i);
    }
  }

  lemma DigitsAgree(b: seq<byte>, i: nat, n: nat, job: Job, now: Packing)
    requires SameBytes(b, i, n, job.s, now.p) && ThreeDigits(job.s, now.p)
    ensures var v := Unescaped(job, now).cur[|now.cur|];
      && UnescapedBuffer(b, i, n) == Buffer(Shift(Replaced(b, i, n, v), i + 1, n - 1, 2), n - 3)
      && Unescaped(job, now) == now.(p := now.p + 4, cur := now.cur + [v], first := false,
                                      stale := [b[n - 2], b[n - 1], b[n - 1]] + now.stale)
  {
  }

  lemma LetterStage(b: seq<byte>, i: nat, k: nat, n: nat, begin: nat, escapedDot: bool, job: Job, now: Packing)
    requires Stage(b, i, n, begin, escapedDot, job, now) && k == i + 1 < n && now.p + 1 < |job.s|
    requires b[i + 1] == job.s[now.p + 1] && b[n - 1] == job.s[|job.s| - 1]
    requires !ThreeDigits(job.s, now.p)
    requires UnescapedBuffer(b, i, n) == Buffer(Replaced(b, i, n, Letter(b[i + 1])), n - 1)
    ensures var r := UnescapedBuffer(b, i, n);
      Stage(r.b, k, r.n, begin, r.b[i] == Dot, job, Unescaped(job, now))
  {
    ReplacedParts(b, begin, i, n, Letter(b[i + 1]));
    TextFrom(b, i, n, job.s, now.p, 2);
  }

  lemma DigitsStage(b: seq<byte>, i: nat, k: nat, n: nat, begin: nat, escapedDot: bool, job: Job, now: Packing, v: byte)
    requires Stage(b, i, n, begin, escapedDot, job, now) && k == i + 1 && i + 3 < n && now.p + 4 <= |job.s|
    requires UnescapedBuffer(b, i, n) == Buffer(Shift(Replaced(b, i, n, v), i + 1, n - 1, 2), n - 3)
    requires Unescaped(job, now) == now.(p := now.p + 4, cur := now.cur + [v], first := false,
                                         stale := [b[n - 2], b[n - 1], b[n - 1]] + now.stale)
    ensures var r := UnescapedBuffer(b, i, n);
      Stage(r.b, k, r.n, begin, r.b[i] == Dot, job, Unescaped(job, now))
  {
    var r := Replaced(b, i, n, v);
    ReplacedParts(b, begin, i, n, v);
    DigitsParts(r, begin, i, n);
    TextFrom(b, i, n, job.s, now.p, 4);
    DigitsTail(b, r, i, n);
  }

  lemma DigitsTail(b: seq<byte>, r: seq<byte>, i: nat, n: nat)
    requires i + 3 < n <= |b| && |r| == |b|
    requires r[i + 1..n - 1] == b[i + 2..n] && r[n - 1..] == [b[n - 1]] + b[n..]
    ensures r[i + 3..n - 1] == b[i + 4..n]
    ensures r[n - 3..n - 1] + r[n - 1..] == [b[n - 2], b[n - 1], b[n - 1]] + b[n..]
  {
    var x, y := r[i + 1..n - 1], b[i + 2..n];
    assert r[i + 3..n - 1] == x[2..] && b[i + 4..n] == y[2..];
    assert r[n - 3..n - 1] == x[n - 4 - i..] && y[n - 4 - i..] == [b[n - 2], b[n - 1]];
    assert [b[n - 2], b[n - 1]] + ([b[n - 1]] + b[n..]) == [b[n - 2], b[n - 1], b[n - 1]] + b[n..];
  }

  method Put(bs: array<byte>, i: nat, v: byte)
    requires i < bs.Length
    modifies bs
    ensures bs[..] == old(bs[..])[i := v]
  {
    bs[i] := v;
  }

  lemma AfterShift(b: seq<byte>, i: nat, n: nat)
    requires i + 1 < n <= |b|
    ensures var r := Shift(b, i, n, 1);
      r[i] == b[i + 1] && (i + 3 < n ==> r[i + 1] == b[i + 2] && r[i + 2] == b[i + 3])
  {
    ShiftAt(b, i, n, 1, i);
    if i + 3 < n {
      ShiftAt(b, i, n, 1, i + 1);
      ShiftAt(b, i, n, 1, i + 2);
    }
  }

  method UnescapeAt(bs: array<byte>, i: nat, n: nat) returns (m: nat)
    requires i + 1 < n <= bs.Length
    modifies bs
    ensures Buffer(bs[..], m) == UnescapedBuffer(old(bs[..]), i, n)
  {
    AfterShift(bs[..], i, n);
    ShiftDown(bs, i, n, 1);
    m := n - 1;
    assert forall k :: 0 <= k < bs.Length ==> bs[k] == bs[..][k];
    if i + 2 < m && IsDigit(bs[i]) && IsDigit(bs[i + 1]) && IsDigit(bs[i + 2]) {
      var ddd := DddToByte(bs[i], bs[i + 1], bs[i + 2]);
      Put(bs, i, ddd);
      ShiftDown(bs, i + 1, m, 2);
      m := m - 2;
    } else {
      Put(bs, i, Letter(bs[i]));
    }
  }

  // ----- The message

  function Content(msg: array?<byte>): seq<byte>
    reads msg
  {
    if msg == null then [] else msg[..]
  }

  /** m is `before` with `out` written at start; behind that anything may have been overwritten. */
  predicate OnTop(m: seq<byte>, before: seq<byte>, start: nat, out: seq<byte>) {
    && |m| == |before|
    && (if start <= |m| then m[..start] == before[..start] else m == before)
    && (out != [] ==> start + |out| <= |m| && m[start..start + |out|] == out)
  }

  lemma OnTopOf(m: seq<byte>, middle: seq<byte>, before: seq<byte>, start: nat, out: seq<byte>, more: seq<byte>)
    requires OnTop(middle, before, start, out) && OnTop(m, middle, start + |out|, more)
    ensures OnTop(m, before, start, out + more)
    ensures OnTop(m, before, start, out)
  {
    var end := start + |out|;
    if end <= |m| {
      assert m[..start] == m[..end][..start] == middle[..end][..start] == middle[..start];
      assert m[start..end] == m[..end][start..] == middle[..end][start..] == middle[start..end];
      assert out == [] ==> m[start..end] == out;
      if more != [] {
        assert m[start..end + |more|] == m[start..end] + m[end..end + |more|];
      }
    }
    EmptyIsUnit(out);
  }

  /** Writes the label bs[begin..i] and its length at off, as far as there is room. */
  method CopyLabel(bs: array<byte>, begin: nat, i: nat, msg: array?<byte>, off: nat, lenmsg: nat)
    returns (end: nat, ok: bool)
    requires begin <= i <= bs.Length && i - begin < 64
    requires msg != bs && (msg != null ==> lenmsg == msg.Length)
    modifies msg
    ensures ok <==> off + 1 + (i - begin) <= lenmsg
    ensures ok ==> end == off + 1 + (i - begin)
    ensures msg != null ==> OnTop(msg[..], old(Content(msg)), off, if ok then [i - begin] + bs[begin..i] else [])
  {
    ghost var was := Content(msg);
    if off + 1 > lenmsg {
      return off, false;
    }
    if msg != null {
      msg[off] := i - begin;
    }
    end := off + 1;
    ghost var l: seq<byte> := [i - begin];
    var j := begin;
    while j < i
      invariant begin <= j <= i && end == off + 1 + (j - begin) && end <= lenmsg
      invariant l == [i - begin] + bs[begin..j]
      invariant msg != null ==> OnTop(msg[..], was, off, l)
    {
      if end + 1 > lenmsg {
        return end, false;
      }
      if msg != null {
        ghost var middle := msg[..];
        msg[end] := bs[j];
        assert OnTop(msg[..], middle, off + |l|, [bs[j]]);
        OnTopOf(msg[..], middle, was, off, l, [bs[j]]);
      }
      l := l + [bs[j]];
      assert bs[begin..j + 1] == bs[begin..j] + [bs[j]];
      end := end + 1;
      j := j + 1;
    }
    ok := true;
  }

  /** Looks a suffix up; one that is not known is recorded, unless it lies too far for a pointer. */
  method Lookup(compression: CompressionMap, key: seq<byte>, offset: nat) returns (pointer: Option<nat>)
    modifies compression
    ensures var known := old(compression.entries);
      if key == [Dot] then pointer == None && compression.entries == known
      else if key in known then pointer == Some(known[key]) && compression.entries == known
      else pointer == None &&
           compression.entries == if offset < MaxCompressionOffset then known[key := offset] else known
  {
    pointer := None;
    if key != [Dot] {
      if key !in compression.entries {
        if offset < MaxCompressionOffset {
          compression.entries := compression.entries[key := offset];
        }
      } else {
        pointer := Some(compression.entries[key]);
      }
    }
  }

  // ----- The scan

  lemma ByteStage(b: seq<byte>, i: nat, n: nat, begin: nat, escapedDot: bool, job: Job, now: Packing)
    requires Stage(b, i, n, begin, escapedDot, job, now) && i < n
    ensures now.p < |job.s| && job.s[now.p] == b[i]
    ensures b[i] != Dot ==>
      Stage(b, i + 1, n, begin, false, job, now.(p := now.p + 1, cur := now.cur + [b[i]], first := false))
  {
    TextByte(b, i, n, job.s, now.p, 0);
    TextFrom(b, i, n, job.s, now.p, 1);
    assert b[begin..i + 1] == b[begin..i] + [b[i]];
  }

  lemma DotFacts(b: seq<byte>, i: nat, n: nat, begin: nat, escapedDot: bool, job: Job, now: Packing)
    requires Stage(b, i, n, begin, escapedDot, job, now) && i < n && b[i] == Dot
    ensures now.p < |job.s| && Key(job, now) == b[begin..]
    ensures |now.cur| < 64 ==> Stage(b, i + 1, n, i + 1, false, job, Emitted(job, now))
  {
    TextByte(b, i, n, job.s, now.p, 0);
    assert b[begin..] == b[begin..i] + b[i..n] + b[n..];
    if |now.cur| < 64 {
      DotStage(b, i, n, begin, escapedDot, job, now);
    }
  }

  lemma DotStage(b: seq<byte>, i: nat, n: nat, begin: nat, escapedDot: bool, job: Job, now: Packing)
    requires Stage(b, i, n, begin, escapedDot, job, now) && i < n && b[i] == Dot && |now.cur| < 64
    ensures now.p < |job.s| && Stage(b, i + 1, n, i + 1, false, job, Emitted(job, now))
    ensures Key(job, now) == b[begin..] && |now.cur| == i - begin
  {
    TextByte(b, i, n, job.s, now.p, 0);
    TextFrom(b, i, n, job.s, now.p, 1);
    assert b[begin..] == b[begin..i] + b[i..n] + b[n..];
  }

  /** A backslash is never the last byte of a text that ends in a dot. */
  lemma NotLast(b: seq<byte>, i: nat, n: nat, begin: nat, escapedDot: bool, job: Job, now: Packing)
    requires Stage(b, i, n, begin, escapedDot, job, now) && i < n && b[i] == Backslash
    requires job.s != [] && job.s[|job.s| - 1] == Dot
    ensures i + 1 < n
  {
    TextByte(b, i, n, job.s, now.p, 0);
    TextByte(b, i, n, job.s, now.p, n - 1 - i);
  }

  /** What the scan r amounts to in the variables of the loop. */
  predicate Reports(r: Scanned, start: nat, off: nat, labels: nat, error: Error, pointer: Option<nat>,
                    nameoffset: nat, known: map<seq<byte>, nat>)
  {
    && labels == r.labels && known == r.known
    && match r
       case Broken(e, _, _) => error == e
       case Ended(out, _, _) => error == NoError && pointer == None && off == start + |out|
       case Hit(out, _, _, p, at) => error == NoError && pointer == Some(p) && nameoffset == start + at
  }

  /** What has been written once the scan is over; nothing is promised about the bytes of a failed call. */
  function OutOf(r: Scanned): seq<byte> {
    if r.Broken? then [] else r.out
  }

  lemma ByteTurn(b: seq<byte>, i: nat, k: nat, n: nat, begin: nat, escapedDot: bool, job: Job, now: Packing)
    returns (next: Packing)
    requires Stage(b, i, n, begin, escapedDot, job, now) && i < n && b[i] != Dot && b[i] != Backslash && k == i + 1
    ensures Stage(b, k, n, begin, false, job, next) && Scan(job, now) == Scan(job, next)
    ensures next == now.(p := next.p, cur := next.cur, first := false)
  {
    ByteStage(b, i, n, begin, escapedDot, job, now);
    next := now.(p := now.p + 1, cur := now.cur + [b[i]], first := false);
    ScanGoes(job, now, next);
  }

  /** The backslash at i and what follows it become one byte. */
  method EscapeTurn(bs: array<byte>, i: nat, ghost k: nat, n: nat, begin: nat, escapedDot: bool,
                    ghost job: Job, ghost now: Packing)
    returns (m: nat, dot: bool, ghost next: Packing)
    requires n <= bs.Length && Stage(bs[..], i, n, begin, escapedDot, job, now) && i < n && bs[i] == Backslash
    requires k == i + 1
    requires job.s != [] && job.s[|job.s| - 1] == Dot && job.start + |now.out| + 1 <= job.lenmsg
    modifies bs
    ensures m <= bs.Length && Stage(bs[..], k, m, begin, dot, job, next) && Scan(job, now) == Scan(job, next)
    ensures next == now.(p := next.p, cur := next.cur, first := false, stale := next.stale)
    ensures m - i < n - i
  {
    ByteStage(bs[..], i, n, begin, escapedDot, job, now);
    NotLast(bs[..], i, n, begin, escapedDot, job, now);
    UnescapedStage(bs[..], i, k, n, begin, escapedDot, job, now);
    next := Unescaped(job, now);
    ScanGoes(job, now, next);
    m := UnescapeAt(bs, i, n);
    dot := bs[i] == Dot;
  }

  /** Any byte but a dot; an escape needs room for a length byte. */
  method TextTurn(bs: array<byte>, i: nat, ghost k: nat, n: nat, begin: nat, escapedDot: bool, off: nat, lenmsg: nat,
                  ghost job: Job, ghost now: Packing)
    returns (m: nat, dot: bool, full: bool, ghost next: Packing)
    requires n <= bs.Length && Stage(bs[..], i, n, begin, escapedDot, job, now) && i < n && bs[i] != Dot
    requires k == i + 1
    requires job.s != [] && job.s[|job.s| - 1] == Dot && off == job.start + |now.out| && lenmsg == job.lenmsg
    modifies bs
    ensures full ==> Scan(job, now) == Broken(ErrBuf, now.labels, now.known)
    ensures !full ==>
      && m <= bs.Length && m - i <= n - i && Stage(bs[..], k, m, begin, dot, job, next)
      && Scan(job, now) == Scan(job, next)
      && next == now.(p := next.p, cur := next.cur, first := false, stale := next.stale)
  {
    m, dot, full, next := n, false, false, now;
    if bs[i] == Backslash {
      if off + 1 > lenmsg {
        NoRoomToEscape(bs[..], i, n, begin, escapedDot, job, now);
        full := true;
      } else {
        m, dot, next := EscapeTurn(bs, i, k, n, begin, escapedDot, job, now);
      }
    } else {
      next := ByteTurn(bs[..], i, k, n, begin, escapedDot, job, now);
    }
  }

  /** The dot at i ends a label, unless the name stops here. */
  method DotTurn(bs: array<byte>, i: nat, k: nat, n: nat, begin: nat, escapedDot: bool,
                 ghost job: Job, ghost now: Packing, ghost was: seq<byte>, msg: array?<byte>, off: nat, lenmsg: nat,
                 compression: CompressionMap, compress: bool)
    returns (end: nat, stop: bool, error: Error, pointer: Option<nat>, ghost next: Packing)
    requires n <= bs.Length && Stage(bs[..], i, n, begin, escapedDot, job, now) && i < n && bs[i] == Dot
    requires k == i + 1
    requires off == job.start + |now.out| && compression.entries == now.known && msg != bs
    requires (msg != null ==> lenmsg == msg.Length) && job.lenmsg == lenmsg && job.compress == compress
    requires msg != null ==> OnTop(msg[..], was, job.start, now.out)
    modifies msg, compression
    ensures stop ==>
      && Reports(Scan(job, now), job.start, end, now.labels, error, pointer, off, compression.entries)
      && (msg != null ==> OnTop(msg[..], was, job.start, OutOf(Scan(job, now))))
    ensures !stop ==>
      && Scan(job, now) == Scan(job, next) && Stage(bs[..], k, n, k, false, job, next)
      && end == job.start + |next.out| && next.labels == now.labels + 1 && compression.entries == next.known
      && (msg != null ==> OnTop(msg[..], was, job.start, next.out))
  {
    DotFacts(bs[..], i, n, begin, escapedDot, job, now);
    ByteStage(bs[..], i, n, begin, escapedDot, job, now);
    assert bs[begin..i] == bs[..][begin..i] && bs[begin..] == bs[..][begin..];
    var doubled := i > 0 && bs[i - 1] == Dot && !escapedDot;
    end, stop, error, pointer :=
      EndLabel(bs, begin, i, doubled, bs[begin..], job, now, was, msg, off, lenmsg, compression, compress);
    next := now;
    if !stop {
      next := Emitted(job, now);
      ScanGoes(job, now, next);
    }
  }

  /** Copies a label behind what has been written. */
  method WriteLabel(bs: array<byte>, begin: nat, i: nat, ghost was: seq<byte>, ghost start: nat, ghost out: seq<byte>,
                    msg: array?<byte>, off: nat, lenmsg: nat)
    returns (end: nat, ok: bool)
    requires begin <= i <= bs.Length && i - begin < 64 && off == start + |out|
    requires msg != bs && (msg != null ==> lenmsg == msg.Length && OnTop(msg[..], was, start, out))
    modifies msg
    ensures ok <==> off + 1 + (i - begin) <= lenmsg
    ensures ok ==> end == off + 1 + (i - begin)
    ensures msg != null && ok ==> OnTop(msg[..], was, start, out + [i - begin] + bs[begin..i])
    ensures msg != null && !ok ==> OnTop(msg[..], was, start, out)
  {
    ghost var middle := Content(msg);
    end, ok := CopyLabel(bs, begin, i, msg, off, lenmsg);
    ghost var l: seq<byte> := [i - begin] + bs[begin..i];
    if msg != null {
      OnTopOf(msg[..], middle, was, start, out, if ok then l else []);
    }
    Associative(out, [i - begin], bs[begin..i]);
  }

  /** The dot at i ends a label, unless the name stops here. */
  method EndLabel(bs: array<byte>, begin: nat, i: nat, doubled: bool, suffix: seq<byte>,
                  ghost job: Job, ghost now: Packing, ghost was: seq<byte>, msg: array?<byte>, off: nat, lenmsg: nat,
                  compression: CompressionMap, compress: bool)
    returns (end: nat, stop: bool, error: Error, pointer: Option<nat>)
    requires begin <= i <= bs.Length && bs[begin..i] == now.cur && now.p < |job.s| && job.s[now.p] == Dot
    requires off == job.start + |now.out| && (doubled <==> !now.first && now.cur == [])
    requires msg != bs && (msg != null ==> lenmsg == msg.Length)
    requires job.lenmsg == lenmsg && job.compress == compress
    requires msg != null ==> OnTop(msg[..], was, job.start, now.out)
    requires compression.entries == now.known && (compress ==> suffix == Key(job, now))
    modifies msg, compression
    ensures var t := Turn(job, now);
      && stop == t.Stopped? && compression.entries == (if stop then t.result.known else t.next.known)
      && (stop ==> Reports(t.result, job.start, end, now.labels, error, pointer, off, compression.entries))
      && (!stop ==> t.next == Emitted(job, now) && error == NoError && pointer == None)
      && (!stop ==> end == job.start + |t.next.out|)
      && (msg != null ==> OnTop(msg[..], was, job.start, if stop then OutOf(t.result) else t.next.out))
  {
    end, stop, error, pointer := off, true, NoError, None;
    if doubled || i - begin >= 64 {
      error := ErrRdata;
      return;
    }
    var ok;
    end, ok := WriteLabel(bs, begin, i, was, job.start, now.out, msg, off, lenmsg);
    if !ok {
      error := ErrBuf;
      return;
    }
    if compress {
      pointer := Lookup(compression, suffix, off);
    }
    stop := pointer.Some?;
  }

  method PackLabels(bs: array<byte>, ghost job: Job, msg: array?<byte>, start: nat, lenmsg: nat,
                    compression: CompressionMap, compress: bool)
    returns (off: nat, labels: nat, error: Error, pointer: Option<nat>, nameoffset: nat)
    requires job == Job(bs[..], start, lenmsg, msg == null, compress)
    requires bs.Length > 0 && bs[bs.Length - 1] == Dot
    requires msg != bs && (msg != null ==> lenmsg == msg.Length)
    modifies bs, msg, compression
    ensures var r := Scan(job, Start(old(compression.entries)));
      && Reports(r, start, off, labels, error, pointer, nameoffset, compression.entries)
      && (msg != null ==> OnTop(msg[..], old(Content(msg)), start, OutOf(r)))
  {
    off, labels, error, pointer, nameoffset := start, 0, NoError, None, 0;
    var i: nat, ls: nat, begin: nat := 0, bs.Length, 0;
    var escapedDot := false;
    ghost var now := Start(compression.entries);
    ghost var goal := Scan(job, now);
    ghost var was := Content(msg);
    while i < ls
      invariant ls <= bs.Length && Stage(bs[..], i, ls, begin, escapedDot, job, now)
      invariant off == start + |now.out| && labels == now.labels && compression.entries == now.known
      invariant msg != null ==> OnTop(msg[..], was, start, now.out)
      invariant Scan(job, now) == goal
      decreases ls - i
    {
      var k := i + 1;
      if bs[i] == Dot {
        var offset, stop, e, p := off, false, NoError, None;
        ghost var next;
        off, stop, e, p, next := DotTurn(bs, i, k, ls, begin, escapedDot, job, now, was, msg, offset, lenmsg,
                                         compression, compress);
        if stop {
          return off, labels, e, p, offset;
        }
        labels, begin, escapedDot, now := labels + 1, k, false, next;
      } else {
        var full;
        ls, escapedDot, full, now := TextTurn(bs, i, k, ls, begin, escapedDot, off, lenmsg, job, now);
        if full {
          return off, labels, ErrBuf, None, 0;
        }
      }
      i := k;
    }
    return off, labels, NoError, None, 0;
  }

  lemma NoRoomToEscape(b: seq<byte>, i: nat, n: nat, begin: nat, escapedDot: bool, job: Job, now: Packing)
    requires Stage(b, i, n, begin, escapedDot, job, now) && i < n && b[i] == Backslash
    requires job.start + |now.out| + 1 > job.lenmsg
    ensures Scan(job, now) == Broken(ErrBuf, now.labels, now.known)
  {
    ByteStage(b, i, n, begin, escapedDot, job, now);
  }

  // ----- The whole call

  lemma {:induction false} ScanEnds(job: Job, st: Packing)
    ensures var r := Scan(job, st);
      (r.Broken? ==> r.error in {ErrBuf, ErrRdata}) && (r.Hit? ==> r.at + 2 <= |r.out| + 1 && r.at <= |r.out|)
    decreases |job.s| - st.p
  {
    if st.p < |job.s| && Turn(job, st).Goes? {
      ScanEnds(job, Turn(job, st).next);
    }
  }

  lemma OnTopPrefix(m: seq<byte>, before: seq<byte>, start: nat, out: seq<byte>, at: nat)
    requires OnTop(m, before, start, out) && at <= |out|
    ensures OnTop(m, before, start, out[..at])
  {
    if out[..at] != [] {
      assert m[start..start + at] == m[start..start + |out|][..at];
    }
  }

  /** A pointer over what was written behind the first `at` bytes. */
  method PutPointer(msg: array<byte>, ghost was: seq<byte>, ghost start: nat, ghost out: seq<byte>, ghost at: nat,
                    nameoffset: nat, pointer: nat)
    requires OnTop(msg[..], was, start, out) && at <= |out| && nameoffset == start + at
    requires nameoffset + 2 <= msg.Length
    modifies msg
    ensures OnTop(msg[..], was, start, out[..at] + PointerBytes(pointer))
  {
    ghost var middle := msg[..];
    var b := PointerBytes(pointer);
    msg[nameoffset], msg[nameoffset + 1] := b[0], b[1];
    OnTopPrefix(middle, was, start, out, at);
    assert msg[nameoffset..nameoffset + 2] == b;
    assert msg[..nameoffset] == middle[..nameoffset];
    OnTopOf(msg[..], middle, was, start, out[..at], b);
  }

  method PutZero(msg: array<byte>, ghost was: seq<byte>, ghost start: nat, ghost out: seq<byte>, off: nat)
    requires OnTop(msg[..], was, start, out) && off == start + |out| && off < msg.Length
    modifies msg
    ensures OnTop(msg[..], was, start, out + [0])
  {
    ghost var middle := msg[..];
    msg[off] := 0;
    assert msg[off..off + 1] == [0];
    assert msg[..off] == middle[..off];
    OnTopOf(msg[..], middle, was, start, out, [0]);
  }

  /** What stands behind the scan: a pointer, a zero byte, or for the root nothing more. */
  method FinishName(root: bool, msg: array?<byte>, ghost was: seq<byte>, ghost job: Job, ghost r: Scanned,
                    end: nat, labels: nat, pointer: Option<nat>, nameoffset: nat, lenmsg: nat)
    returns (off: nat, error: Error)
    requires Reports(r, job.start, end, labels, NoError, pointer, nameoffset, r.known) && !r.Broken?
    requires r.Hit? ==> r.at <= |r.out|
    requires (root <==> job.s == [Dot]) && (root ==> r.Ended?)
    requires job.counting == (msg == null) && job.lenmsg == lenmsg && (msg != null ==> lenmsg == msg.Length)
    requires msg != null ==> OnTop(msg[..], was, job.start, r.out)
    modifies msg
    ensures var f := Finish(job, r);
      && off == f.off && error == f.error
      && (msg != null ==> OnTop(msg[..], was, job.start, f.bytes))
  {
    off, error := end, NoError;
    if msg != null {
      OnTopPrefix(msg[..], was, job.start, r.out, 0);
    }
    if root {
      return;
    }
    if pointer.Some? {
      if msg == null || nameoffset + 2 > lenmsg {
        return lenmsg, Panicked;
      }
      PutPointer(msg, was, job.start, r.out, r.at, nameoffset, pointer.value);
      return nameoffset + 2, NoError;
    }
    if msg != null {
      if off >= msg.Length {
        return lenmsg, Panicked;
      }
      PutZero(msg, was, job.start, r.out, off);
    }
    off := off + 1;
  }

  lemma RootIsNoHit(job: Job, known: map<seq<byte>, nat>)
    ensures job.s == [Dot] ==> !Scan(job, Start(known)).Hit?
  {
    var st := Start(known);
    assert job.s == [Dot] ==> Key(job, st) == [Dot];
    assert job.s == [Dot] && Turn(job, st).Goes? ==> Turn(job, st).next.p == 1;
  }

  /** A nil message only counts labels, in 256 bytes that are not there. */
  method PackDomainName(s: seq<byte>, msg: array?<byte>, start: nat, compression: CompressionMap, compress: bool)
    returns (off: nat, labels: nat, error: Error)
    modifies msg, compression
    ensures var r := Pack(s, start, if msg == null then None else Some(msg.Length), old(compression.entries), compress);
      && off == r.off && labels == r.labels && error == r.error && compression.entries == r.known
      && (msg != null ==> OnTop(msg[..], old(Content(msg)), start, r.bytes))
  {
    var lenmsg := 256;
    if msg != null {
      lenmsg := msg.Length;
    }
    if |s| == 0 {
      return start, 0, NoError;
    }
    var text := s;
    if s[|s| - 1] != Dot {
      if msg != null {
        return lenmsg, 0, ErrFqdn;
      }
      text := s + [Dot];
    }
    ghost var job := Job(text, start, lenmsg, msg == null, compress);
    ghost var was := Content(msg);
    ghost var r := Scan(job, Start(compression.entries));
    ScanEnds(job, Start(compression.entries));
    var bs := new byte[|text|](i requires 0 <= i < |text| => text[i]);
    assert bs[..] == text;
    var end, pointer, nameoffset;
    end, labels, error, pointer, nameoffset := PackLabels(bs, job, msg, start, lenmsg, compression, compress);
    if error != NoError {
      return lenmsg, labels, error;
    }
    RootIsNoHit(job, old(compression.entries));
    off, error := FinishName(text == [Dot], msg, was, job, r, end, labels, pointer, nameoffset, lenmsg);
  }

  method IsDomainName(s: seq<byte>) returns (labels: nat, ok: bool)
    ensures var r := Pack(s, 0, None, map[], false); labels == r.labels && ok == (r.error == NoError)
  {
    var compression := new CompressionMap();
    var off, error;
    off, labels, error := PackDomainName(s, null, 0, compression, false);
    ok := error == NoError;
  }
}
