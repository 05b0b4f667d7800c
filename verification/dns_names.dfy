/** Domain names in miekg/dns: labels, their wire form (section 3.1 of RFC 1035), their presentation form
    (section 5.1) and what packing and unpacking compute. */
module DnsNames {
  import opened Bytes
  import opened Sequences
  import opened Wrappers

  type Label = seq<byte>

  const Dot: byte := 46
  const Backslash: byte := 92
  const MaxCompressionOffset := 0x4000
  const MaxPointers := 10

  datatype Error = NoError | ErrFqdn | ErrRdata | ErrBuf | ErrPointers | Panicked

  // ----- Wire form

  predicate WireLabel(l: Label) {
    1 <= |l| <= 63
  }

  predicate WireName(labels: seq<Label>) {
    forall l :: l in labels ==> WireLabel(l)
  }

  function CountedLabel(l: Label): (b: seq<byte>)
    requires WireLabel(l)
  {
    [|l|] + l
  }

  function Encoded(labels: seq<Label>): seq<byte>
    requires WireName(labels)
  {
    if labels == [] then []
    else
      assert WireLabel(labels[0]);
      CountedLabel(labels[0]) + Encoded(labels[1..])
  }

  /** An uncompressed name: counted labels and a zero byte. */
  function Wire(labels: seq<Label>): seq<byte>
    requires WireName(labels)
  {
    Encoded(labels) + [0]
  }

  // ----- Presentation form

  predicate IsDigit(b: byte) {
    48 <= b <= 57
  }

  function Decimal(b: byte): (d: seq<byte>)
    ensures |d| == 3 && forall x :: x in d ==> IsDigit(x)
  {
    [48 + b / 100, 48 + b / 10 % 10, 48 + b % 10]
  }

  /** dot ( ) ; space @ " and the backslash are escaped by a backslash. */
  predicate Special(b: byte) {
    b == Dot || b == 40 || b == 41 || b == 59 || b == 32 || b == 64 || b == 34 || b == Backslash
  }

  /** Tab and carriage return have letters, other unprintable bytes three digits. */
  function Escape(b: byte): (e: seq<byte>)
    ensures 1 <= |e| <= 4
  {
    if Special(b) then [Backslash, b]
    else if b == 9 then [Backslash, 116]
    else if b == 13 then [Backslash, 114]
    else if b < 32 || b >= 127 then [Backslash] + Decimal(b)
    else [b]
  }

  function EscapeLabel(l: Label): seq<byte> {
    if l == [] then [] else Escape(l[0]) + EscapeLabel(l[1..])
  }

  function Dotted(labels: seq<Label>): seq<byte> {
    if labels == [] then [] else EscapeLabel(labels[0]) + [Dot] + Dotted(labels[1..])
  }

  /** The text of a name; the root is a single dot. */
  function Present(labels: seq<Label>): seq<byte> {
    if labels == [] then [Dot] else Dotted(labels)
  }

  // ----- Unpacking

  /** What stands at an offset. */
  datatype Step = Stop(error: Error) | End | Literal(bytes: Label, next: nat) | Pointer(target: nat)

  function StepAt(msg: seq<byte>, off: nat): (r: Step)
    ensures r.Literal? ==> off < r.next <= |msg|
    ensures r.Pointer? ==> off + 1 < |msg|
  {
    if off >= |msg| then Stop(ErrBuf)
    else
      var c: nat := msg[off];
      if c == 0 then End
      else if c < 0x40 then
        if off + 1 + c > |msg| then Stop(ErrBuf) else Literal(msg[off + 1..off + 1 + c], off + 1 + c)
      else if c < 0xC0 then Stop(ErrRdata)
      else if off + 1 >= |msg| then Stop(ErrBuf)
      else
        var low: nat := msg[off + 1];
        Pointer((c - 0xC0) * 0x100 + low)
  }

  datatype Unpacked = Failed(error: Error) | Name(labels: seq<Label>, next: nat)

  /** Reads a name at an offset, following at most `hops` pointers. The offset after the name is the one after
      its zero byte or after its first pointer. */
  function Decode(msg: seq<byte>, off: nat, hops: nat): Unpacked
    decreases hops, |msg| - off
  {
    match StepAt(msg, off)
    case Stop(error) => Failed(error)
    case End => Name([], off + 1)
    case Literal(bytes, next) =>
      var rest := Decode(msg, next, hops);
      if rest.Failed? then rest else Name([bytes] + rest.labels, rest.next)
    case Pointer(target) =>
      if hops == 0 then Failed(ErrPointers)
      else
        var rest := Decode(msg, target, hops - 1);
        if rest.Failed? then rest else Name(rest.labels, off + 2)
  }

  lemma DecodeLabel(all: seq<byte>, off: nat, l: Label, hops: nat)
    requires WireLabel(l) && At(all, off, CountedLabel(l)) && Decode(all, off + 1 + |l|, hops).Name?
    ensures var tail := Decode(all, off + 1 + |l|, hops);
      Decode(all, off, hops) == Name([l] + tail.labels, tail.next)
  {
    AtPoint(all, off, CountedLabel(l), 0);
    AtTail<byte>(all, off, [|l|], l);
    AtIsSlice(all, off + 1, l);
    assert StepAt(all, off) == Literal(l, off + 1 + |l|);
  }

  // ----- Packing

  /** What does not change while a name is packed: the text, where it goes, the bytes there are
      (256 when only labels are counted), and whether to compress. */
  datatype Job = Job(s: seq<byte>, start: nat, lenmsg: nat, counting: bool, compress: bool)

  /** Where packing stands: the text position, the unescaped bytes of the current label, whether nothing has been
      read yet, the stale bytes behind the shrinking text buffer, the bytes written from the start on, the labels
      counted, and the compression map. */
  datatype Packing = Packing(
    p: nat, cur: seq<byte>, first: bool, stale: seq<byte>,
    out: seq<byte>, labels: nat, known: map<seq<byte>, nat>)

  /** The end of the scan: an error, the end of the text, or a suffix known from before, whose label
      starts behind the first `at` bytes written. */
  datatype Scanned =
    | Broken(error: Error, labels: nat, known: map<seq<byte>, nat>)
    | Ended(out: seq<byte>, labels: nat, known: map<seq<byte>, nat>)
    | Hit(out: seq<byte>, labels: nat, known: map<seq<byte>, nat>, pointer: nat, at: nat)

  function Start(known: map<seq<byte>, nat>): Packing {
    Packing(0, [], true, [], [], 0, known)
  }

  /** Three digits behind the backslash at p. */
  predicate ThreeDigits(s: seq<byte>, p: nat) {
    p + 3 < |s| && IsDigit(s[p + 1]) && IsDigit(s[p + 2]) && IsDigit(s[p + 3])
  }

  /** Byte arithmetic, so values above 255 wrap around. */
  function DddToByte(a: byte, b: byte, c: byte): byte
    requires IsDigit(a) && IsDigit(b) && IsDigit(c)
  {
    ((a - 48) * 100 + (b - 48) * 10 + (c - 48)) % 0x100
  }

  function Letter(b: byte): byte {
    if b == 116 then 9 else if b == 114 then 13 else if b == 110 then 10 else b
  }

  /** Reads the escape at p. The text moves up by the bytes it loses, which leaves copies of its last bytes behind. */
  function Unescaped(job: Job, st: Packing): Packing
    requires st.p + 1 < |job.s|
  {
    var s, n := job.s, |job.s|;
    if ThreeDigits(s, st.p) then
      st.(p := st.p + 4, cur := st.cur + [DddToByte(s[st.p + 1], s[st.p + 2], s[st.p + 3])], first := false,
          stale := [s[n - 2], s[n - 1], s[n - 1]] + st.stale)
    else
      st.(p := st.p + 2, cur := st.cur + [Letter(s[st.p + 1])], first := false, stale := [s[n - 1]] + st.stale)
  }

  /** The text buffer from the current label on, which is the key its suffix is compressed by. */
  function Key(job: Job, st: Packing): seq<byte>
    requires st.p <= |job.s|
  {
    st.cur + job.s[st.p..] + st.stale
  }

  function Remember(job: Job, st: Packing): map<seq<byte>, nat>
    requires st.p <= |job.s|
  {
    var off := job.start + |st.out|;
    if job.compress && Key(job, st) != [Dot] && off < MaxCompressionOffset then st.known[Key(job, st) := off]
    else st.known
  }

  /** Behind the dot at p. */
  function Emitted(job: Job, st: Packing): Packing
    requires st.p < |job.s| && |st.cur| < 64
  {
    Packing(st.p + 1, [], false, st.stale, st.out + [|st.cur|] + st.cur, st.labels + 1, Remember(job, st))
  }

  datatype Turned = Stopped(result: Scanned) | Goes(next: Packing)

  /** One turn of the scan, at an escape, a dot or any other byte. */
  function Turn(job: Job, st: Packing): (t: Turned)
    requires st.p < |job.s|
    ensures t.Goes? ==> st.p < t.next.p <= |job.s|
  {
    var b, off := job.s[st.p], job.start + |st.out|;
    if b == Backslash then
      if off + 1 > job.lenmsg then Stopped(Broken(ErrBuf, st.labels, st.known))
      else if st.p + 1 == |job.s| then Stopped(Ended(st.out, st.labels, st.known))
      else Goes(Unescaped(job, st))
    else if b != Dot then
      Goes(st.(p := st.p + 1, cur := st.cur + [b], first := false))
    else if (!st.first && st.cur == []) || |st.cur| >= 64 then
      Stopped(Broken(ErrRdata, st.labels, st.known))
    else if off + 1 + |st.cur| > job.lenmsg then
      Stopped(Broken(ErrBuf, st.labels, st.known))
    else if job.compress && Key(job, st) != [Dot] && Key(job, st) in st.known then
      Stopped(Hit(st.out + [|st.cur|] + st.cur, st.labels, st.known, st.known[Key(job, st)], |st.out|))
    else
      Goes(Emitted(job, st))
  }

  function Scan(job: Job, st: Packing): Scanned
    decreases |job.s| - st.p
  {
    if st.p >= |job.s| then Ended(st.out, st.labels, st.known)
    else
      match Turn(job, st)
      case Stopped(r) => r
      case Goes(next) => Scan(job, next)
  }

  lemma ScanGoes(job: Job, now: Packing, next: Packing)
    requires now.p < |job.s| && Turn(job, now) == Goes(next)
    ensures Scan(job, now) == Scan(job, next)
  {
  }

  /** What a call returns, what it leaves at the start offset, and the compression map after it. */
  datatype Packed = Packed(off: nat, labels: nat, error: Error, bytes: seq<byte>, known: map<seq<byte>, nat>)

  /** A pointer with its top two bits flipped, as two bytes. */
  function PointerBytes(pointer: nat): (b: seq<byte>)
    ensures |b| == 2
  {
    BigEndian((3 - pointer / 0x4000 % 4) * 0x4000 + pointer % 0x4000, 2)
  }

  function Finish(job: Job, r: Scanned): Packed {
    match r
    case Broken(error, labels, known) => Packed(job.lenmsg, labels, error, [], known)
    case Ended(out, labels, known) =>
      var off := job.start + |out|;
      if job.s == [Dot] then Packed(off, labels, NoError, out, known)
      else if !job.counting && off >= job.lenmsg then Packed(job.lenmsg, labels, Panicked, [], known)
      else Packed(off + 1, labels, NoError, out + [0], known)
    case Hit(out, labels, known, pointer, at) =>
      if job.counting || at > |out| || job.start + at + 2 > job.lenmsg then
        Packed(job.lenmsg, labels, Panicked, [], known)
      else Packed(job.start + at + 2, labels, NoError, out[..at] + PointerBytes(pointer), known)
  }

  /** packDomainName. Counting stands for a nil message: the text is completed by a dot and nothing is written. */
  function Pack(s: seq<byte>, start: nat, lenmsg: Option<nat>, known: map<seq<byte>, nat>, compress: bool): Packed {
    if s == [] then Packed(start, 0, NoError, [], known)
    else if lenmsg.Some? && s[|s| - 1] != Dot then Packed(lenmsg.value, 0, ErrFqdn, [], known)
    else
      var text := if s[|s| - 1] != Dot then s + [Dot] else s;
      var job := Job(text, start, if lenmsg.Some? then lenmsg.value else 256, lenmsg.None?, compress);
      Finish(job, Scan(job, Start(known)))
  }
}
