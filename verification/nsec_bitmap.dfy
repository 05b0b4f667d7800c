/** The type bitmap of NSEC records (section 4.1.2 of RFC 4034) in miekg/dns: blocks of a window number, a length and
    that many bytes, in which the most significant bit of the first byte stands for the window's first type. */
module NsecBitmap {
  import opened Bytes
  import opened Sequences
  import opened Wrappers

  type uint16 = x: int | 0 <= x < 0x1_0000

  // ----- Bits

  /** b & (1 << i) != 0 */
  predicate Bit(b: nat, i: nat) {
    if i == 0 then b % 2 == 1 else Bit(b / 2, i - 1)
  }

  /** b | (1 << i) */
  function SetBit(b: nat, i: nat): nat {
    if i == 0 then b / 2 * 2 + 1 else 2 * SetBit(b / 2, i - 1) + b % 2
  }

  function Power(n: nat): (p: nat)
    ensures p > 0
  {
    if n == 0 then 1 else 2 * Power(n - 1)
  }

  lemma {:induction false} SetBitFits(b: nat, i: nat, n: nat)
    requires i < n && b < Power(n)
    ensures SetBit(b, i) < Power(n)
    decreases i
  {
    if i > 0 {
      SetBitFits(b / 2, i - 1, n - 1);
    }
  }

  lemma {:induction false} BitOfSetBit(b: nat, i: nat, j: nat)
    ensures Bit(SetBit(b, i), j) <==> i == j || Bit(b, j)
    decreases i
  {
    if i == 0 {
      assert SetBit(b, i) / 2 == b / 2;
    } else {
      var s := SetBit(b, i);
      assert s / 2 == SetBit(b / 2, i - 1) && s % 2 == b % 2;
      if j > 0 {
        BitOfSetBit(b / 2, i - 1, j - 1);
      }
    }
  }

  lemma {:induction false} NoBits(i: nat)
    ensures !Bit(0, i)
  {
    if i > 0 {
      NoBits(i - 1);
    }
  }

  function Or(b: byte, i: nat): byte
    requires i < 8
  {
    ByteFits();
    SetBitFits(b, i, 8);
    SetBit(b, i)
  }

  /** a | b in n bits */
  function OrBits(a: nat, b: nat, n: nat): (r: nat)
    ensures r < Power(n)
  {
    if n == 0 then 0 else 2 * OrBits(a / 2, b / 2, n - 1) + if a % 2 == 1 || b % 2 == 1 then 1 else 0
  }

  function OrByte(a: byte, b: byte): byte {
    ByteFits();
    OrBits(a, b, 8)
  }

  lemma ByteFits()
    ensures Power(8) == 256
  {
    assert Power(4) == 16;
  }

  lemma {:induction false} BitOfOr(a: nat, b: nat, n: nat, i: nat)
    ensures Bit(OrBits(a, b, n), i) <==> i < n && (Bit(a, i) || Bit(b, i))
    decreases n
  {
    var r := OrBits(a, b, n);
    if n == 0 {
      NoBits(i);
    } else {
      Halves(OrBits(a / 2, b / 2, n - 1), r);
      if i > 0 {
        BitOfOr(a / 2, b / 2, n - 1, i - 1);
      }
    }
  }

  lemma Halves(half: nat, r: nat)
    ensures r == 2 * half ==> r / 2 == half && r % 2 == 0
    ensures r == 2 * half + 1 ==> r / 2 == half && r % 2 == 1
  {
  }

  lemma {:induction false} OrZero(a: nat, n: nat)
    requires a < Power(n)
    ensures OrBits(a, 0, n) == a
  {
    if n > 0 {
      OrZero(a / 2, n - 1);
    }
  }

  lemma {:induction false} ZeroOr(b: nat, n: nat)
    requires b < Power(n)
    ensures OrBits(0, b, n) == b
  {
    if n > 0 {
      ZeroOr(b / 2, n - 1);
    }
  }

  lemma {:induction false} OrSetBit(a: nat, b: nat, i: nat, n: nat)
    requires i < n
    ensures SetBit(OrBits(a, b, n), i) == OrBits(a, SetBit(b, i), n)
    decreases n
  {
    Halves(OrBits(a / 2, b / 2, n - 1), OrBits(a, b, n));
    if i == 0 {
      Halves(b / 2, SetBit(b, i));
    } else {
      Halves(SetBit(b / 2, i - 1), SetBit(b, i));
      OrSetBit(a / 2, b / 2, i - 1, n - 1);
    }
  }

  // ----- Blocks

  type Bits = b: seq<byte> | |b| <= 32

  datatype Block = Block(window: byte, bits: Bits)

  predicate WellFormed(b: Block) {
    b.bits != []
  }

  function Encoded(b: Block): (m: seq<byte>)
    ensures |m| == 2 + |b.bits|
  {
    [b.window, |b.bits|] + b.bits
  }

  /** Windows ascend, as the format demands. */
  predicate Sequence(blocks: seq<Block>) {
    && (forall i :: 0 <= i < |blocks| ==> WellFormed(blocks[i]))
    && (forall i, j :: 0 <= i < j < |blocks| ==> blocks[i].window < blocks[j].window)
  }

  function EncodedAll(blocks: seq<Block>): seq<byte> {
    if blocks == [] then [] else Encoded(blocks[0]) + EncodedAll(blocks[1..])
  }

  /** The bit of t is set in this block. */
  predicate Has(b: Block, t: nat) {
    t / 256 == b.window && t % 256 / 8 < |b.bits| && Bit(b.bits[t % 256 / 8], 7 - t % 8)
  }

  ghost predicate SomeHas(blocks: seq<Block>, t: nat) {
    exists i :: 0 <= i < |blocks| && Has(blocks[i], t)
  }

  // ----- Unpacking

  datatype Error = Overflow | OutOfOrder | EmptyBlock | TooLong

  datatype Result<T> = Ok(value: T) | Err(error: Error)

  /** Bit k of byte j stands for this type. */
  function Position(b: Block, j: nat, k: nat): nat {
    b.window * 256 + j * 8 + k
  }

  /** The types of one byte from bit k on, most significant first. */
  function TypesOfByte(base: nat, b: byte, k: nat): seq<nat>
    requires k <= 8
    decreases base, 8 - k
  {
    if k == 8 then [] else (if Bit(b, 7 - k) then [base + k] else []) + TypesOfByte(base, b, k + 1)
  }

  function TypesOf(b: Block, j: nat): seq<nat>
    requires j <= |b.bits|
    decreases |b.bits| - j
  {
    if j == |b.bits| then [] else TypesOfByte(Position(b, j, 0), b.bits[j], 0) + TypesOf(b, j + 1)
  }

  /** The block in front, for a message that is not empty. */
  function Front(msg: seq<byte>, last: int): (r: Result<Block>)
    ensures r.Ok? ==> WellFormed(r.value) && 2 + |r.value.bits| <= |msg|
  {
    if |msg| < 2 then Err(Overflow)
    else
      var window: nat, length: nat := msg[0], msg[1];
      if window <= last then Err(OutOfOrder)
      else if length == 0 then Err(EmptyBlock)
      else if length > 32 then Err(TooLong)
      else if 2 + length > |msg| then Err(Overflow)
      else Ok(Block(window, msg[2..2 + length]))
  }

  function Behind(before: seq<nat>, r: Result<seq<nat>>): Result<seq<nat>> {
    if r.Err? then r else Ok(before + r.value)
  }

  function Unpack(msg: seq<byte>, last: int): Result<seq<nat>> {
    if msg == [] then Ok([])
    else
      match Front(msg, last)
      case Err(e) => Err(e)
      case Ok(b) => Behind(TypesOf(b, 0), Unpack(msg[2 + |b.bits|..], b.window))
  }

  predicate Ascending(ts: seq<nat>) {
    forall i, j :: 0 <= i < j < |ts| ==> ts[i] < ts[j]
  }

  ghost function TypeSet(b: Block): iset<nat> {
    iset t: nat | Has(b, t)
  }

  /** The numbers of s from lo up to hi, in order. */
  ghost function ListOf(lo: nat, hi: nat, s: iset<nat>): seq<nat>
    requires lo <= hi
    decreases hi - lo
  {
    if lo == hi then [] else (if lo in s then [lo] else []) + ListOf(lo + 1, hi, s)
  }

  lemma {:induction false} ListOfJoins(lo: nat, mid: nat, hi: nat, s: iset<nat>)
    requires lo <= mid <= hi
    ensures ListOf(lo, mid, s) + ListOf(mid, hi, s) == ListOf(lo, hi, s)
    decreases mid - lo
  {
    if lo < mid {
      ListOfJoins(lo + 1, mid, hi, s);
    }
  }

  lemma {:induction false} ListOfIsAscending(lo: nat, hi: nat, s: iset<nat>)
    requires lo <= hi
    ensures Ascending(ListOf(lo, hi, s))
    ensures forall t: nat :: t in ListOf(lo, hi, s) <==> lo <= t < hi && t in s
    decreases hi - lo
  {
    if lo < hi {
      ListOfIsAscending(lo + 1, hi, s);
      if lo in s {
        AscendingCons(lo, ListOf(lo + 1, hi, s));
      }
    }
  }

  lemma AscendingCons(t: nat, rest: seq<nat>)
    requires Ascending(rest) && forall u :: u in rest ==> t < u
    ensures Ascending([t] + rest)
  {
    forall i, j | 0 <= i < j < |[t] + rest| ensures ([t] + rest)[i] < ([t] + rest)[j] {
      assert rest[j - 1] in rest;
    }
  }

  lemma HasAt(b: Block, j: nat, k: nat)
    requires WellFormed(b) && j < |b.bits| && k < 8
    ensures Position(b, j, k) in TypeSet(b) <==> Bit(b.bits[j], 7 - k)
  {
    var t := b.window * 256 + (j * 8 + k);
    assert t / 256 == b.window && t % 256 == j * 8 + k;
    assert (j * 8 + k) / 8 == j && t % 8 == k;
  }

  /** Byte j of the block says which of its eight types are in s. */
  ghost predicate Marks(s: iset<nat>, b: Block, j: nat)
    requires j < |b.bits|
  {
    forall i :: 0 <= i < 8 ==> (Position(b, j, i) in s <==> Bit(b.bits[j], 7 - i))
  }

  lemma NextByte(b: Block, j: nat, next: nat)
    requires next == j + 1
    ensures Position(b, j, 0) <= Position(b, j, 8) == Position(b, next, 0)
  {
  }

  lemma BytesAscend(b: Block, j: nat, k: nat)
    requires j <= k
    ensures Position(b, j, 0) <= Position(b, k, 0)
  {
  }

  lemma {:induction false} TypesOfByteLists(b: Block, j: nat, k: nat, s: iset<nat>)
    requires WellFormed(b) && j < |b.bits| && k <= 8 && Marks(s, b, j)
    ensures TypesOfByte(Position(b, j, 0), b.bits[j], k) == ListOf(Position(b, j, k), Position(b, j, 8), s)
    decreases 8 - k
  {
    if k < 8 {
      assert Position(b, j, k) in s <==> Bit(b.bits[j], 7 - k);
      assert Position(b, j, k + 1) == Position(b, j, k) + 1 && Position(b, j, 0) + k == Position(b, j, k);
      TypesOfByteLists(b, j, k + 1, s);
    }
  }

  lemma MarksItsTypes(b: Block, j: nat)
    requires WellFormed(b) && j < |b.bits|
    ensures Marks(TypeSet(b), b, j)
  {
    forall i | 0 <= i < 8 ensures Position(b, j, i) in TypeSet(b) <==> Bit(b.bits[j], 7 - i) {
      HasAt(b, j, i);
    }
  }

  lemma {:induction false} TypesOfLists(b: Block, j: nat, s: iset<nat>)
    requires WellFormed(b) && j <= |b.bits|
    requires forall j :: 0 <= j < |b.bits| ==> Marks(s, b, j)
    ensures TypesOf(b, j) == ListOf(Position(b, j, 0), Position(b, |b.bits|, 0), s)
    decreases |b.bits| - j
  {
    if j < |b.bits| {
      var next, end := j + 1, Position(b, |b.bits|, 0);
      TypesOfLists(b, next, s);
      NextByte(b, j, next);
      BytesAscend(b, next, |b.bits|);
      TypesOfByteLists(b, j, 0, s);
      ListOfJoins(Position(b, j, 0), Position(b, next, 0), end, s);
    }
  }

  lemma TypesLieInTheBlock(b: Block, t: nat)
    requires WellFormed(b) && Has(b, t)
    ensures Position(b, 0, 0) <= t < Position(b, |b.bits|, 0)
  {
    assert t == t / 256 * 256 + t % 256;
    assert t % 256 < (t % 256 / 8 + 1) * 8;
  }

  /** The types of a block, in order. */
  lemma BlockLists(b: Block)
    requires WellFormed(b)
    ensures Ascending(TypesOf(b, 0))
    ensures forall t: nat :: t in TypesOf(b, 0) <==> Has(b, t)
  {
    forall j | 0 <= j < |b.bits| ensures Marks(TypeSet(b), b, j) {
      MarksItsTypes(b, j);
    }
    TypesOfLists(b, 0, TypeSet(b));
    ListOfIsAscending(Position(b, 0, 0), Position(b, |b.bits|, 0), TypeSet(b));
    forall t: nat ensures t in TypesOf(b, 0) <==> Has(b, t) {
      if Has(b, t) {
        TypesLieInTheBlock(b, t);
      }
    }
  }

  function AllTypes(blocks: seq<Block>): seq<nat> {
    if blocks == [] then [] else TypesOf(blocks[0], 0) + AllTypes(blocks[1..])
  }

  lemma FrontEncoded(b: Block, rest: seq<byte>, last: int)
    requires WellFormed(b) && last < b.window
    ensures Front(Encoded(b) + rest, last) == Ok(b) && (Encoded(b) + rest)[2 + |b.bits|..] == rest
  {
    var msg := Encoded(b) + rest;
    assert msg[0] == b.window && msg[1] == |b.bits|;
    assert msg[2..2 + |b.bits|] == b.bits;
  }

  /** Unpacking well-formed blocks gives the types they have. */
  lemma {:induction false} UnpackEncoded(blocks: seq<Block>, last: int)
    requires Sequence(blocks) && (blocks != [] ==> last < blocks[0].window)
    ensures Unpack(EncodedAll(blocks), last) == Ok(AllTypes(blocks))
    decreases |blocks|
  {
    if blocks != [] {
      FrontEncoded(blocks[0], EncodedAll(blocks[1..]), last);
      UnpackEncoded(blocks[1..], blocks[0].window);
    }
  }

  lemma FrontIsEncoded(msg: seq<byte>, last: int, b: Block)
    requires Front(msg, last) == Ok(b)
    ensures last < b.window && msg == Encoded(b) + msg[2 + |b.bits|..]
  {
  }

  /** Whatever can be unpacked consists of such blocks. */
  lemma {:induction false} UnpackedIsEncoded(msg: seq<byte>, last: int) returns (blocks: seq<Block>)
    requires Unpack(msg, last).Ok?
    ensures Sequence(blocks) && EncodedAll(blocks) == msg && (blocks != [] ==> last < blocks[0].window)
    decreases |msg|
  {
    if msg == [] {
      blocks := [];
    } else {
      var b := Front(msg, last).value;
      FrontIsEncoded(msg, last, b);
      var more := UnpackedIsEncoded(msg[2 + |b.bits|..], b.window);
      blocks := [b] + more;
      assert blocks[1..] == more;
    }
  }

  /** Unpacking succeeds exactly on blocks of 1 to 32 bytes in ascending windows. */
  lemma UnpackSucceedsIff(msg: seq<byte>)
    ensures Unpack(msg, -1).Ok? <==> exists blocks :: Sequence(blocks) && EncodedAll(blocks) == msg
  {
    if Unpack(msg, -1).Ok? {
      var blocks := UnpackedIsEncoded(msg, -1);
    }
    forall blocks | Sequence(blocks) && EncodedAll(blocks) == msg ensures Unpack(msg, -1).Ok? {
      UnpackEncoded(blocks, -1);
    }
  }

  lemma {:induction false} AllTypesAscend(blocks: seq<Block>)
    requires Sequence(blocks)
    ensures Ascending(AllTypes(blocks))
    ensures forall t :: t in AllTypes(blocks) <==> SomeHas(blocks, t)
    decreases |blocks|
  {
    if blocks != [] {
      var x, y := TypesOf(blocks[0], 0), AllTypes(blocks[1..]);
      BlockLists(blocks[0]);
      AllTypesAscend(blocks[1..]);
      forall t ensures SomeHas(blocks, t) <==> Has(blocks[0], t) || SomeHas(blocks[1..], t) {
        SomeHasSplits(blocks, t);
      }
      forall u, v | u in x && v in y ensures u < v {
        LaterIsLarger(blocks, u, v);
      }
      AscendingJoin(x, y);
    }
  }

  lemma {:induction false} SomeHasSplits(blocks: seq<Block>, t: nat)
    requires blocks != []
    ensures SomeHas(blocks, t) <==> Has(blocks[0], t) || SomeHas(blocks[1..], t)
  {
    if SomeHas(blocks, t) && !Has(blocks[0], t) {
      var i :| 0 <= i < |blocks| && Has(blocks[i], t);
      assert Has(blocks[1..][i - 1], t);
    }
    if SomeHas(blocks[1..], t) {
      var i :| 0 <= i < |blocks[1..]| && Has(blocks[1..][i], t);
      assert Has(blocks[i + 1], t);
    }
  }

  lemma {:induction false} LaterIsLarger(blocks: seq<Block>, u: nat, v: nat)
    requires Sequence(blocks) && blocks != [] && Has(blocks[0], u) && SomeHas(blocks[1..], v)
    ensures u < v
  {
    var i :| 0 <= i < |blocks[1..]| && Has(blocks[1..][i], v);
    assert blocks[0].window < blocks[i + 1].window;
    assert u / 256 < v / 256;
  }

  lemma AscendingJoin(x: seq<nat>, y: seq<nat>)
    requires Ascending(x) && Ascending(y) && forall u, v :: u in x && v in y ==> u < v
    ensures Ascending(x + y)
  {
    forall i, j | 0 <= i < j < |x + y| ensures (x + y)[i] < (x + y)[j] {
      if i < |x| <= j {
        assert x[i] in x && y[j - |x|] in y;
      }
    }
  }

  /** Two ascending lists of the same numbers are the same list. */
  lemma {:induction false} AscendingIsUnique(x: seq<nat>, y: seq<nat>)
    requires Ascending(x) && Ascending(y) && forall t :: t in x <==> t in y
    ensures x == y
    decreases |x|
  {
    if x == [] {
      assert forall i :: 0 <= i < |y| ==> y[i] in x;
    } else {
      assert x[0] in x && x[0] in y && y[0] in y && y[0] in x;
      forall t ensures t in x[1..] <==> t in y[1..] {
        assert t in x[1..] <==> t in x && t != x[0];
        assert t in y[1..] <==> t in y && t != y[0];
      }
      AscendingIsUnique(x[1..], y[1..]);
      assert x == [x[0]] + x[1..] && y == [y[0]] + y[1..];
    }
  }

  // ----- Packing

  /** The blocks that are complete, and the one that is being filled; its bits are empty before the first type. */
  datatype State = State(done: seq<Block>, cur: Block)

  const Empty := State([], Block(0, []))

  function All(st: State): seq<Block> {
    if st.cur.bits == [] then st.done else st.done + [st.cur]
  }

  type Length = n: nat | 1 <= n <= 32 witness 1

  type BitNumber = i: nat | i < 8

  /** Where a type goes: its window, the length that the block must have, and a bit of the last byte. */
  datatype Slot = Slot(window: byte, length: Length, bit: BitNumber)

  function SlotOf(t: uint16): Slot {
    Slot(t / 256, t % 256 / 8 + 1, 7 - t % 8)
  }

  function Slots(ts: seq<uint16>): (xs: seq<Slot>)
    ensures |xs| == |ts|
  {
    if ts == [] then [] else [SlotOf(ts[0])] + Slots(ts[1..])
  }

  /** bits grown to n bytes, the last with bit i set. */
  function WithBit(bits: Bits, n: Length, i: BitNumber): (r: Bits)
    requires |bits| <= n
    ensures |r| == n
    decreases n - |bits|
  {
    if |bits| < n then WithBit(bits + [0], n, i) else bits[n - 1 := Or(bits[n - 1], i)]
  }

  /** A larger window than that of a block that is not empty starts a new block. */
  function Jumped(st: State, window: nat): State {
    if window > st.cur.window && st.cur.bits != [] then State(st.done + [st.cur], Block(st.cur.window, [])) else st
  }

  predicate InOrder(st: State, x: Slot) {
    x.window >= Jumped(st, x.window).cur.window && x.length >= |Jumped(st, x.window).cur.bits|
  }

  function Added(st: State, x: Slot): State
    requires InOrder(st, x)
  {
    var jumped := Jumped(st, x.window);
    State(jumped.done, Block(x.window, WithBit(jumped.cur.bits, x.length, x.bit)))
  }

  /** One turn of the loop. */
  function Turn(st: State, x: Slot, room: int): Result<State> {
    if !InOrder(st, x) then Err(OutOfOrder)
    else if |EncodedAll(All(Added(st, x)))| > room then Err(Overflow)
    else Ok(Added(st, x))
  }

  /** The state at the end of the loop, or at the type that it fails at. */
  datatype Folded = Folded(st: State, error: Option<Error>)

  function Fold(xs: seq<Slot>, st: State, room: int): Folded
    decreases |xs|
  {
    if xs == [] then Folded(st, None)
    else
      match Turn(st, xs[0], room)
      case Err(e) => Folded(st, Some(e))
      case Ok(next) => Fold(xs[1..], next, room)
  }

  /** What every state of the loop keeps. */
  predicate Good(st: State) {
    Sequence(All(st)) && (st.cur.bits == [] ==> st == Empty)
  }

  lemma GoodStep(st: State, x: Slot)
    requires Good(st) && InOrder(st, x)
    ensures Good(Added(st, x))
  {
    var jumped := Jumped(st, x.window);
    var next := Added(st, x);
    assert All(next) == jumped.done + [next.cur];
    forall i | 0 <= i < |jumped.done| ensures WellFormed(jumped.done[i]) && jumped.done[i].window < x.window {
      assert jumped.done[i] == All(st)[i];
      if jumped == st {
        assert All(st)[|All(st)| - 1] == st.cur;
      } else if i + 1 < |jumped.done| {
        assert All(st)[|All(st)| - 1] == st.cur;
      }
    }
    forall i, j | 0 <= i < j < |jumped.done| ensures jumped.done[i].window < jumped.done[j].window {
      assert jumped.done[i] == All(st)[i] && jumped.done[j] == All(st)[j];
    }
  }

  lemma {:induction false} WithBitAt(bits: Bits, n: Length, i: BitNumber, m: nat)
    requires |bits| <= n && m < n
    ensures WithBit(bits, n, i)[m] ==
            var was := if m < |bits| then bits[m] else 0;
            if m == n - 1 then Or(was, i) else was
    decreases n - |bits|
  {
    if |bits| < n {
      WithBitAt(bits + [0], n, i, m);
    }
  }

  /** The new block has the types of the old one and t. */
  lemma WithBitHas(window: byte, bits: Bits, t: uint16, u: nat)
    requires t / 256 == window && |bits| <= t % 256 / 8 + 1
    ensures var x := SlotOf(t);
      Has(Block(window, WithBit(bits, x.length, x.bit)), u) <==> Has(Block(window, bits), u) || u == t
  {
    var x, j := SlotOf(t), u % 256 / 8;
    if u / 256 == window && j < x.length {
      WithBitAt(bits, x.length, x.bit, j);
      NoBits(7 - u % 8);
      BitOfSetBit(if j < |bits| then bits[j] else 0, x.bit, 7 - u % 8);
      if j == x.length - 1 && u % 8 == t % 8 {
        SameType(t, u);
      }
    }
  }

  lemma TypeParts(t: nat)
    ensures t == t / 256 * 256 + t % 256 / 8 * 8 + t % 8
  {
    var m := t % 256;
    assert t == t / 256 * 256 + m && m == m / 8 * 8 + m % 8;
    assert t % 8 == m % 8 by {
      assert t == 8 * (t / 256 * 32) + m;
    }
  }

  lemma SameType(t: nat, u: nat)
    requires t / 256 == u / 256 && t % 256 / 8 == u % 256 / 8 && t % 8 == u % 8
    ensures t == u
  {
    TypeParts(t);
    TypeParts(u);
  }

  lemma {:induction false} SomeHasSnoc(blocks: seq<Block>, b: Block, u: nat)
    ensures SomeHas(blocks + [b], u) <==> SomeHas(blocks, u) || Has(b, u)
  {
    if SomeHas(blocks, u) {
      var i :| 0 <= i < |blocks| && Has(blocks[i], u);
      assert Has((blocks + [b])[i], u);
    }
    if Has(b, u) {
      assert Has((blocks + [b])[|blocks|], u);
    }
    if SomeHas(blocks + [b], u) && !Has(b, u) {
      var i :| 0 <= i < |blocks + [b]| && Has((blocks + [b])[i], u);
      assert Has(blocks[i], u);
    }
  }

  lemma StepHas(st: State, t: uint16, u: nat)
    requires Good(st) && InOrder(st, SlotOf(t))
    ensures SomeHas(All(Added(st, SlotOf(t))), u) <==> SomeHas(All(st), u) || u == t
  {
    var jumped := Jumped(st, t / 256);
    var next := Added(st, SlotOf(t));
    WithBitHas(t / 256, jumped.cur.bits, t, u);
    SomeHasSnoc(jumped.done, next.cur, u);
    SomeHasSnoc(st.done, st.cur, u);
    assert !Has(Block(t / 256, []), u);
  }

  lemma {:induction false} FoldIsGood(xs: seq<Slot>, st: State, room: int)
    requires Good(st)
    ensures var end := Fold(xs, st, room);
      && Good(end.st)
      && (end.error.None? && xs != [] ==> end.st.cur.bits != [] && |EncodedAll(All(end.st))| <= room)
    decreases |xs|
  {
    if xs != [] && Turn(st, xs[0], room).Ok? {
      GoodStep(st, xs[0]);
      FoldIsGood(xs[1..], Added(st, xs[0]), room);
      assert xs[1..] == [] ==> Fold(xs[1..], Added(st, xs[0]), room).st == Added(st, xs[0]);
    }
  }

  lemma {:induction false} FoldHas(ts: seq<uint16>, st: State, room: int, u: nat)
    requires Good(st) && Fold(Slots(ts), st, room).error.None?
    ensures SomeHas(All(Fold(Slots(ts), st, room).st), u) <==> SomeHas(All(st), u) || u in ts
    decreases |ts|
  {
    if ts != [] {
      var x := SlotOf(ts[0]);
      assert Slots(ts)[0] == x && Slots(ts)[1..] == Slots(ts[1..]);
      GoodStep(st, x);
      StepHas(st, ts[0], u);
      FoldHas(ts[1..], Added(st, x), room, u);
      assert u in ts <==> u == ts[0] || u in ts[1..];
    }
  }

  /** What packStructValue leaves for a list of types in `room` bytes of zeros. */
  function Pack(ts: seq<uint16>, room: int): Result<seq<byte>> {
    var r := Fold(Slots(ts), Empty, room);
    if r.error.Some? then Err(r.error.value) else Ok(EncodedAll(All(r.st)))
  }

  /** Unpacking what was packed gives the types without repetitions, in ascending order. */
  lemma UnpackPacked(ts: seq<uint16>, room: int)
    requires Pack(ts, room).Ok?
    ensures var r := Unpack(Pack(ts, room).value, -1);
      && r.Ok? && Ascending(r.value)
      && forall u: nat :: u in r.value <==> u in ts
  {
    FoldIsGood(Slots(ts), Empty, room);
    var blocks := All(Fold(Slots(ts), Empty, room).st);
    UnpackEncoded(blocks, -1);
    AllTypesAscend(blocks);
    forall u: nat ensures u in AllTypes(blocks) <==> u in ts {
      FoldHas(ts, Empty, room, u);
      assert !SomeHas(All(Empty), u);
    }
  }

  /** An ascending list survives, across windows and gaps. */
  lemma AscendingRoundTrip(ts: seq<uint16>, room: int)
    requires Ascending(ts) && Pack(ts, room).Ok?
    ensures Unpack(Pack(ts, room).value, -1) == Ok(ts)
  {
    UnpackPacked(ts, room);
    AscendingIsUnique(Unpack(Pack(ts, room).value, -1).value, ts);
  }

  // ----- The layout

  function Zeros(n: nat): (z: seq<byte>)
    ensures |z| == n
  {
    if n == 0 then [] else Zeros(n - 1) + [0]
  }

  lemma {:induction false} SetBitOfZero(i: nat)
    ensures SetBit(0, i) == Power(i)
  {
    if i > 0 {
      SetBitOfZero(i - 1);
    }
  }

  lemma {:induction false} ZerosWithBit(k: nat, n: Length, i: BitNumber)
    requires k < n
    ensures WithBit(Zeros(k), n, i) == Zeros(n - 1) + [SetBit(0, i)]
    decreases n - k
  {
    if k == n - 1 {
      var z := Zeros(n - 1) + [0];
      assert WithBit(z, n, i) == z[n - 1 := Or(0, i)];
    } else {
      assert Zeros(k) + [0] == Zeros(k + 1);
      ZerosWithBit(k + 1, n, i);
    }
  }

  /** A single type: its window, as many bytes as it takes to reach its bit, and in the last one the bit, where 128
      stands for the first of eight types. */
  lemma SingleType(t: uint16, room: int)
    requires 34 <= room
    ensures Pack([t], room) == Ok([t / 256, t % 256 / 8 + 1] + (Zeros(t % 256 / 8) + [Power(7 - t % 8)]))
    ensures Power(7) == 128 && Power(0) == 1
  {
    var x := SlotOf(t);
    var next := Added(Empty, x);
    assert Power(4) == 16;
    ZerosWithBit(0, x.length, x.bit);
    SetBitOfZero(x.bit);
    SingleFold(t, x, next, room);
    assert All(next) == [] + [next.cur];
    EncodedAllSnoc([], next.cur);
    EmptyIsUnit(Encoded(next.cur));
    EmptyIsUnit(Zeros(0));
  }

  lemma FoldOfOne(x: Slot, st: State, next: State, room: int)
    requires Turn(st, x, room) == Ok(next)
    ensures Fold([x], st, room) == Folded(next, None)
  {
    assert [x][0] == x && [x][1..] == [];
    assert Fold([], next, room) == Folded(next, None);
  }

  lemma SingleFold(t: uint16, x: Slot, next: State, room: int)
    requires x == SlotOf(t) && next == Added(Empty, x) && 34 <= room
    ensures Pack([t], room) == Ok(EncodedAll(All(next)))
  {
    assert Slots([t]) == [x];
    assert All(next) == [] + [next.cur];
    EncodedAllSnoc([], next.cur);
    TurnFits(Empty, x, room, 2 + x.length);
    assert Turn(Empty, x, room) == Ok(next);
    FoldOfOne(x, Empty, next, room);
  }

  // ----- When packing succeeds

  /** Types of the same byte may come in any order; bytes and windows may not go back. */
  predicate Grouped(ts: seq<uint16>) {
    forall i :: 0 <= i < |ts| - 1 ==> ts[i] / 8 <= ts[i + 1] / 8
  }

  /** The number of the byte, counted over all windows, that the last bit went to. */
  function LastByte(st: State): int {
    st.cur.window * 32 + |st.cur.bits| - 1
  }

  lemma ByteNumber(t: uint16)
    ensures t / 8 == t / 256 * 32 + t % 256 / 8 && t % 256 / 8 < 32
  {
    TypeParts(t);
  }

  lemma StepOrder(st: State, t: uint16)
    requires Good(st)
    ensures InOrder(st, SlotOf(t)) <==> LastByte(st) <= t / 8
    ensures InOrder(st, SlotOf(t)) ==> LastByte(Added(st, SlotOf(t))) == t / 8
  {
    ByteNumber(t);
  }

  /** The types still to come continue from the state in order. */
  predicate Continues(st: State, ts: seq<uint16>) {
    Grouped(ts) && (ts != [] ==> LastByte(st) <= ts[0] / 8)
  }

  lemma ContinuesSplit(st: State, next: State, ts: seq<uint16>)
    requires ts != [] && LastByte(next) == ts[0] / 8 && LastByte(st) <= ts[0] / 8
    ensures Continues(st, ts) <==> Continues(next, ts[1..])
  {
    if Continues(next, ts[1..]) {
      forall i | 0 <= i < |ts| - 1 ensures ts[i] / 8 <= ts[i + 1] / 8 {
        if i > 0 {
          assert ts[1..][i - 1] / 8 <= ts[1..][i] / 8;
        }
      }
    }
    if Continues(st, ts) {
      forall i | 0 <= i < |ts[1..]| - 1 ensures ts[1..][i] / 8 <= ts[1..][i + 1] / 8 {
        assert ts[i + 1] / 8 <= ts[i + 2] / 8;
      }
      assert |ts| > 1 ==> ts[0] / 8 <= ts[1] / 8;
    }
  }

  lemma {:induction false} FoldOrder(ts: seq<uint16>, st: State, room: int)
    requires Good(st)
    ensures var r := Fold(Slots(ts), st, room);
      && (r.error.None? ==> Continues(st, ts))
      && (Continues(st, ts) ==> r.error.None? || r.error == Some(Overflow))
    decreases |ts|
  {
    if ts != [] {
      var x := SlotOf(ts[0]);
      assert Slots(ts)[0] == x && Slots(ts)[1..] == Slots(ts[1..]);
      StepOrder(st, ts[0]);
      if InOrder(st, x) {
        GoodStep(st, x);
        ContinuesSplit(st, Added(st, x), ts);
        FoldOrder(ts[1..], Added(st, x), room);
      }
    }
  }

  /** The most that blocks of all windows can take. */
  const MaxSize := 34 * 256

  lemma {:induction false} EncodedAllFits(blocks: seq<Block>)
    requires Sequence(blocks)
    ensures |EncodedAll(blocks)| <= if blocks == [] then 0 else 34 * (256 - blocks[0].window)
    decreases |blocks|
  {
    if blocks != [] {
      EncodedAllFits(blocks[1..]);
      assert |blocks| > 1 ==> blocks[0].window < blocks[1].window;
    }
  }

  lemma {:induction false} EncodedAllSnoc(blocks: seq<Block>, b: Block)
    ensures EncodedAll(blocks + [b]) == EncodedAll(blocks) + Encoded(b)
    decreases |blocks|
  {
    var all := blocks + [b];
    if blocks == [] {
      assert all[1..] == [];
    } else {
      assert all[1..] == blocks[1..] + [b];
      EncodedAllSnoc(blocks[1..], b);
      Associative(Encoded(blocks[0]), EncodedAll(blocks[1..]), Encoded(b));
    }
  }

  lemma StepGrows(st: State, x: Slot)
    requires InOrder(st, x)
    ensures |EncodedAll(All(st))| <= |EncodedAll(All(Added(st, x)))|
  {
    EncodedAllSnoc(Jumped(st, x.window).done, Added(st, x).cur);
    EncodedState(st);
  }

  /** How much room there is decides only whether the result fits. */
  lemma {:induction false} FoldRoom(xs: seq<Slot>, st: State, room: int)
    requires Good(st)
    ensures var full := Fold(xs, st, MaxSize);
      && (full.error.Some? ==> Fold(xs, st, room).error.Some? && full.error == Some(OutOfOrder))
      && (full.error.None? ==> |EncodedAll(All(st))| <= |EncodedAll(All(full.st))|)
      && (full.error.None? && xs != [] && |EncodedAll(All(full.st))| <= room ==> Fold(xs, st, room) == full)
      && (full.error.None? && xs != [] && |EncodedAll(All(full.st))| > room ==>
            Fold(xs, st, room).error == Some(Overflow))
    decreases |xs|
  {
    if xs != [] && InOrder(st, xs[0]) {
      GoodStep(st, xs[0]);
      StepGrows(st, xs[0]);
      EncodedAllFits(All(Added(st, xs[0])));
      FoldRoom(xs[1..], Added(st, xs[0]), room);
    }
  }

  /** Packing succeeds exactly when the types are grouped by byte and the result fits. */
  lemma PackSucceedsIff(ts: seq<uint16>, room: int)
    ensures Pack(ts, MaxSize).Ok? <==> Grouped(ts)
    ensures Pack(ts, room).Ok? <==> Grouped(ts) && (ts == [] || |Pack(ts, MaxSize).value| <= room)
  {
    FoldOrder(ts, Empty, MaxSize);
    FoldRoom(Slots(ts), Empty, MaxSize);
    FoldRoom(Slots(ts), Empty, room);
    assert Grouped(ts) ==> Continues(Empty, ts) by {
      if ts != [] {
        assert LastByte(Empty) == -1;
      }
    }
  }

  // ----- In the message

  function ByteOr0(m: seq<byte>, k: nat): byte {
    if k < |m| then m[k] else 0
  }

  /** A block written at position p: its header replaces what was there, its bits are or-ed into it. */
  function LaidOne(under: seq<byte>, p: nat, b: Block): (m: seq<byte>)
    ensures |m| == 2 + |b.bits|
  {
    [b.window, |b.bits|] + seq(|b.bits|, j requires 0 <= j < |b.bits| => OrByte(ByteOr0(under, p + 2 + j), b.bits[j]))
  }

  function Laid(under: seq<byte>, blocks: seq<Block>): (m: seq<byte>)
    ensures |m| == |EncodedAll(blocks)|
    decreases |blocks|
  {
    if blocks == [] then []
    else
      var last := |blocks| - 1;
      EncodedAllSnoc(blocks[..last], blocks[last]);
      assert blocks[..last] + [blocks[last]] == blocks;
      var front := Laid(under, blocks[..last]);
      front + LaidOne(under, |front|, blocks[last])
  }

  lemma {:induction false} LaidSnoc(under: seq<byte>, blocks: seq<Block>, b: Block)
    ensures Laid(under, blocks + [b]) == Laid(under, blocks) + LaidOne(under, |Laid(under, blocks)|, b)
  {
    assert (blocks + [b])[..|blocks|] == blocks;
  }

  /** Over zero bytes the blocks are written as they are. */
  lemma {:induction false} LaidOverZeros(under: seq<byte>, blocks: seq<Block>)
    requires forall k :: 0 <= k < |under| ==> under[k] == 0
    ensures Laid(under, blocks) == EncodedAll(blocks)
    decreases |blocks|
  {
    if blocks != [] {
      var last := |blocks| - 1;
      var init, b := blocks[..last], blocks[last];
      assert init + [b] == blocks;
      LaidSnoc(under, init, b);
      EncodedAllSnoc(init, b);
      LaidOverZeros(under, init);
      LaidOneOverZeros(under, |Laid(under, init)|, b);
    }
  }

  lemma LaidOneOverZeros(under: seq<byte>, p: nat, b: Block)
    requires forall k :: 0 <= k < |under| ==> under[k] == 0
    ensures LaidOne(under, p, b) == Encoded(b)
  {
    forall j | 0 <= j < |b.bits| ensures OrByte(ByteOr0(under, p + 2 + j), b.bits[j]) == b.bits[j] {
      ByteFits();
      ZeroOr(b.bits[j], 8);
    }
  }

  /** What packStructValue leaves for a list of types in `room` bytes that held `under`. */
  function PackOver(ts: seq<uint16>, room: int, under: seq<byte>): Result<seq<byte>> {
    var r := Fold(Slots(ts), Empty, room);
    if r.error.Some? then Err(r.error.value) else Ok(Laid(under, All(r.st)))
  }

  /** In a buffer of zeros that is what unpacking reads back; other buffers lend it their bits. */
  lemma PackOverZeros(ts: seq<uint16>, room: int, under: seq<byte>)
    requires forall k :: 0 <= k < |under| ==> under[k] == 0
    ensures PackOver(ts, room, under) == Pack(ts, room)
  {
    var r := Fold(Slots(ts), Empty, room);
    if r.error.None? {
      LaidOverZeros(under, All(r.st));
    }
  }

  /** The byte k bytes behind the start. */
  function Cell(st: State, under: seq<byte>, k: nat): byte {
    if k < |EncodedAll(All(st))| then Laid(under, All(st))[k] else ByteOr0(under, k)
  }

  /** Where the block being filled starts. */
  function CurrentAt(st: State): nat {
    |EncodedAll(st.done)|
  }

  lemma EncodedState(st: State)
    ensures EncodedAll(All(st)) == EncodedAll(st.done) + if st.cur.bits == [] then [] else Encoded(st.cur)
  {
    if st.cur.bits == [] {
      EmptyIsUnit(EncodedAll(st.done));
    } else {
      EncodedAllSnoc(st.done, st.cur);
    }
  }

  /** A byte at distance d from the start of block b, over u; in front of the block it is x. */
  function CellOf(u: byte, x: byte, b: Block, d: int): byte {
    if d < 0 then x
    else if b.bits == [] || d >= 2 + |b.bits| then u
    else if d == 0 then b.window
    else if d == 1 then |b.bits|
    else OrByte(u, b.bits[d - 2])
  }

  /** The bytes in terms of the block that is being filled. */
  lemma CellAt(st: State, under: seq<byte>, done: seq<byte>, e: nat, k: nat, d: int)
    requires done == Laid(under, st.done) && e == |done| && d == k - e
    ensures Cell(st, under, k) == CellOf(ByteOr0(under, k), ByteOr0(done, k), st.cur, d)
  {
    EncodedState(st);
    if st.cur.bits != [] && d < 2 + |st.cur.bits| {
      LaidSnoc(under, st.done, st.cur);
      JoinedAt(done, LaidOne(under, e, st.cur), k, d);
      if d >= 0 {
        LaidOneAt(under, e, st.cur, d, k);
      }
    }
  }

  lemma JoinedAt(a: seq<byte>, b: seq<byte>, k: nat, d: int)
    requires k < |a| + |b| && d == k - |a|
    ensures (a + b)[k] == if d < 0 then a[k] else b[d]
  {
  }

  lemma LaidOneAt(under: seq<byte>, e: nat, b: Block, j: nat, k: nat)
    requires k == e + j && j < 2 + |b.bits|
    ensures LaidOne(under, e, b)[j] ==
      if j == 0 then b.window else if j == 1 then |b.bits| else OrByte(ByteOr0(under, k), b.bits[j - 2])
  {
    if j >= 2 {
      var i := j - 2;
      assert k == e + 2 + i;
    }
  }

  /** The byte of a bitmap before and after its length has grown to n and its last byte has got one more bit. */
  lemma BitsStep(under: byte, bits: Bits, n: Length, bit: BitNumber, i: nat)
    requires i < n && |bits| <= n
    ensures OrByte(under, WithBit(bits, n, bit)[i]) ==
      var was := if i < |bits| then OrByte(under, bits[i]) else under;
      if i == n - 1 then Or(was, bit) else was
  {
    WithBitAt(bits, n, bit, i);
    ByteFits();
    OrZero(under, 8);
    OrSetBit(under, if i < |bits| then bits[i] else 0, bit, 8);
  }

  /** One type changes three bytes of the message: d is the distance from the start of its block. */
  function Changed(was: byte, d: int, x: Slot): byte {
    if d == 0 then x.window else if d == 1 then x.length else if d == 1 + x.length then Or(was, x.bit) else was
  }

  lemma BlockStep(u: byte, v: byte, b: Block, x: Slot, d: int)
    requires |b.bits| <= x.length && (b.bits == [] || b.window == x.window)
    ensures CellOf(u, v, Block(x.window, WithBit(b.bits, x.length, x.bit)), d) == Changed(CellOf(u, v, b, d), d, x)
  {
    if 2 <= d < 2 + x.length {
      BitsStep(u, b.bits, x.length, x.bit, d - 2);
    }
  }

  lemma CellStep(st: State, under: seq<byte>, x: Slot, e: nat, k: nat, d: int)
    requires InOrder(st, x) && e == CurrentAt(Jumped(st, x.window)) && d == k - e
    ensures Cell(Added(st, x), under, k) == Changed(Cell(st, under, k), d, x)
  {
    var jumped := Jumped(st, x.window);
    var done := Laid(under, jumped.done);
    CellAt(Added(st, x), under, done, e, k, d);
    CellOfJumped(st, under, x.window, done, e, k, d);
    BlockStep(ByteOr0(under, k), ByteOr0(done, k), jumped.cur, x, d);
  }

  /** Starting a new block writes nothing yet. */
  lemma CellOfJumped(st: State, under: seq<byte>, window: nat, done: seq<byte>, e: nat, k: nat, d: int)
    requires done == Laid(under, Jumped(st, window).done) && e == |done| && d == k - e
    ensures Cell(st, under, k) == CellOf(ByteOr0(under, k), ByteOr0(done, k), Jumped(st, window).cur, d)
  {
    if Jumped(st, window) == st {
      CellAt(st, under, done, e, k, d);
    }
  }

  /** What the message holds in front of the start, and behind it. */
  function Head(was: seq<byte>, start: nat): seq<byte> {
    if start <= |was| then was[..start] else was
  }

  function Tail(was: seq<byte>, start: nat): seq<byte> {
    if start <= |was| then was[start..] else []
  }

  function ShownAt(was: seq<byte>, start: nat, st: State, i: nat): byte
    requires i < |was|
  {
    if i < start then was[i] else Cell(st, Tail(was, start), i - start)
  }

  /** The first n bytes of the message in a state of the loop. */
  function ShownTo(was: seq<byte>, start: nat, st: State, n: nat): (m: seq<byte>)
    requires n <= |was|
    ensures |m| == n
    decreases n
  {
    if n == 0 then [] else ShownTo(was, start, st, n - 1) + [ShownAt(was, start, st, n - 1)]
  }

  function Shown(was: seq<byte>, start: nat, st: State): (m: seq<byte>)
    ensures |m| == |was|
  {
    ShownTo(was, start, st, |was|)
  }

  lemma {:induction false} ShownToAt(was: seq<byte>, start: nat, st: State, n: nat, i: nat)
    requires i < n <= |was|
    ensures ShownTo(was, start, st, n)[i] == ShownAt(was, start, st, i)
    decreases n
  {
    if i < n - 1 {
      ShownToAt(was, start, st, n - 1, i);
    }
  }

  lemma ShownIs(was: seq<byte>, start: nat, st: State, m: seq<byte>)
    requires |m| == |was| && forall i :: 0 <= i < |was| ==> ShownAt(was, start, st, i) == m[i]
    ensures Shown(was, start, st) == m
  {
    forall i | 0 <= i < |was| ensures Shown(was, start, st)[i] == m[i] {
      ShownToAt(was, start, st, |was|, i);
    }
  }

  lemma ShownAtFirst(was: seq<byte>, start: nat)
    ensures Shown(was, start, Empty) == was
  {
    ShownIs(was, start, Empty, was);
  }

  lemma ShownStep(was: seq<byte>, start: nat, off: nat, x: Slot, st: State)
    requires InOrder(st, x) && off == start + CurrentAt(Jumped(st, x.window))
    ensures Shown(was, start, Added(st, x)) == Overwritten(Shown(was, start, st), off, x)
  {
    var m := Shown(was, start, st);
    var r := Overwritten(m, off, x);
    forall i | 0 <= i < |was| ensures ShownAt(was, start, Added(st, x), i) == r[i] {
      ShownStepAt(was, start, off, x, st, i, i - off);
      ShownToAt(was, start, st, |was|, i);
    }
    ShownIs(was, start, Added(st, x), r);
  }

  lemma ShownStepAt(was: seq<byte>, start: nat, off: nat, x: Slot, st: State, i: nat, d: int)
    requires InOrder(st, x) && off == start + CurrentAt(Jumped(st, x.window)) && i < |was| && d == i - off
    ensures ShownAt(was, start, Added(st, x), i) == Changed(ShownAt(was, start, st, i), d, x)
  {
    if i >= start {
      var e: nat, k: nat := off - start, i - start;
      CellStep(st, Tail(was, start), x, e, k, d);
    }
  }

  function Overwritten(m: seq<byte>, off: nat, x: Slot): (r: seq<byte>)
    ensures |r| == |m|
  {
    seq(|m|, i requires 0 <= i < |m| => Changed(m[i], i - off, x))
  }

  method Overwrite(msg: array<byte>, off: nat, x: Slot)
    requires off + 2 + x.length <= msg.Length
    modifies msg
    ensures msg[..] == Overwritten(old(msg[..]), off, x)
  {
    msg[off] := x.window;
    msg[off + 1] := x.length;
    msg[off + 1 + x.length] := Or(msg[off + 1 + x.length], x.bit);
  }

  /** One turn in terms of the variables of the loop. */
  lemma TurnFits(st: State, x: Slot, room: int, size: int)
    requires InOrder(st, x) && size == CurrentAt(Jumped(st, x.window)) + 2 + x.length
    ensures Turn(st, x, room) == if size > room then Err(Overflow) else Ok(Added(st, x))
  {
    EncodedAllSnoc(Jumped(st, x.window).done, Added(st, x).cur);
  }

  lemma {:induction false} FoldNext(xs: seq<Slot>, j: nat, k: nat, st: State, room: int)
    requires j < |xs| && k == j + 1
    ensures Fold(xs[j..], st, room) ==
            var r := Turn(st, xs[j], room);
            if r.Err? then Folded(st, Some(r.error)) else Fold(xs[k..], r.value, room)
  {
    assert xs[j..][0] == xs[j] && xs[j..][1..] == xs[k..];
  }

  /** A new block starts behind the one before it. */
  lemma JumpedAt(st: State, window: nat)
    ensures CurrentAt(Jumped(st, window)) ==
      CurrentAt(st) + if window > st.cur.window && st.cur.bits != [] then |st.cur.bits| + 2 else 0
  {
    EncodedAllSnoc(st.done, st.cur);
  }

  /** The variables of the loop: where the block being filled starts, its window and its length. */
  predicate Tracks(st: State, start: nat, off: nat, lastwindow: nat, lastlength: nat) {
    lastwindow == st.cur.window && lastlength == |st.cur.bits| && off == start + CurrentAt(st)
  }

  method PackOne(x: Slot, msg: array<byte>, start: nat, off: nat, lastwindow: nat, lastlength: nat,
                 ghost was: seq<byte>, ghost st: State, ghost room: int)
    returns (at: nat, length: nat, error: Option<Error>, ghost next: State)
    requires msg[..] == Shown(was, start, st)
    requires Tracks(st, start, off, lastwindow, lastlength) && room == msg.Length - start
    modifies msg
    ensures Turn(st, x, room) == if error.Some? then Err(error.value) else Ok(next)
    ensures msg[..] == Shown(was, start, next)
    ensures if error.Some? then next == st else Tracks(next, start, at, x.window, length)
  {
    at, length, error, next := off, lastlength, None, st;
    JumpedAt(st, x.window);
    if x.window > lastwindow && length != 0 {
      at := at + length + 2;
      length := 0;
    }
    if x.window < lastwindow || x.length < length {
      error := Some(OutOfOrder);
      return;
    }
    TurnFits(st, x, room, at - start + 2 + x.length);
    if at + 2 + x.length > msg.Length {
      error := Some(Overflow);
      return;
    }
    ShownStep(was, start, at, x, st);
    Overwrite(msg, at, x);
    length, next := x.length, Added(st, x);
  }

  lemma {:induction false} SlotAt(ts: seq<uint16>, j: nat)
    requires j < |ts|
    ensures Slots(ts)[j] == SlotOf(ts[j])
    decreases j
  {
    if j > 0 {
      SlotAt(ts[1..], j - 1);
    }
  }

  method PackTypes(ts: seq<uint16>, msg: array<byte>, start: nat, ghost was: seq<byte>, ghost room: int)
    returns (off: nat, lastlength: nat, error: Option<Error>, ghost st: State)
    requires ts != [] && msg[..] == was && room == msg.Length - start
    modifies msg
    ensures Fold(Slots(ts), Empty, room) == Folded(st, error) && msg[..] == Shown(was, start, st)
    ensures error.None? ==> off + lastlength + 2 == start + |EncodedAll(All(st))|
  {
    off, lastlength, error, st := start, 0, None, Empty;
    var lastwindow: nat, j := 0, 0;
    ghost var xs := Slots(ts);
    ghost var goal := Fold(xs, st, room);
    ShownAtFirst(was, start);
    assert xs[0..] == xs;
    while j < |ts|
      invariant 0 <= j <= |ts| && error == None && (j > 0 ==> lastlength > 0)
      invariant Tracks(st, start, off, lastwindow, lastlength)
      invariant msg[..] == Shown(was, start, st)
      invariant Fold(xs[j..], st, room) == goal
    {
      var x, k := SlotOf(ts[j]), j + 1;
      SlotAt(ts, j);
      FoldNext(xs, j, k, st, room);
      off, lastlength, error, st := PackOne(x, msg, start, off, lastwindow, lastlength, was, st, room);
      if error.Some? {
        return;
      }
      lastwindow, j := x.window, k;
    }
    assert xs[j..] == [];
    EncodedState(st);
  }

  /** The offset and error that a caller gets, and the whole message. */
  datatype Outcome = Outcome(off: nat, error: Option<Error>, msg: seq<byte>)

  function OutcomeOf(r: Folded, was: seq<byte>, start: nat): Outcome {
    Outcome(if r.error.Some? then |was| else start + |EncodedAll(All(r.st))|, r.error, Shown(was, start, r.st))
  }

  function PackInto(ts: seq<uint16>, was: seq<byte>, start: nat): Outcome {
    OutcomeOf(Fold(Slots(ts), Empty, |was| - start), was, start)
  }

  method PackNsec(ts: seq<uint16>, msg: array<byte>, start: nat) returns (off: nat, error: Option<Error>)
    modifies msg
    ensures Outcome(off, error, msg[..]) == PackInto(ts, old(msg[..]), start)
  {
    ghost var was, room := msg[..], msg.Length - start;
    ghost var f := Fold(Slots(ts), Empty, room);
    if |ts| == 0 {
      ShownAtFirst(was, start);
      OutcomeIs(f, was, start, Empty, start, None, was);
      return start, None;
    }
    var lastlength;
    ghost var st;
    off, lastlength, error, st := PackTypes(ts, msg, start, was, room);
    off := if error.Some? then msg.Length else off + lastlength + 2;
    OutcomeIs(f, was, start, st, off, error, msg[..]);
  }

  lemma OutcomeIs(f: Folded, was: seq<byte>, start: nat, st: State, off: nat, error: Option<Error>, m: seq<byte>)
    requires f == Folded(st, error) && m == Shown(was, start, st)
    requires off == if error.Some? then |was| else start + |EncodedAll(All(st))|
    ensures Outcome(off, error, m) == OutcomeOf(f, was, start)
  {
  }

  /** The message in the end: what PackOver gives in its place and nothing else, when there is no error. */
  lemma MessageOf(ts: seq<uint16>, was: seq<byte>, start: nat, o: Outcome, r: Result<seq<byte>>)
    requires o == PackInto(ts, was, start) && r == PackOver(ts, |was| - start, Tail(was, start))
    ensures r.Err? ==> o.off == |was| && o.error == Some(r.error)
    ensures r.Ok? ==> o.off == start + |r.value| && o.error == None
    ensures r.Ok? && ts != [] ==> o.off <= |was| && o.msg == was[..start] + r.value + was[o.off..]
    ensures Head(o.msg, start) == Head(was, start)
  {
    var f := Fold(Slots(ts), Empty, |was| - start);
    MessageOfState(ts, was, start, |was| - start, f);
    if f.error.None? && ts != [] {
      ShownAround(was, start, o.off, f.st, r.value);
    }
  }

  lemma MessageOfState(ts: seq<uint16>, was: seq<byte>, start: nat, room: int, f: Folded)
    requires room == |was| - start && f == Fold(Slots(ts), Empty, room)
    ensures Head(Shown(was, start, f.st), start) == Head(was, start)
    ensures f.error.None? && ts != [] ==> start + |EncodedAll(All(f.st))| <= |was|
  {
    ShownBefore(was, start, f.st, Shown(was, start, f.st));
    FoldIsGood(Slots(ts), Empty, room);
  }

  lemma ShownBefore(was: seq<byte>, start: nat, st: State, m: seq<byte>)
    requires m == Shown(was, start, st)
    ensures Head(m, start) == Head(was, start)
  {
    forall i | 0 <= i < |was| && i < start ensures m[i] == was[i] {
      ShownToAt(was, start, st, |was|, i);
    }
    assert start <= |was| ==> m[..start] == was[..start];
    assert start > |was| ==> m == was;
  }

  lemma ShownAround(was: seq<byte>, start: nat, end: nat, st: State, b: seq<byte>)
    requires b == Laid(Tail(was, start), All(st)) && end == start + |b| <= |was|
    ensures Shown(was, start, st) == was[..start] + b + was[end..]
  {
    var r := was[..start] + b + was[end..];
    forall i | 0 <= i < |was| ensures ShownAt(was, start, st, i) == r[i] {
      if start <= i {
        ShownBehind(was, start, end, st, b, i, i - start);
      }
    }
    ShownIs(was, start, st, r);
  }

  lemma ShownBehind(was: seq<byte>, start: nat, end: nat, st: State, b: seq<byte>, i: nat, k: nat)
    requires b == Laid(Tail(was, start), All(st)) && end == start + |b| <= |was| && i == start + k < |was|
    ensures ShownAt(was, start, st, i) == if k < |b| then b[k] else was[i]
  {
  }

  // ----- Reading the message

  method AppendTypesOfByte(nsec: seq<nat>, base: nat, b: byte) returns (r: seq<nat>)
    ensures r == nsec + TypesOfByte(base, b, 0)
  {
    r := nsec;
    var k := 0;
    while k < 8
      invariant 0 <= k <= 8
      invariant r + TypesOfByte(base, b, k) == nsec + TypesOfByte(base, b, 0)
    {
      MoreOfByte(r, base, b, k);
      if Bit(b, 7 - k) {
        r := r + [base + k];
      }
      k := k + 1;
    }
  }

  lemma MoreOfByte(r: seq<nat>, base: nat, b: byte, k: nat)
    requires k < 8
    ensures r + TypesOfByte(base, b, k) ==
            (if Bit(b, 7 - k) then r + [base + k] else r) + TypesOfByte(base, b, k + 1)
  {
  }

  method AppendTypes(nsec: seq<nat>, b: Block) returns (r: seq<nat>)
    requires WellFormed(b)
    ensures r == nsec + TypesOf(b, 0)
  {
    r := nsec;
    var j := 0;
    while j < |b.bits|
      invariant 0 <= j <= |b.bits|
      invariant r + TypesOf(b, j) == nsec + TypesOf(b, 0)
    {
      MoreOfBlock(r, b, j);
      r := AppendTypesOfByte(r, Position(b, j, 0), b.bits[j]);
      j := j + 1;
    }
  }

  lemma MoreOfBlock(r: seq<nat>, b: Block, j: nat)
    requires j < |b.bits|
    ensures r + TypesOf(b, j) == r + TypesOfByte(Position(b, j, 0), b.bits[j], 0) + TypesOf(b, j + 1)
  {
  }

  /** The checks on the header of the block at off. */
  method ReadBlock(msg: seq<byte>, off: nat, lastwindow: int) returns (r: Result<Block>)
    requires off < |msg|
    ensures r == Front(msg[off..], lastwindow)
  {
    ghost var rest := msg[off..];
    if off + 2 > |msg| {
      return Err(Overflow);
    }
    var window: nat, length: nat := msg[off], msg[off + 1];
    assert rest[0] == window && rest[1] == length;
    if window <= lastwindow {
      return Err(OutOfOrder);
    }
    if length == 0 {
      return Err(EmptyBlock);
    }
    if length > 32 {
      return Err(TooLong);
    }
    if off + 2 + length > |msg| {
      return Err(Overflow);
    }
    assert rest[2..2 + length] == msg[off + 2..off + 2 + length];
    return Ok(Block(window, msg[off + 2..off + 2 + length]));
  }

  /** The rest of the record is the bitmap. */
  method UnpackNsec(msg: seq<byte>, start: nat) returns (nsec: seq<nat>, error: Option<Error>)
    requires start <= |msg|
    ensures match Unpack(msg[start..], -1)
      case Err(e) => error == Some(e)
      case Ok(ts) => error == None && nsec == ts
  {
    nsec := [];
    var off: nat, lastwindow: int := start, -1;
    ghost var rest := msg[start..];
    ghost var goal := Unpack(rest, -1);
    NothingYet(goal);
    while off < |msg|
      invariant start <= off <= |msg| && rest == msg[off..]
      invariant Behind(nsec, Unpack(rest, lastwindow)) == goal
    {
      var r := ReadBlock(msg, off, lastwindow);
      if r.Err? {
        return nsec, Some(r.error);
      }
      var b := r.value;
      ghost var size := 2 + |b.bits|;
      BlockBehind(nsec, rest, lastwindow, b, size);
      DropTwice(msg, off, size);
      nsec := AppendTypes(nsec, b);
      off, lastwindow := off + 2 + |b.bits|, b.window;
      rest := rest[size..];
    }
    return nsec, None;
  }

  lemma NothingYet(r: Result<seq<nat>>)
    ensures Behind([], r) == r
  {
    if r.Ok? {
      assert [] + r.value == r.value;
    }
  }

  lemma DropTwice<T>(s: seq<T>, p: nat, n: nat)
    requires p + n <= |s|
    ensures s[p..][n..] == s[p + n..]
  {
  }

  lemma BlockBehind(before: seq<nat>, msg: seq<byte>, last: int, b: Block, size: nat)
    requires msg != [] && Front(msg, last) == Ok(b) && size == 2 + |b.bits|
    ensures Behind(before, Unpack(msg, last)) == Behind(before + TypesOf(b, 0), Unpack(msg[size..], b.window))
  {
    var more := Unpack(msg[size..], b.window);
    if more.Ok? {
      Associative(before, TypesOf(b, 0), more.value);
    }
  }
}
