/** The byte budget of the UDP packets memberlist sends: broadcasts piggybacked up to a limit,
    framed, perhaps compressed, perhaps encrypted. */
module Packets {
  import opened Bytes
  import opened Wrappers
  import opened Compound
  import BroadcastQueue
  import BroadcastQueueProofs
  import opened TransmitLimitedQueues

  const CompoundHeaderOverhead := 2
  const CompoundOverhead := 2
  const UdpSendBuf := 1400
  const UserMsg: byte := 8
  const UserMsgOverhead := 1

  const VersionSize := 1
  const NonceSize := 12
  const TagSize := 16
  const BlockSize := 16

  type EncryptionVersion = v: int | 0 <= v <= 1

  /** The overhead reserved for encryption, by version. */
  function EncryptOverhead(vsn: EncryptionVersion): nat {
    if vsn == 0 then 45 else 29
  }

  function EncryptedLength(vsn: EncryptionVersion, inp: nat): nat {
    if vsn >= 1 then VersionSize + NonceSize + inp + TagSize
    else VersionSize + NonceSize + inp + (BlockSize - inp % BlockSize) + TagSize
  }

  /** The reserve covers every message, and for each version some message needs all of it. */
  lemma OverheadIsTight(vsn: EncryptionVersion, inp: nat)
    ensures EncryptedLength(vsn, inp) <= inp + EncryptOverhead(vsn)
    ensures EncryptedLength(vsn, 16 * inp) == 16 * inp + EncryptOverhead(vsn)
  {
    assert 16 * inp % BlockSize == 0;
  }

  // ----- Padding

  /** Pads buf behind its first `ignore` bytes to a multiple of the block size. */
  method Pkcs7Encode(buf: seq<byte>, ignore: nat, blockSize: nat) returns (padded: seq<byte>)
    requires ignore <= |buf| && 0 < blockSize < 0x100
    ensures buf <= padded && |padded| == |buf| + (blockSize - (|buf| - ignore) % blockSize)
    ensures padded[ignore..] == Padded(buf[ignore..], blockSize)
    ensures |padded| - ignore == blockSize * ((|buf| - ignore) / blockSize + 1)
    ensures Unpadded(padded[ignore..]) == Some(buf[ignore..])
  {
    var n := |buf| - ignore;
    var more := blockSize - n % blockSize;
    padded := buf;
    for i := 0 to more
      invariant |padded| == |buf| + i && padded[..|buf|] == buf
      invariant forall k :: |buf| <= k < |padded| ==> padded[k] == more
    {
      padded := padded + [more];
    }
    var body := padded[ignore..];
    assert body[|body| - 1] == more && body[..|body| - more] == buf[ignore..];
    assert body == Padded(buf[ignore..], blockSize);
  }

  /** As many bytes as are missing from the next block, each saying how many they are. */
  function Padded(msg: seq<byte>, blockSize: nat): seq<byte>
    requires 0 < blockSize < 0x100
  {
    var more := blockSize - |msg| % blockSize;
    msg + seq(more, _ => more)
  }

  /** Removing the padding. None stands for Go's panics on an empty buffer or an oversized pad byte. */
  function Unpadded(buf: seq<byte>): Option<seq<byte>> {
    if buf == [] || buf[|buf| - 1] > |buf| then None else Some(buf[..|buf| - buf[|buf| - 1]])
  }

  method Pkcs7Decode(buf: seq<byte>) returns (r: Option<seq<byte>>)
    ensures r == Unpadded(buf)
  {
    if |buf| == 0 {
      return None;
    }
    var n: int := |buf|;
    var last := buf[n - 1];
    n := n - last;
    if n < 0 {
      return None;
    }
    return Some(buf[..n]);
  }

  // ----- Sending

  /** What the rest of the program supplies: a compressor that may fail or grow its input, a
      cipher of which only the length is known, and a source of user messages. */
  datatype Env = Env(
    squeeze: seq<byte> -> Option<seq<byte>>,
    seal: seq<byte> -> seq<byte>,
    nonce: seq<byte>,
    user: Option<(int, int) -> seq<seq<byte>>>)

  ghost predicate Cipher(seal: seq<byte> -> seq<byte>) {
    forall plain :: |seal(plain)| == |plain| + TagSize
  }

  /** The contract of a delegate: what it returns costs no more than the limit it was given. */
  ghost predicate KeepsLimit(user: (int, int) -> seq<seq<byte>>) {
    forall overhead: nat, limit: int :: 0 <= limit ==> BroadcastQueue.Cost(user(overhead, limit), overhead) <= limit
  }

  ghost predicate Trusted(env: Env) {
    Cipher(env.seal) && |env.nonce| == NonceSize && (env.user.Some? ==> KeepsLimit(env.user.value))
  }

  lemma {:induction false} CostAppend(a: seq<seq<byte>>, b: seq<seq<byte>>, overhead: nat)
    ensures BroadcastQueue.Cost(a + b, overhead) == BroadcastQueue.Cost(a, overhead) + BroadcastQueue.Cost(b, overhead)
  {
    if a == [] {
      assert a + b == b;
    } else {
      CostAppend(a[1..], b, overhead);
      assert (a + b)[1..] == a[1..] + b;
    }
  }

  /** Framing costs two bytes, and two more for each message. */
  lemma {:induction false} MadeLength(msgs: seq<seq<byte>>)
    ensures |Made(msgs)| == CompoundHeaderOverhead + BroadcastQueue.Cost(msgs, CompoundOverhead)
  {
    if msgs != [] {
      MadeLength(msgs[1..]);
    }
  }

  method BytesUsed(msgs: seq<seq<byte>>, overhead: nat) returns (used: nat)
    ensures used == BroadcastQueue.Cost(msgs, overhead)
  {
    used := 0;
    for i := 0 to |msgs|
      invariant used == BroadcastQueue.Cost(msgs[..i], overhead)
    {
      CostAppend(msgs[..i], [msgs[i]], overhead);
      assert msgs[..i + 1] == msgs[..i] + [msgs[i]];
      used := used + |msgs[i]| + overhead;
    }
    assert msgs[..|msgs|] == msgs;
  }

  /** Each user message gets a type byte, which is what its higher overhead reserved. */
  method Framed(userMsgs: seq<seq<byte>>, overhead: nat) returns (framed: seq<seq<byte>>)
    ensures framed == Typed(userMsgs)
    ensures BroadcastQueue.Cost(framed, overhead) == BroadcastQueue.Cost(userMsgs, overhead + UserMsgOverhead)
  {
    framed := [];
    for i := 0 to |userMsgs|
      invariant |framed| == i && forall k :: 0 <= k < i ==> framed[k] == [UserMsg] + userMsgs[k]
      invariant BroadcastQueue.Cost(framed, overhead)
             == BroadcastQueue.Cost(userMsgs[..i], overhead + UserMsgOverhead)
    {
      CostAppend(framed, [[UserMsg] + userMsgs[i]], overhead);
      CostAppend(userMsgs[..i], [userMsgs[i]], overhead + UserMsgOverhead);
      assert userMsgs[..i + 1] == userMsgs[..i] + [userMsgs[i]];
      framed := framed + [[UserMsg] + userMsgs[i]];
    }
    assert userMsgs[..|userMsgs|] == userMsgs;
  }

  class Transport {
    const queue: TransmitLimitedQueue
    const protocolVersion: nat
    const encrypted: bool
    const compressed: bool

    constructor (queue: TransmitLimitedQueue, protocolVersion: nat, encrypted: bool, compressed: bool)
      ensures this.queue == queue && this.protocolVersion == protocolVersion
      ensures this.encrypted == encrypted && this.compressed == compressed
    {
      this.queue, this.protocolVersion := queue, protocolVersion;
      this.encrypted, this.compressed := encrypted, compressed;
    }

    function Version(): EncryptionVersion {
      if protocolVersion == 1 then 0 else 1
    }

    /** The bytes reserved for encryption in every packet. */
    function Reserve(): nat {
      if encrypted then EncryptOverhead(Version()) else 0
    }

    method GetBroadcasts(overhead: nat, limit: int, transmitLimit: int, env: Env) returns (toSend: seq<seq<byte>>)
      requires queue.Valid() && Trusted(env)
      modifies queue
      ensures queue.Valid()
      ensures toSend == [] || BroadcastQueue.Cost(toSend, overhead) <= limit
      ensures toSend == AllTaken(old(queue.bcQueue), overhead, limit, transmitLimit, env.user)
      ensures BroadcastQueue.Next(
        old(queue.View()), BroadcastQueue.GetBroadcasts(BroadcastQueue.Budget(overhead, limit, transmitLimit)),
        queue.View())
    {
      toSend := queue.GetBroadcasts(overhead, limit, transmitLimit);
      toSend := AddUserMessages(toSend, overhead, limit, env);
    }

    /** What the delegate adds in the bytes that are left. */
    method AddUserMessages(queued: seq<seq<byte>>, overhead: nat, limit: int, env: Env) returns (toSend: seq<seq<byte>>)
      requires Trusted(env) && (queued == [] || BroadcastQueue.Cost(queued, overhead) <= limit)
      ensures toSend == WithUser(queued, overhead, limit, env.user)
      ensures toSend == [] || BroadcastQueue.Cost(toSend, overhead) <= limit
    {
      toSend := queued;
      if env.user.Some? {
        var bytesUsed := BytesUsed(toSend, overhead);
        var avail := limit - bytesUsed;
        if avail > overhead + UserMsgOverhead {
          var framed := Framed((env.user.value)(overhead + UserMsgOverhead, avail), overhead);
          CostAppend(toSend, framed, overhead);
          toSend := toSend + framed;
        }
      }
    }

    method EncryptPayload(msg: seq<byte>, env: Env) returns (dst: seq<byte>)
      requires Trusted(env)
      ensures |dst| == EncryptedLength(Version(), |msg|)
      ensures dst == Encrypted(Version(), msg, env)
    {
      dst := [Version()] + env.nonce;
      var src := msg;
      if Version() == 0 {
        src := Pkcs7Encode(dst + msg, VersionSize + NonceSize, BlockSize);
        assert (dst + msg)[VersionSize + NonceSize..] == msg;
        src := src[VersionSize + NonceSize..];
      }
      dst := dst + (env.seal)(src);
    }

    /** The bytes handed to the socket. */
    method RawSendMsgUDP(msg: seq<byte>, env: Env) returns (packet: seq<byte>)
      requires Trusted(env)
      ensures |packet| <= |msg| + Reserve()
      ensures packet == OnWire(msg, env)
    {
      packet := msg;
      if compressed {
        var buf := (env.squeeze)(msg);
        if buf.Some? && |buf.value| < |msg| {
          packet := buf.value;
        }
      }
      if encrypted {
        OverheadIsTight(Version(), |packet|);
        packet := EncryptPayload(packet, env);
      }
    }

    function OnWire(msg: seq<byte>, env: Env): seq<byte> {
      var small := if compressed then Squeezed(msg, env) else msg;
      if encrypted then Encrypted(Version(), small, env) else small
    }

    /** Compression is used exactly when it is on, works and makes the message shorter. */
    lemma SqueezedWhenShorter(msg: seq<byte>, env: Env, small: seq<byte>)
      ensures compressed && (env.squeeze)(msg) == Some(small) && |small| < |msg| ==>
        OnWire(msg, env) == if encrypted then Encrypted(Version(), small, env) else small
      ensures !compressed || (env.squeeze)(msg) == None || ((env.squeeze)(msg) == Some(small) && |small| >= |msg|) ==>
        OnWire(msg, env) == if encrypted then Encrypted(Version(), msg, env) else msg
    {
    }

    /** A direct message with broadcasts in the space it leaves. The length field of the
        message itself is not part of the budget, so a compound can exceed 1400 bytes by two. */
    method SendMsg(msg: seq<byte>, transmitLimit: int, env: Env) returns (packet: seq<byte>, piggybacked: nat)
      requires queue.Valid() && Trusted(env)
      modifies queue
      ensures queue.Valid()
      ensures piggybacked > 0 ==> |packet| <= 1402
      ensures piggybacked == 0 ==> |packet| <= |msg| + Reserve()
      ensures var extra := AllTaken(old(queue.bcQueue), CompoundOverhead, Room(|msg|), transmitLimit, env.user);
        piggybacked == |extra| && packet == OnWire(if extra == [] then msg else Made([msg] + extra), env)
    {
      var bytesAvail: int := UdpSendBuf - |msg| - CompoundHeaderOverhead;
      if encrypted {
        bytesAvail := bytesAvail - EncryptOverhead(Version());
      }
      assert bytesAvail == Room(|msg|);
      var extra := GetBroadcasts(CompoundOverhead, bytesAvail, transmitLimit, env);
      piggybacked := |extra|;
      if |extra| == 0 {
        packet := RawSendMsgUDP(msg, env);
        return;
      }
      var compound := MakeCompoundMessage([msg] + extra);
      CostAppend([msg], extra, CompoundOverhead);
      MadeLength([msg] + extra);
      packet := RawSendMsgUDP(compound, env);
    }

    /** The bytes left for broadcasts besides a message of n bytes. */
    function Room(n: nat): int {
      UdpSendBuf - n - CompoundHeaderOverhead - Reserve()
    }

    /** What a gossip round takes from the queue in this state. */
    function Taken(q: BroadcastQueue.Queue, transmitLimit: int, env: Env): seq<seq<byte>> {
      AllTaken(q.items, CompoundOverhead, Room(0), transmitLimit, env.user)
    }

    /** A queue in this state loses what a gossip packet takes. */
    ghost predicate GivesUp(q: BroadcastQueue.Queue, q': BroadcastQueue.Queue, transmitLimit: int) {
      BroadcastQueue.Next(
        q, BroadcastQueue.GetBroadcasts(BroadcastQueue.Budget(CompoundOverhead, Room(0), transmitLimit)), q')
    }

    /** The packet for one node, if there is anything to send. */
    method GossipTo(transmitLimit: int, env: Env) returns (packet: Option<seq<byte>>)
      requires queue.Valid() && Trusted(env)
      modifies queue
      ensures queue.Valid() && GivesUp(old(queue.View()), queue.View(), transmitLimit)
      ensures var msgs := Taken(old(queue.View()), transmitLimit, env);
        packet == if msgs == [] then None else Some(OnWire(Made(msgs), env))
      ensures packet.Some? ==> |packet.value| <= 1400
    {
      var bytesAvail := UdpSendBuf - CompoundHeaderOverhead;
      if encrypted {
        bytesAvail := bytesAvail - EncryptOverhead(Version());
      }
      assert bytesAvail == Room(0);
      var msgs := GetBroadcasts(CompoundOverhead, bytesAvail, transmitLimit, env);
      if |msgs| == 0 {
        return None;
      }
      var compound := MakeCompoundMessage(msgs);
      MadeLength(msgs);
      var p := RawSendMsgUDP(compound, env);
      packet := Some(p);
    }

    /** The packets hold what the queue gave up in its states one after the other, which is something each time. */
    ghost predicate Carries(packets: seq<seq<byte>>, queues: seq<BroadcastQueue.Queue>, transmitLimit: int, env: Env) {
      && |queues| == |packets| + 1
      && forall i :: 0 <= i < |packets| ==> CarriesOne(packets[i], queues[i], queues[i + 1], transmitLimit, env)
    }

    ghost predicate CarriesOne(packet: seq<byte>, q: BroadcastQueue.Queue, q': BroadcastQueue.Queue,
                               transmitLimit: int, env: Env)
    {
      && Taken(q, transmitLimit, env) != [] && packet == OnWire(Made(Taken(q, transmitLimit, env)), env)
      && GivesUp(q, q', transmitLimit)
    }

    lemma {:induction false} CarriesMore(packets: seq<seq<byte>>, queues: seq<BroadcastQueue.Queue>, packet: seq<byte>,
                      q: BroadcastQueue.Queue, transmitLimit: int, env: Env)
      requires Carries(packets, queues, transmitLimit, env)
      requires CarriesOne(packet, queues[|packets|], q, transmitLimit, env)
      ensures Carries(packets + [packet], queues + [q], transmitLimit, env)
    {
      var ps, qs := packets + [packet], queues + [q];
      forall i | 0 <= i < |ps| ensures CarriesOne(ps[i], qs[i], qs[i + 1], transmitLimit, env) {
        assert qs[i] == queues[i];
        if i < |packets| {
          assert ps[i] == packets[i] && qs[i + 1] == queues[i + 1];
        }
      }
    }

    /** One gossip round to the given number of random nodes, at most one packet each. It ends early only when there
        is nothing to send. */
    method Gossip(nodes: nat, transmitLimit: int, env: Env)
      returns (packets: seq<seq<byte>>, ghost queues: seq<BroadcastQueue.Queue>)
      requires queue.Valid() && Trusted(env)
      modifies queue
      ensures queue.Valid()
      ensures |packets| <= nodes && forall p :: p in packets ==> |p| <= 1400
      ensures Carries(packets, queues, transmitLimit, env) && queues[0] == old(queue.View())
      ensures |packets| < nodes ==> Taken(queues[|packets|], transmitLimit, env) == []
    {
      packets, queues := [], [queue.View()];
      for i := 0 to nodes
        invariant queue.Valid()
        invariant |packets| == i && forall p :: p in packets ==> |p| <= 1400
        invariant Carries(packets, queues, transmitLimit, env)
        invariant queues[i] == queue.View() && queues[0] == old(queue.View())
      {
        var packet := GossipTo(transmitLimit, env);
        if packet.None? {
          return;
        }
        CarriesMore(packets, queues, packet.value, queue.View(), transmitLimit, env);
        queues := queues + [queue.View()];
        packets := packets + [packet.value];
      }
    }
  }

  // ----- What is sent

  /** The messages that one call takes from the queue. */
  function FromQueue(items: seq<BroadcastQueue.Limited>, overhead: nat, limit: int, transmitLimit: int): seq<seq<byte>>
  {
    BroadcastQueue.Messages(BroadcastQueue.Selected(items, BroadcastQueue.Budget(overhead, limit, transmitLimit)))
  }

  /** The delegate's messages, each behind a type byte. */
  function Typed(userMsgs: seq<seq<byte>>): seq<seq<byte>> {
    seq(|userMsgs|, i requires 0 <= i < |userMsgs| => [UserMsg] + userMsgs[i])
  }

  /** The queue's messages and behind them, when there is room left, those of a delegate. */
  function AllTaken(items: seq<BroadcastQueue.Limited>, overhead: nat, limit: int, transmitLimit: int,
                    user: Option<(int, int) -> seq<seq<byte>>>): seq<seq<byte>>
  {
    WithUser(FromQueue(items, overhead, limit, transmitLimit), overhead, limit, user)
  }

  function WithUser(queued: seq<seq<byte>>, overhead: nat, limit: int,
                    user: Option<(int, int) -> seq<seq<byte>>>): seq<seq<byte>>
  {
    var avail := limit - BroadcastQueue.Cost(queued, overhead);
    if user.Some? && avail > overhead + UserMsgOverhead then
      queued + Typed((user.value)(overhead + UserMsgOverhead, avail))
    else queued
  }

  /** What the queue gives comes first; a delegate is asked for messages that cost one byte more each, within what is
      left, and each of its messages follows behind a type byte of 8. */
  lemma {:induction false} UserMessagesFollow(items: seq<BroadcastQueue.Limited>, overhead: nat, limit: int,
      transmitLimit: int,
                           user: (int, int) -> seq<seq<byte>>, i: nat)
    ensures var queued := FromQueue(items, overhead, limit, transmitLimit);
      var left, all := limit - BroadcastQueue.Cost(queued, overhead),
                       AllTaken(items, overhead, limit, transmitLimit, Some(user));
      && AllTaken(items, overhead, limit, transmitLimit, None) == queued
      && (left <= overhead + 1 ==> all == queued)
      && (left > overhead + 1 ==>
            && queued <= all && |all| == |queued| + |user(overhead + 1, left)|
            && (i < |user(overhead + 1, left)| ==> all[|queued| + i] == [8] + user(overhead + 1, left)[i]))
  {
  }

  /** The compressed message, if compression works and makes it shorter. */
  function Squeezed(msg: seq<byte>, env: Env): seq<byte> {
    var buf := (env.squeeze)(msg);
    if buf.Some? && |buf.value| < |msg| then buf.value else msg
  }

  /** Version byte, nonce and the sealed message, which version 0 pads to whole blocks. */
  function Encrypted(vsn: EncryptionVersion, msg: seq<byte>, env: Env): seq<byte> {
    [vsn] + env.nonce + (env.seal)(if vsn == 0 then Padded(msg, BlockSize) else msg)
  }

  /** The receiver of a packet gets the message back, if it can open what was sealed and unsqueeze what was squeezed. */
  lemma PacketIsReadBack(vsn: EncryptionVersion, msg: seq<byte>, env: Env, open: seq<byte> -> seq<byte>)
    requires |env.nonce| == NonceSize && forall plain :: open((env.seal)(plain)) == plain
    ensures var packet := Encrypted(vsn, msg, env);
      && packet[0] == vsn && packet[1..13] == env.nonce
      && var plain := open(packet[13..]);
         if vsn == 0 then Unpadded(plain) == Some(msg) else plain == msg
  {
    var sealed := (env.seal)(if vsn == 0 then Padded(msg, BlockSize) else msg);
    assert Encrypted(vsn, msg, env)[13..] == sealed;
    PaddingIsRemoved(msg, BlockSize);
  }

  lemma PaddingIsRemoved(msg: seq<byte>, blockSize: nat)
    requires 0 < blockSize < 0x100
    ensures Unpadded(Padded(msg, blockSize)) == Some(msg)
  {
    var padded, more := Padded(msg, blockSize), blockSize - |msg| % blockSize;
    assert padded[|padded| - 1] == more && padded[..|padded| - more] == msg;
  }

  // ----- Budget against framing

  lemma {:induction false} CostBound(msgs: seq<seq<byte>>)
    requires forall m :: m in msgs ==> 9 <= |m|
    ensures |msgs| * 11 <= BroadcastQueue.Cost(msgs, CompoundOverhead)
  {
    if msgs != [] {
      assert forall m :: m in msgs[1..] ==> m in msgs;
      CostBound(msgs[1..]);
    }
  }

  lemma {:induction false} CostOfEach(msgs: seq<seq<byte>>, i: nat)
    requires i < |msgs|
    ensures |msgs[i]| <= BroadcastQueue.Cost(msgs, CompoundOverhead)
  {
    if i != 0 {
      CostOfEach(msgs[1..], i - 1);
    }
  }

  /** The budget keeps a packet within what the framing can count: every gossip compound whose
      messages have at least nine bytes is decoded into exactly those messages. */
  lemma GossipDecodes(msgs: seq<seq<byte>>, spare: seq<byte>)
    requires BroadcastQueue.Cost(msgs, CompoundOverhead) <= UdpSendBuf - CompoundHeaderOverhead
    requires forall m :: m in msgs ==> 9 <= |m|
    ensures Decode(Made(msgs)[1..], spare) == Parts(0, msgs)
  {
    CostBound(msgs);
    forall i | 0 <= i < |msgs| ensures |msgs[i]| < 0x1_0000 {
      CostOfEach(msgs, i);
    }
    RoundTrip(msgs, spare);
  }

  /** Nine is exact: 128 messages of eight bytes fit the budget but are garbled by the framing. */
  lemma EightBytesAreTooFew(m: seq<byte>, spare: seq<byte>)
    requires |m| == 8 && m[0] != 0
    ensures var msgs := seq(128, _ => m);
      && BroadcastQueue.Cost(msgs, CompoundOverhead) <= UdpSendBuf - CompoundHeaderOverhead
      && Decode(Made(msgs)[1..], spare) != Parts(0, msgs)
  {
    var msgs := seq(128, _ => m);
    CostOfEights(msgs);
    OverfullIsGarbled(msgs, spare);
  }

  lemma {:induction false} CostOfEights(msgs: seq<seq<byte>>)
    requires forall i :: 0 <= i < |msgs| ==> |msgs[i]| == 8
    ensures BroadcastQueue.Cost(msgs, CompoundOverhead) == |msgs| * 10
  {
    if msgs != [] {
      CostOfEights(msgs[1..]);
    }
  }

  /** The bound on a piggybacked packet is reached: with any message that leaves room, once a single broadcast that
      fills this room has been queued, the compound that SendMsg makes has two bytes too many. */
  lemma PiggybackBoundIsReached(msg: seq<byte>, node: Option<string>, b: seq<byte>, q: BroadcastQueue.Queue,
                                transmitLimit: int)
    requires |msg| + 4 + |b| == 1400
    requires BroadcastQueue.Next(BroadcastQueue.Empty, BroadcastQueue.QueueBroadcast(node, b), q)
    ensures var extra := AllTaken(q.items, CompoundOverhead, UdpSendBuf - |msg| - CompoundHeaderOverhead,
                                  transmitLimit, None);
      extra != [] && |Made([msg] + extra)| == 1402
  {
    var x := BroadcastQueue.Limited(0, BroadcastQueue.Broadcast(0, node, b));
    assert q.items == [x];
    OnlyChoice(x, BroadcastQueue.Budget(CompoundOverhead, CompoundOverhead + |b|, transmitLimit));
    assert FromQueue(q.items, CompoundOverhead, CompoundOverhead + |b|, transmitLimit) == [b];
    MadeLength([msg] + [b]);
    CostAppend([msg], [b], CompoundOverhead);
    assert BroadcastQueue.Cost([b], CompoundOverhead) == CompoundOverhead + |b|;
  }

  lemma OnlyChoice(x: BroadcastQueue.Limited, c: BroadcastQueue.Budget)
    requires c.overhead + |x.b.msg| <= c.limit
    ensures BroadcastQueue.Messages(BroadcastQueue.Selected([x], c)) == [x.b.msg]
  {
    assert BroadcastQueue.Chosen([x], 0, c.overhead + |x.b.msg|, c) == [];
  }

  /** Every gossip compound is decoded into exactly the messages that the queue gave up for it, as long as each of
      those queued has at least nine bytes. */
  lemma {:induction false} GossipReachesTheReceiver(items: seq<BroadcastQueue.Limited>, limit: int,
      transmitLimit: int, spare: seq<byte>)
    requires limit <= UdpSendBuf - CompoundHeaderOverhead
    requires forall x :: x in items ==> 9 <= |x.b.msg|
    ensures var msgs := FromQueue(items, CompoundOverhead, limit, transmitLimit);
      Decode(Made(msgs)[1..], spare) == Parts(0, msgs)
  {
    var c := BroadcastQueue.Budget(CompoundOverhead, limit, transmitLimit);
    var chosen := BroadcastQueue.Selected(items, c);
    BroadcastQueueProofs.RoundFitsTheLimit(items, |items|, 0, c);
    BroadcastQueueProofs.ChosenAreQueued(items, |items|, 0, c);
    assert items[..|items|] == items;
    var msgs := BroadcastQueue.Messages(chosen);
    forall m | m in msgs ensures 9 <= |m| {
      var i :| 0 <= i < |msgs| && msgs[i] == m;
      assert chosen[i] in chosen;
    }
    GossipDecodes(msgs, spare);
  }
}
