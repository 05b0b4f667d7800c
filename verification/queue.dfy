/** memberlist's transmit-limited broadcast queue as a value: what one call does to it,
    and what holds after any run of calls. */
module BroadcastQueue {
  import opened Bytes
  import opened Wrappers

  /** A broadcast is known by the number of the call that queued it, as the source knows it by
      its pointer. Only broadcasts about a member node invalidate each other. */
  datatype Broadcast = Broadcast(id: nat, node: Option<string>, msg: seq<byte>) {
    predicate Invalidates(other: Broadcast) {
      node.Some? && other.node == node
    }
  }

  datatype Limited = Limited(transmits: nat, b: Broadcast)

  /** The queue together with its history: ids Finished was called on in that order, the number of
      broadcasts ever queued, how often each was sent, and the largest transmit limit applied so far. */
  datatype Queue = Queue(items: seq<Limited>, finished: seq<nat>, count: nat, sent: map<nat, nat>, peak: nat)

  const Empty := Queue([], [], 0, map[], 0)

  function Sent(q: Queue, id: nat): nat {
    if id in q.sent then q.sent[id] else 0
  }

  function Max(a: int, b: int): int {
    if a < b then b else a
  }

  function Ids(items: seq<Limited>): (ids: seq<nat>)
    ensures |ids| == |items|
    ensures forall i :: 0 <= i < |items| ==> ids[i] == items[i].b.id
  {
    if items == [] then [] else [items[0].b.id] + Ids(items[1..])
  }

  function Count(ids: seq<nat>, id: nat): nat {
    if ids == [] then 0 else (if ids[0] == id then 1 else 0) + Count(ids[1..], id)
  }

  /** How many queued elements have this id. */
  function Held(items: seq<Limited>, id: nat): nat {
    if items == [] then 0 else (if items[0].b.id == id then 1 else 0) + Held(items[1..], id)
  }

  // ----- Queueing

  /** The elements a new broadcast leaves in place. */
  function Kept(items: seq<Limited>, b: Broadcast): seq<Limited> {
    if items == [] then []
    else (if b.Invalidates(items[0].b) then [] else [items[0]]) + Kept(items[1..], b)
  }

  function Dropped(items: seq<Limited>, b: Broadcast): seq<Limited> {
    if items == [] then []
    else (if b.Invalidates(items[0].b) then [items[0]] else []) + Dropped(items[1..], b)
  }

  /** What the removal loop leaves: after a removal it steps over the element that moved into the gap. */
  function Purged(items: seq<Limited>, b: Broadcast): seq<Limited> {
    if items == [] then []
    else if !b.Invalidates(items[0].b) then [items[0]] + Purged(items[1..], b)
    else if |items| == 1 then []
    else [items[1]] + Purged(items[2..], b)
  }

  function PurgedIds(items: seq<Limited>, b: Broadcast): seq<nat> {
    if items == [] then []
    else if !b.Invalidates(items[0].b) then PurgedIds(items[1..], b)
    else if |items| == 1 then [items[0].b.id]
    else [items[0].b.id] + PurgedIds(items[2..], b)
  }

  predicate NoAdjacentPair(items: seq<Limited>, b: Broadcast) {
    |items| < 2
    || (!(b.Invalidates(items[0].b) && b.Invalidates(items[1].b)) && NoAdjacentPair(items[1..], b))
  }

  lemma {:induction false} KeptAreNotInvalidated(items: seq<Limited>, b: Broadcast)
    ensures forall x :: x in Kept(items, b) ==> x in items && !b.Invalidates(x.b)
  {
    if items != [] {
      KeptAreNotInvalidated(items[1..], b);
    }
  }

  lemma {:induction false} FirstStays(items: seq<Limited>, b: Broadcast)
    requires items != [] && !b.Invalidates(items[0].b)
    ensures Purged(items, b) == [items[0]] + Purged(items[1..], b)
    ensures Kept(items, b) == [items[0]] + Kept(items[1..], b)
    ensures PurgedIds(items, b) == PurgedIds(items[1..], b) && Dropped(items, b) == Dropped(items[1..], b)
  {
  }

  lemma {:induction false} SecondIsSkipped(items: seq<Limited>, b: Broadcast)
    requires |items| >= 2 && b.Invalidates(items[0].b)
    ensures Purged(items, b) == [items[1]] + Purged(items[2..], b)
    ensures PurgedIds(items, b) == [items[0].b.id] + PurgedIds(items[2..], b)
    ensures !b.Invalidates(items[1].b) ==>
      && Kept(items, b) == [items[1]] + Kept(items[2..], b)
      && Dropped(items, b) == [items[0]] + Dropped(items[2..], b)
      && NoAdjacentPair(items, b) == NoAdjacentPair(items[2..], b)
  {
    assert items[1..][1..] == items[2..];
  }

  lemma SameBehind<T>(x: T, a: seq<T>, b: seq<T>)
    ensures [x] + a == [x] + b <==> a == b
  {
    assert ([x] + a)[1..] == a && ([x] + b)[1..] == b;
  }

  /** The removal loop removes every invalidated broadcast exactly when no two of them are neighbours. */
  lemma {:induction false} PurgeRemovesAllIff(items: seq<Limited>, b: Broadcast)
    ensures Purged(items, b) == Kept(items, b) <==> NoAdjacentPair(items, b)
    ensures NoAdjacentPair(items, b) ==> PurgedIds(items, b) == Ids(Dropped(items, b))
    decreases |items|
  {
    if items != [] && !b.Invalidates(items[0].b) {
      PurgeRemovesAllIff(items[1..], b);
      FirstStays(items, b);
      SameBehind(items[0], Purged(items[1..], b), Kept(items[1..], b));
    } else if |items| == 1 {
      assert Kept(items[1..], b) == [] && Dropped(items[1..], b) == [];
      assert Dropped(items, b) == [items[0]];
    } else if items != [] {
      PurgeRemovesAllIff(items[2..], b);
      SecondIsSkipped(items, b);
      if b.Invalidates(items[1].b) {
        KeptAreNotInvalidated(items, b);
        assert Purged(items, b)[0] == items[1];
      } else {
        SameBehind(items[1], Purged(items[2..], b), Kept(items[2..], b));
        IdsBehind(items[0], Dropped(items[2..], b));
      }
    }
  }

  lemma {:induction false} IdsBehind(x: Limited, items: seq<Limited>)
    ensures Ids([x] + items) == [x.b.id] + Ids(items)
  {
  }

  // ----- Sending

  function Cost(messages: seq<seq<byte>>, overhead: nat): nat {
    if messages == [] then 0 else overhead + |messages[0]| + Cost(messages[1..], overhead)
  }

  function Messages(items: seq<Limited>): (m: seq<seq<byte>>)
    ensures |m| == |items|
    ensures forall i :: 0 <= i < |items| ==> m[i] == items[i].b.msg
  {
    if items == [] then [] else [items[0].b.msg] + Messages(items[1..])
  }

  /** The bytes that may still be used. */
  datatype Budget = Budget(overhead: nat, limit: int, transmitLimit: int)

  /** One sending round over the first n elements, from the back of the queue (fewest transmits)
      to the front, taking whatever still fits: the elements sent. */
  function Chosen(items: seq<Limited>, n: nat, used: nat, c: Budget): seq<Limited>
    requires n <= |items|
  {
    if n == 0 then []
    else
      var x := items[n - 1];
      if used + c.overhead + |x.b.msg| > c.limit then Chosen(items, n - 1, used, c)
      else [x] + Chosen(items, n - 1, used + c.overhead + |x.b.msg|, c)
  }

  function Selected(items: seq<Limited>, c: Budget): seq<Limited> {
    Chosen(items, |items|, 0, c)
  }

  predicate Done(x: Limited, c: Budget) {
    x.transmits + 1 >= c.transmitLimit
  }

  /** An element that was just sent goes back into the queue unless it is done. */
  function Bumped(x: Limited, c: Budget): seq<Limited> {
    if Done(x, c) then [] else [x.(transmits := x.transmits + 1)]
  }

  function Retired(chosen: seq<Limited>, c: Budget): seq<Limited> {
    if chosen == [] then []
    else (if Done(chosen[0], c) then [chosen[0]] else []) + Retired(chosen[1..], c)
  }

  /** What the round leaves of the first n elements. */
  function Remaining(items: seq<Limited>, n: nat, used: nat, c: Budget): seq<Limited>
    requires n <= |items|
  {
    if n == 0 then []
    else
      var x := items[n - 1];
      if used + c.overhead + |x.b.msg| > c.limit then
        [x] + Remaining(items, n - 1, used, c)
      else
        Bumped(x, c) + Remaining(items, n - 1, used + c.overhead + |x.b.msg|, c)
  }

  function Left(items: seq<Limited>, c: Budget): seq<Limited> {
    Remaining(items, |items|, 0, c)
  }

  // ----- Invariant

  ghost predicate Sorted(items: seq<Limited>) {
    forall i, j :: 0 <= i < j < |items| ==> items[i].transmits >= items[j].transmits
  }

  ghost predicate OnePerNode(items: seq<Limited>) {
    forall i, j :: 0 <= i < j < |items| ==> !items[i].b.Invalidates(items[j].b)
  }

  /** Every broadcast ever queued is queued once or finished once, and never both. */
  ghost predicate Accounted(q: Queue) {
    forall id: nat :: Held(q.items, id) + Count(q.finished, id) == if id < q.count then 1 else 0
  }

  ghost predicate TransmitsCounted(q: Queue) {
    && (forall x :: x in q.items ==> x.transmits == Sent(q, x.b.id) && (x.transmits == 0 || x.transmits < q.peak))
    && (forall id :: id in q.sent ==> id < q.count && q.sent[id] <= Max(1, q.peak))
  }

  ghost predicate Inv(q: Queue) {
    Sorted(q.items) && OnePerNode(q.items) && Accounted(q) && TransmitsCounted(q)
  }

  // ----- Steps

  datatype Call =
    | QueueBroadcast(node: Option<string>, msg: seq<byte>)
    | GetBroadcasts(c: Budget)
    | Prune(maxRetain: nat)
    | Reset

  function Bump(sent: map<nat, nat>, id: nat): map<nat, nat> {
    sent[id := (if id in sent then sent[id] else 0) + 1]
  }

  function BumpAll(sent: map<nat, nat>, chosen: seq<Limited>): map<nat, nat>
    decreases |chosen|
  {
    if chosen == [] then sent else BumpAll(Bump(sent, chosen[0].b.id), chosen[1..])
  }

  /** What one call may do. Only the order that sorting gives to equal transmit counts is left open. */
  ghost predicate Next(q: Queue, call: Call, q': Queue) {
    match call
    case QueueBroadcast(node, msg) =>
      var b := Broadcast(q.count, node, msg);
      q' == q.(items := Purged(q.items, b) + [Limited(0, b)],
               finished := q.finished + PurgedIds(q.items, b),
               count := q.count + 1)
    case GetBroadcasts(c) =>
      if q.items == [] then q' == q
      else
        var chosen := Selected(q.items, c);
        && q' == q.(items := q'.items,
                    finished := q.finished + Ids(Retired(chosen, c)),
                    sent := BumpAll(q.sent, chosen),
                    peak := Max(q.peak, c.transmitLimit))
        && if chosen == [] then q'.items == q.items
           else multiset(q'.items) == multiset(Left(q.items, c)) && Sorted(q'.items)
    case Prune(maxRetain) =>
      if |q.items| < maxRetain then q' == q
      else
        var excess := |q.items| - maxRetain;
        q' == q.(items := q.items[excess..], finished := q.finished + Ids(q.items[..excess]))
    case Reset =>
      q' == q.(items := [], finished := q.finished + Ids(q.items))
  }

  ghost predicate Run(states: seq<Queue>, calls: seq<Call>) {
    && |states| == |calls| + 1
    && states[0] == Empty
    && forall i :: 0 <= i < |calls| ==> Next(states[i], calls[i], states[i + 1])
  }
}
