/** memberlist's TransmitLimitedQueue: its methods refine the calls of the queue's value. */
module TransmitLimitedQueues {
  import opened Bytes
  import opened Sequences
  import opened Wrappers
  import opened BroadcastQueue
  import opened BroadcastQueueProofs

  class TransmitLimitedQueue {
    var bcQueue: seq<Limited>
    var count: nat  // stands for the identity of the broadcasts
    ghost var finished: seq<nat>
    ghost var sent: map<nat, nat>
    ghost var peak: nat

    ghost function View(): Queue
      reads this
    {
      Queue(bcQueue, finished, count, sent, peak)
    }

    ghost predicate Valid()
      reads this
    {
      Inv(View())
    }

    constructor ()
      ensures Valid() && View() == Empty
    {
      bcQueue, count := [], 0;
      finished, sent, peak := [], map[], 0;
      new;
      EmptyInv();
    }

    method QueueBroadcast(node: Option<string>, msg: seq<byte>)
      requires Valid()
      modifies this
      ensures Valid()
      ensures Next(old(View()), Call.QueueBroadcast(node, msg), View())
      ensures var b := Broadcast(old(count), node, msg);
              bcQueue == Kept(old(bcQueue), b) + [Limited(0, b)]
    {
      var b := Broadcast(count, node, msg);
      Invalidate(b);
      bcQueue := bcQueue + [Limited(0, b)];
      count := count + 1;
      QueueBroadcastKeepsInv(old(View()), node, msg, View());
    }

    /** The removal loop of QueueBroadcast, which skips the broadcast that is shifted into a freed slot. */
    method Invalidate(b: Broadcast)
      modifies `bcQueue, `finished
      ensures bcQueue == Purged(old(bcQueue), b)
      ensures finished == old(finished) + PurgedIds(old(bcQueue), b)
    {
      var n := |bcQueue|;
      var i := 0;
      while i < n
        invariant 0 <= i <= n + 1 && n == |bcQueue|
        invariant i <= n ==> bcQueue[..i] + Purged(bcQueue[i..], b) == Purged(old(bcQueue), b)
        invariant i <= n ==> finished + PurgedIds(bcQueue[i..], b) == old(finished) + PurgedIds(old(bcQueue), b)
        invariant i > n ==> bcQueue == Purged(old(bcQueue), b)
        invariant i > n ==> finished == old(finished) + PurgedIds(old(bcQueue), b)
      {
        if b.Invalidates(bcQueue[i].b) {
          PurgeRemoves(bcQueue, i, b);
          finished := finished + [bcQueue[i].b.id];
          bcQueue := bcQueue[..i] + bcQueue[i + 1..];
          n := n - 1;
        } else {
          PurgeKeeps(bcQueue, i, b);
        }
        i := i + 1;
      }
      if i == n {
        assert bcQueue[i..] == [];
      }
    }

    /** The retransmit limit is whatever the caller computed from the size of the cluster. */
    method GetBroadcasts(overhead: nat, limit: int, transmitLimit: int) returns (toSend: seq<seq<byte>>)
      requires Valid()
      modifies this
      ensures Valid()
      ensures Next(old(View()), Call.GetBroadcasts(Budget(overhead, limit, transmitLimit)), View())
      ensures toSend == Messages(Selected(old(bcQueue), Budget(overhead, limit, transmitLimit)))
      ensures toSend == [] || Cost(toSend, overhead) <= limit
    {
      if |bcQueue| == 0 {
        return [];
      }
      toSend := Round(overhead, limit, transmitLimit);
      RoundIsNext(old(View()), Budget(overhead, limit, transmitLimit), toSend, View());
    }

    method Round(overhead: nat, limit: int, transmitLimit: int) returns (toSend: seq<seq<byte>>)
      modifies `bcQueue, `finished, `sent, `peak
      ensures RoundDone(old(bcQueue), Log([], old(finished), old(sent)), Budget(overhead, limit, transmitLimit),
                        bcQueue, Log(toSend, finished, sent))
      ensures peak == Max(old(peak), transmitLimit)
      ensures if toSend == [] then bcQueue == old(bcQueue) else Sorted(bcQueue)
    {
      peak := Max(peak, transmitLimit);
      toSend := SendRound(overhead, limit, transmitLimit);
      if |toSend| > 0 {
        bcQueue := SortDescending(bcQueue);
      }
    }

    /** The sending loop of GetBroadcasts. */
    method SendRound(overhead: nat, limit: int, transmitLimit: int) returns (toSend: seq<seq<byte>>)
      modifies `bcQueue, `finished, `sent
      ensures RoundDone(old(bcQueue), Log([], old(finished), old(sent)), Budget(overhead, limit, transmitLimit),
                        bcQueue, Log(toSend, finished, sent))
      ensures toSend == [] ==> bcQueue == old(bcQueue)
    {
      ghost var c := Budget(overhead, limit, transmitLimit);
      ghost var q, start := bcQueue, Log([], finished, sent);
      var bytesUsed: nat := 0;
      toSend := [];
      var i := |bcQueue| - 1;
      ghost var k := |bcQueue|;
      while i >= 0
        invariant k == i + 1 && -1 <= i && k <= |q| && k <= |bcQueue|
        invariant forall j :: 0 <= j < k ==> bcQueue[j] == q[j]
        invariant toSend == [] ==> bcQueue == q
        invariant StillQueued(q, bcQueue, k, bytesUsed, c) == StillQueued(q, q, |q|, 0, c)
        invariant Completed(q, Log(toSend, finished, sent), k, bytesUsed, c) == Completed(q, start, |q|, 0, c)
      {
        toSend, bytesUsed := Consider(i, k, toSend, bytesUsed, overhead, limit, transmitLimit, q);
        k, i := i, i - 1;
      }
      RoundEnds(q, start, c, bcQueue, Log(toSend, finished, sent), bytesUsed);
    }

    /** One turn of the sending loop: element i is sent when it still fits, and dropped when it is done. */
    method Consider(i: nat, ghost k: nat, toSend: seq<seq<byte>>, bytesUsed: nat, overhead: nat, limit: int,
                    transmitLimit: int, ghost q: seq<Limited>)
      returns (send: seq<seq<byte>>, used: nat)
      requires k == i + 1 && i < |q| && i < |bcQueue| && bcQueue[i] == q[i]
      modifies `bcQueue, `finished, `sent
      ensures |bcQueue| >= i
      ensures forall j :: 0 <= j < i ==> bcQueue[j] == old(bcQueue[j])
      ensures send == [] ==> toSend == [] && bcQueue == old(bcQueue)
      ensures var c := Budget(overhead, limit, transmitLimit);
        && StillQueued(q, bcQueue, i, used, c) == StillQueued(q, old(bcQueue), k, bytesUsed, c)
        && Completed(q, Log(send, finished, sent), i, used, c)
           == Completed(q, Log(toSend, old(finished), old(sent)), k, bytesUsed, c)
    {
      send, used := toSend, bytesUsed;
      ghost var c := Budget(overhead, limit, transmitLimit);
      var b := bcQueue[i];
      if bytesUsed + overhead + |b.b.msg| > limit {
        Skips(q, bcQueue, Log(toSend, finished, sent), i, bytesUsed, c);
        return;
      }
      used := bytesUsed + overhead + |b.b.msg|;
      send := toSend + [b.b.msg];
      Transmit(i, transmitLimit);
      QueueSends(q, old(bcQueue), bcQueue, i, bytesUsed, used, c);
      LogSends(q, Log(toSend, old(finished), old(sent)), Log(send, finished, sent), i, bytesUsed, used, c);
    }

    /** Counts one more transmission of element i, and finishes it at the limit. */
    method Transmit(i: nat, transmitLimit: int)
      requires i < |bcQueue|
      modifies `bcQueue, `finished, `sent
      ensures SentOne(old(bcQueue), i, transmitLimit, bcQueue)
      ensures finished == if old(bcQueue)[i].transmits + 1 >= transmitLimit then old(finished) + [old(bcQueue)[i].b.id]
                          else old(finished)
      ensures sent == Bump(old(sent), old(bcQueue)[i].b.id)
    {
      var b := bcQueue[i];
      sent := Bump(sent, b.b.id);
      b := b.(transmits := b.transmits + 1);
      bcQueue := bcQueue[i := b];
      if b.transmits >= transmitLimit {
        finished := finished + [b.b.id];
        var n := |bcQueue|;
        bcQueue := bcQueue[i := bcQueue[n - 1]];
        bcQueue := bcQueue[..n - 1];
      }
    }

    /** Finishes the first n broadcasts, as Reset and Prune do before they drop them. */
    method Finish(n: nat)
      requires n <= |bcQueue|
      modifies `finished
      ensures finished == old(finished) + Ids(bcQueue[..n])
    {
      for i := 0 to n
        invariant finished == old(finished) + Ids(bcQueue[..i])
      {
        finished := finished + [bcQueue[i].b.id];
        IdsOfPrefix(bcQueue, i);
        Associative(old(finished), Ids(bcQueue[..i]), [bcQueue[i].b.id]);
      }
    }

    method Reset()
      requires Valid()
      modifies this
      ensures Valid()
      ensures Next(old(View()), Call.Reset, View())
    {
      Finish(|bcQueue|);
      assert bcQueue[..|bcQueue|] == bcQueue;
      bcQueue := [];
      NextKeepsInv(old(View()), Call.Reset, View());
    }

    /** A negative maxRetain indexes out of the queue in the source. */
    method Prune(maxRetain: nat)
      requires Valid()
      modifies this
      ensures Valid()
      ensures Next(old(View()), Call.Prune(maxRetain), View())
      ensures |bcQueue| == if |old(bcQueue)| < maxRetain then |old(bcQueue)| else maxRetain
    {
      var n := |bcQueue|;
      if n < maxRetain {
        return;
      }
      Finish(n - maxRetain);
      bcQueue := bcQueue[n - maxRetain..];
      NextKeepsInv(old(View()), Call.Prune(maxRetain), View());
    }
  }

  lemma {:induction false} IdsOfPrefix(items: seq<Limited>, i: nat)
    requires i < |items|
    ensures Ids(items[..i + 1]) == Ids(items[..i]) + [items[i].b.id]
  {
  }

  lemma {:induction false} PurgeKeeps(q: seq<Limited>, i: nat, b: Broadcast)
    requires i < |q| && !b.Invalidates(q[i].b)
    ensures q[..i] + Purged(q[i..], b) == q[..i + 1] + Purged(q[i + 1..], b)
    ensures PurgedIds(q[i..], b) == PurgedIds(q[i + 1..], b)
  {
    assert q[i..][1..] == q[i + 1..];
  }

  /** After a removal the loop index is past the element that moved up, or past the end. */
  lemma {:induction false} PurgeRemoves(q: seq<Limited>, i: nat, b: Broadcast)
    requires i < |q| && b.Invalidates(q[i].b)
    ensures var now := q[..i] + q[i + 1..];
      if i == |now| then
        q[..i] + Purged(q[i..], b) == now && PurgedIds(q[i..], b) == [q[i].b.id]
      else
        && q[..i] + Purged(q[i..], b) == now[..i + 1] + Purged(now[i + 1..], b)
        && PurgedIds(q[i..], b) == [q[i].b.id] + PurgedIds(now[i + 1..], b)
  {
    var now := q[..i] + q[i + 1..];
    if i < |now| {
      assert q[i..][1] == q[i + 1] && q[i..][2..] == now[i + 1..];
      assert now[..i + 1] == q[..i] + [q[i + 1]];
    }
  }

  /** What a sending round has done so far: the messages chosen, the ids finished and the counts. */
  datatype Log = Log(toSend: seq<seq<byte>>, finished: seq<nat>, sent: map<nat, nat>)

  /** The outcome of a round whose first k elements are still to be looked at. */
  ghost function Completed(q: seq<Limited>, now: Log, k: nat, used: nat, c: Budget): Log
    requires k <= |q|
  {
    var chosen := Chosen(q, k, used, c);
    Log(now.toSend + Messages(chosen), now.finished + Ids(Retired(chosen, c)), BumpAll(now.sent, chosen))
  }

  ghost function StillQueued(q: seq<Limited>, now: seq<Limited>, k: nat, used: nat, c: Budget): multiset<Limited>
    requires k <= |q| && k <= |now|
  {
    multiset(now[k..]) + multiset(Remaining(q, k, used, c))
  }

  lemma {:induction false} Skips(q: seq<Limited>, now: seq<Limited>, log: Log, i: nat, used: nat, c: Budget)
    requires i < |q| && i < |now| && now[i] == q[i] && used + c.overhead + |q[i].b.msg| > c.limit
    ensures StillQueued(q, now, i, used, c) == StillQueued(q, now, i + 1, used, c)
    ensures Completed(q, log, i, used, c) == Completed(q, log, i + 1, used, c)
  {
    assert now[i..] == [q[i]] + now[i + 1..];
  }

  lemma {:induction false} QueueBumps(q: seq<Limited>, was: seq<Limited>, now: seq<Limited>, i: nat, used: nat,
      next: nat, c: Budget)
    requires i < |q| && i < |was| && was[i] == q[i] && !Done(q[i], c)
    requires next == used + c.overhead + |q[i].b.msg| <= c.limit
    requires now == was[i := q[i].(transmits := q[i].transmits + 1)]
    ensures StillQueued(q, now, i, next, c) == StillQueued(q, was, i + 1, used, c)
  {
    assert now[i..] == [now[i]] + was[i + 1..];
    RemainsBumped(q, i, i + 1, used, next, c);
    Counted(now[i], was[i + 1..]);
    Counted(now[i], Remaining(q, i, next, c));
  }

  lemma {:induction false} RemainsBumped(q: seq<Limited>, i: nat, k: nat, used: nat, next: nat, c: Budget)
    requires k == i + 1 && i < |q| && !Done(q[i], c)
    requires next == used + c.overhead + |q[i].b.msg| <= c.limit
    ensures Remaining(q, k, used, c) == [q[i].(transmits := q[i].transmits + 1)] + Remaining(q, i, next, c)
  {
  }

  lemma {:induction false} Counted(x: Limited, items: seq<Limited>)
    ensures multiset([x] + items) == multiset{x} + multiset(items)
  {
  }

  lemma {:induction false} QueueRetires(q: seq<Limited>, was: seq<Limited>, now: seq<Limited>, i: nat, used: nat,
      next: nat, c: Budget)
    requires i < |q| && i < |was| && was[i] == q[i] && Done(q[i], c)
    requires next == used + c.overhead + |q[i].b.msg| <= c.limit
    requires SwappedOut(was, i, now)
    ensures StillQueued(q, now, i, next, c) == StillQueued(q, was, i + 1, used, c)
  {
    EmptyIsUnit(Remaining(q, i, next, c));
    SwapOut(was, i, now);
  }

  lemma {:induction false} QueueSends(q: seq<Limited>, was: seq<Limited>, now: seq<Limited>, i: nat, used: nat,
      next: nat, c: Budget)
    requires i < |q| && i < |was| && was[i] == q[i] && SentOne(was, i, c.transmitLimit, now)
    requires next == used + c.overhead + |q[i].b.msg| <= c.limit
    ensures |now| >= i
    ensures StillQueued(q, now, i, next, c) == StillQueued(q, was, i + 1, used, c)
  {
    if Done(q[i], c) {
      QueueRetires(q, was, now, i, used, next, c);
    } else {
      QueueBumps(q, was, now, i, used, next, c);
    }
  }

  lemma {:induction false} LogSends(q: seq<Limited>, was: Log, now: Log, i: nat, used: nat, next: nat, c: Budget)
    requires i < |q| && next == used + c.overhead + |q[i].b.msg| <= c.limit
    requires now.toSend == was.toSend + [q[i].b.msg]
    requires now.finished == if Done(q[i], c) then was.finished + [q[i].b.id] else was.finished
    requires now.sent == Bump(was.sent, q[i].b.id)
    ensures Completed(q, now, i, next, c) == Completed(q, was, i + 1, used, c)
  {
    var b := q[i];
    var rest := Chosen(q, i, next, c);
    SentFirst(b, rest, c);
    Associative(was.toSend, [b.b.msg], Messages(rest));
    if Done(b, c) {
      Associative(was.finished, [b.b.id], Ids(Retired(rest, c)));
    } else {
      EmptyIsUnit(Ids(Retired(rest, c)));
    }
  }

  lemma {:induction false} SentFirst(b: Limited, chosen: seq<Limited>, c: Budget)
    ensures Messages([b] + chosen) == [b.b.msg] + Messages(chosen)
    ensures Ids(Retired([b] + chosen, c)) == (if Done(b, c) then [b.b.id] else []) + Ids(Retired(chosen, c))
    ensures ([b] + chosen)[1..] == chosen
  {
    assert ([b] + chosen)[1..] == chosen;
    assert Done(b, c) ==> ([b] + Retired(chosen, c))[1..] == Retired(chosen, c);
  }

  /** A whole round, from queue q and log start to queue items and log now. */
  ghost predicate RoundDone(q: seq<Limited>, start: Log, c: Budget, items: seq<Limited>, now: Log) {
    var chosen := Selected(q, c);
    && now.toSend == Messages(chosen)
    && now.finished == start.finished + Ids(Retired(chosen, c))
    && now.sent == BumpAll(start.sent, chosen)
    && multiset(items) == multiset(Left(q, c))
  }

  lemma RoundIsNext(q: Queue, c: Budget, toSend: seq<seq<byte>>, q': Queue)
    requires Inv(q) && q.items != []
    requires RoundDone(q.items, Log([], q.finished, q.sent), c, q'.items, Log(toSend, q'.finished, q'.sent))
    requires q'.count == q.count && q'.peak == Max(q.peak, c.transmitLimit)
    requires if toSend == [] then q'.items == q.items else Sorted(q'.items)
    ensures Next(q, Call.GetBroadcasts(c), q') && Inv(q')
    ensures toSend == Messages(Selected(q.items, c))
    ensures toSend == [] || Cost(toSend, c.overhead) <= c.limit
  {
    RoundFitsTheLimit(q.items, |q.items|, 0, c);
    GetBroadcastsKeepsInv(q, c, q');
  }

  lemma {:induction false} RoundEnds(q: seq<Limited>, start: Log, c: Budget, items: seq<Limited>, now: Log, used: nat)
    requires start.toSend == [] && Completed(q, now, 0, used, c) == Completed(q, start, |q|, 0, c)
    requires StillQueued(q, items, 0, used, c) == StillQueued(q, q, |q|, 0, c)
    ensures RoundDone(q, start, c, items, now)
  {
    EmptyIsUnit(now.toSend);
    EmptyIsUnit(Messages(Selected(q, c)));
    assert items[0..] == items && q[|q|..] == [];
    assert multiset(q[|q|..]) == multiset{} && multiset(Remaining(q, 0, used, c)) == multiset{};
    assert StillQueued(q, items, 0, used, c) == multiset(items);
    assert StillQueued(q, q, |q|, 0, c) == multiset(Left(q, c));
  }

  /** Element i was sent once more: it counts one up in place, or is swapped out at the limit. */
  ghost predicate SentOne(was: seq<Limited>, i: nat, transmitLimit: int, now: seq<Limited>)
    requires i < |was|
  {
    if was[i].transmits + 1 >= transmitLimit then SwappedOut(was, i, now)
    else now == was[i := was[i].(transmits := was[i].transmits + 1)]
  }

  ghost predicate SwappedOut(was: seq<Limited>, i: nat, now: seq<Limited>) {
    && i < |was| == |now| + 1
    && forall j :: 0 <= j < |now| ==> now[j] == if j == i then was[|was| - 1] else was[j]
  }

  /** Overwriting a finished element with the last one and cutting off the end removes just that element. */
  lemma {:induction false} SwapOut(was: seq<Limited>, i: nat, now: seq<Limited>)
    requires SwappedOut(was, i, now)
    ensures multiset(now[i..]) == multiset(was[i + 1..])
  {
    var last := |was| - 1;
    if i < last {
      assert now[i..] == [was[last]] + was[i + 1..last];
      assert was[i + 1..] == was[i + 1..last] + [was[last]];
    } else {
      assert now[i..] == [] && was[i + 1..] == [];
    }
  }

  /** The library sort by descending transmit count. Callers rely on nothing but this contract,
      which leaves the order of equal counts open. */
  method SortDescending(items: seq<Limited>) returns (sorted: seq<Limited>)
    ensures multiset(sorted) == multiset(items) && Sorted(sorted)
  {
    sorted := [];
    for i := 0 to |items|
      invariant multiset(sorted) == multiset(items[..i])
      invariant Sorted(sorted)
    {
      sorted := InsertDescending(sorted, items[i]);
      assert items[..i + 1] == items[..i] + [items[i]];
    }
    assert items[..|items|] == items;
  }

  method InsertDescending(sorted: seq<Limited>, x: Limited) returns (r: seq<Limited>)
    requires Sorted(sorted)
    ensures Sorted(r) && multiset(r) == multiset(sorted) + multiset{x}
  {
    var k := 0;
    while k < |sorted| && sorted[k].transmits >= x.transmits
      invariant 0 <= k <= |sorted|
      invariant forall j :: 0 <= j < k ==> sorted[j].transmits >= x.transmits
    {
      k := k + 1;
    }
    InsertSorted(sorted, k, x);
    r := sorted[..k] + [x] + sorted[k..];
  }

  lemma {:induction false} InsertSorted(sorted: seq<Limited>, k: nat, x: Limited)
    requires Sorted(sorted) && k <= |sorted|
    requires forall j :: 0 <= j < k ==> sorted[j].transmits >= x.transmits
    requires k < |sorted| ==> sorted[k].transmits < x.transmits
    ensures Sorted(sorted[..k] + [x] + sorted[k..])
    ensures multiset(sorted[..k] + [x] + sorted[k..]) == multiset(sorted) + multiset{x}
  {
    SortedParts(sorted, k);
    SortedAround(sorted[..k], x, sorted[k..]);
    CountedBetween(sorted[..k], x, sorted[k..]);
    assert sorted == sorted[..k] + sorted[k..];
  }

  lemma {:induction false} SortedParts(items: seq<Limited>, k: nat)
    requires Sorted(items) && k <= |items|
    ensures Sorted(items[..k]) && Sorted(items[k..])
  {
  }

  lemma {:induction false} SortedAround(a: seq<Limited>, x: Limited, b: seq<Limited>)
    requires Sorted(a) && Sorted(b)
    requires forall i :: 0 <= i < |a| ==> a[i].transmits >= x.transmits
    requires b != [] ==> x.transmits >= b[0].transmits
    ensures Sorted(a + [x] + b)
  {
  }

  lemma {:induction false} CountedBetween(a: seq<Limited>, x: Limited, b: seq<Limited>)
    ensures multiset(a + [x] + b) == multiset(a + b) + multiset{x}
  {
  }
}
