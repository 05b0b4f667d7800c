/** What the calls on the broadcast queue keep, send, finish and drop, element by element. */
module BroadcastQueueEffects {
  import opened Bytes
  import opened Wrappers
  import opened BroadcastQueue
  import opened BroadcastQueueProofs

  // ----- Queueing

  /** At most one broadcast about any member node is queued. */
  lemma OneBroadcastPerNode(q: Queue)
    requires Inv(q)
    ensures forall i, j :: 0 <= i < j < |q.items| && q.items[i].b.node.Some? ==>
      q.items[i].b.node != q.items[j].b.node
  {
    forall i, j | 0 <= i < j < |q.items| && q.items[i].b.node.Some? ensures q.items[i].b.node != q.items[j].b.node {
      assert !q.items[i].b.Invalidates(q.items[j].b);
    }
  }

  lemma {:induction false} KeptAre(items: seq<Limited>, b: Broadcast, x: Limited)
    ensures x in Kept(items, b) <==> x in items && (b.node == None || x.b.node != b.node)
    ensures x in Dropped(items, b) <==> x in items && b.node != None && x.b.node == b.node
  {
    if items != [] {
      KeptAre(items[1..], b, x);
      assert x in items <==> x == items[0] || x in items[1..];
    }
  }

  /** Queueing a broadcast about a node replaces the one queued about that node and no other; a broadcast about no
      node replaces none. The new one goes to the end, unsent, and what it replaces is finished. */
  lemma QueueingReplacesTheSameNode(q: Queue, node: Option<string>, msg: seq<byte>, q': Queue, x: Limited)
    requires Inv(q) && Next(q, QueueBroadcast(node, msg), q')
    ensures var b := Limited(0, Broadcast(q.count, node, msg));
      && q'.items != [] && q'.items[|q'.items| - 1] == b
      && (x in q'.items <==> x == b || (x in q.items && (node == None || x.b.node != node)))
    ensures x in q.items && node != None && x.b.node == node ==> x.b.id in q'.finished
  {
    var b := Broadcast(q.count, node, msg);
    OnePerNodeHasNoPair(q.items, b);
    PurgeRemovesAllIff(q.items, b);
    KeptAre(q.items, b, x);
    if x in Dropped(q.items, b) {
      IdsOfMembers(Dropped(q.items, b), x);
    }
  }

  lemma {:induction false} IdsOfMembers(items: seq<Limited>, x: Limited)
    requires x in items
    ensures x.b.id in Ids(items)
  {
    var i :| 0 <= i < |items| && items[i] == x;
    assert Ids(items)[i] == x.b.id;
  }

  // ----- Sending

  lemma {:induction false} CostOf(x: Limited, chosen: seq<Limited>, overhead: nat)
    ensures Cost(Messages([x] + chosen), overhead) == overhead + |x.b.msg| + Cost(Messages(chosen), overhead)
  {
    assert ([x] + chosen)[1..] == chosen;
    assert Messages([x] + chosen)[1..] == Messages(chosen);
  }

  /** Element i is sent exactly when it fits behind the elements sent from further back in the queue. */
  lemma {:induction false} SentIffItFits(items: seq<Limited>, n: nat, i: nat, used: nat, c: Budget)
    returns (behind: seq<Limited>, front: seq<Limited>)
    requires i < n <= |items|
    ensures var fits := used + Cost(Messages(behind), c.overhead) + c.overhead + |items[i].b.msg| <= c.limit;
      Chosen(items, n, used, c) == behind + (if fits then [items[i]] else []) + front
    ensures Among(behind, items[i + 1..n]) && Among(front, items[..i])
    decreases n
  {
    var x, m := items[n - 1], n - 1;
    var next := used + c.overhead + |x.b.msg|;
    if i == m {
      behind, front := [], Chosen(items, i, if next > c.limit then used else next, c);
      ChosenAreQueued(items, i, if next > c.limit then used else next, c);
    } else if next > c.limit {
      behind, front := SentIffItFits(items, m, i, used, c);
      AmongMore(behind, items[i + 1..m], [], x, items[i + 1..n]);
    } else {
      var more;
      more, front := SentIffItFits(items, m, i, next, c);
      behind := [x] + more;
      CostOf(x, more, c.overhead);
      AmongMore(more, items[i + 1..m], [x], x, items[i + 1..n]);
      Reassociated(x, more, items[i], front);
    }
  }

  ghost predicate Among(part: seq<Limited>, items: seq<Limited>) {
    forall x :: x in part ==> x in items
  }

  lemma {:induction false} AmongMore(part: seq<Limited>, items: seq<Limited>, first: seq<Limited>, x: Limited,
      all: seq<Limited>)
    requires Among(part, items) && all == items + [x] && (first == [] || first == [x])
    ensures Among(first + part, all) && Among(part, all)
  {
  }

  lemma {:induction false} Reassociated(x: Limited, more: seq<Limited>, y: Limited, front: seq<Limited>)
    ensures [x] + (more + [y] + front) == [x] + more + [y] + front
    ensures [x] + (more + [] + front) == [x] + more + [] + front
  {
  }

  lemma {:induction false} LeftOfRound(items: seq<Limited>, n: nat, used: nat, c: Budget, x: Limited)
    requires n <= |items| && x in items[..n] && DistinctIds(items)
    ensures x in Chosen(items, n, used, c) ==>
      if x.transmits + 1 >= c.transmitLimit then x in Retired(Chosen(items, n, used, c), c)
      else Limited(x.transmits + 1, x.b) in Remaining(items, n, used, c)
    ensures x !in Chosen(items, n, used, c) ==> x in Remaining(items, n, used, c)
    decreases n
  {
    var y := items[n - 1];
    var next := if used + c.overhead + |y.b.msg| > c.limit then used else used + c.overhead + |y.b.msg|;
    var chosen := Chosen(items, n - 1, next, c);
    assert items[..n] == items[..n - 1] + [y];
    assert ([y] + chosen)[1..] == chosen;
    if x in items[..n - 1] {
      LeftOfRound(items, n - 1, next, c, x);
    } else {
      ChosenAreQueued(items, n - 1, next, c);
    }
  }

  /** What a round does to an element: one that is not sent stays as it is; one that is sent is counted, and is
      finished when that makes it as many transmissions as the limit, and back in the queue otherwise. */
  lemma RoundTreats(q: Queue, c: Budget, q': Queue, x: Limited)
    requires Inv(q) && Next(q, GetBroadcasts(c), q') && x in q.items
    ensures x !in Selected(q.items, c) ==> x in q'.items && Sent(q', x.b.id) == Sent(q, x.b.id)
    ensures x in Selected(q.items, c) ==>
      && Sent(q', x.b.id) == Sent(q, x.b.id) + 1
      && if x.transmits + 1 >= c.transmitLimit then x.b.id in q'.finished
         else Limited(x.transmits + 1, x.b) in q'.items
  {
    AccountedIsDistinct(q);
    assert q.items[..|q.items|] == q.items;
    LeftOfRound(q.items, |q.items|, 0, c, x);
    RoundCounts(q, c, q', x);
    if Selected(q.items, c) != [] {
      if x in Retired(Selected(q.items, c), c) {
        IdsOfMembers(Retired(Selected(q.items, c), c), x);
      }
      PermutationMembers(Left(q.items, c), q'.items);
    }
  }

  lemma RoundCounts(q: Queue, c: Budget, q': Queue, x: Limited)
    requires Inv(q) && Next(q, GetBroadcasts(c), q') && x in q.items
    ensures Sent(q', x.b.id) == Sent(q, x.b.id) + if x in Selected(q.items, c) then 1 else 0
  {
    var chosen := Selected(q.items, c);
    SentAfterRound(q, c, q', x.b.id);
    HeldIffMember(chosen, x.b.id);
    AccountedIsDistinct(q);
    ChosenAreQueued(q.items, |q.items|, 0, c);
    assert q.items[..|q.items|] == q.items;
  }

  // ----- Dropping

  /** Prune keeps the broadcasts sent least often, as many as it may, and finishes the others. */
  lemma PruneKeepsTheLeastSent(q: Queue, maxRetain: nat, q': Queue, x: Limited)
    requires Inv(q) && Next(q, Prune(maxRetain), q') && x in q.items
    ensures |q'.items| == if |q.items| < maxRetain then |q.items| else maxRetain
    ensures x in q'.items || x.b.id in q'.finished
    ensures x !in q'.items ==> forall y :: y in q'.items ==> y in q.items && y.transmits <= x.transmits
  {
    if maxRetain <= |q.items| {
      var excess := |q.items| - maxRetain;
      assert q.items == q.items[..excess] + q.items[excess..];
      if x !in q.items[excess..] {
        IdsOfMembers(q.items[..excess], x);
      }
    }
  }

  /** Reset finishes everything. */
  lemma ResetFinishesAll(q: Queue, q': Queue, x: Limited)
    requires Next(q, Call.Reset, q') && x in q.items
    ensures q'.items == [] && x.b.id in q'.finished
  {
    IdsOfMembers(q.items, x);
  }
}
