/** What every run of calls keeps true of the broadcast queue. */
module BroadcastQueueProofs {
  import opened Bytes
  import opened Wrappers
  import opened BroadcastQueue

  // ----- Identities

  lemma {:induction false} CountAppend(a: seq<nat>, b: seq<nat>, id: nat)
    ensures Count(a + b, id) == Count(a, id) + Count(b, id)
  {
    if a == [] {
      assert a + b == b;
    } else {
      CountAppend(a[1..], b, id);
      assert (a + b)[1..] == a[1..] + b;
    }
  }

  lemma {:induction false} HeldAppend(a: seq<Limited>, b: seq<Limited>, id: nat)
    ensures Held(a + b, id) == Held(a, id) + Held(b, id)
  {
    if a == [] {
      assert a + b == b;
    } else {
      HeldAppend(a[1..], b, id);
      assert (a + b)[1..] == a[1..] + b;
    }
  }

  lemma {:induction false} CountOfIds(items: seq<Limited>, id: nat)
    ensures Count(Ids(items), id) == Held(items, id)
  {
    if items != [] {
      CountOfIds(items[1..], id);
      assert Ids(items)[1..] == Ids(items[1..]);
    }
  }

  /** Being held is being the id of some element. */
  lemma {:induction false} HeldIffMember(items: seq<Limited>, id: nat)
    ensures Held(items, id) > 0 <==> exists x :: x in items && x.b.id == id
  {
    if items != [] {
      HeldIffMember(items[1..], id);
      assert items == [items[0]] + items[1..];
      if x :| x in items && x.b.id == id {
        assert x == items[0] || x in items[1..];
      }
      if items[0].b.id != id && Held(items, id) > 0 {
        var x :| x in items[1..] && x.b.id == id;
        assert x in items;
      }
    }
  }

  lemma {:induction false} CountIfMember(ids: seq<nat>, id: nat)
    ensures Count(ids, id) > 0 <==> id in ids
  {
    if ids != [] {
      CountIfMember(ids[1..], id);
      assert ids == [ids[0]] + ids[1..];
    }
  }

  lemma {:induction false} HeldBetween(a: seq<Limited>, x: Limited, b: seq<Limited>, id: nat)
    ensures Held(a + [x] + b, id) == Held(a + b, id) + (if x.b.id == id then 1 else 0)
    ensures multiset(a + [x] + b) == multiset(a + b) + multiset{x}
  {
    HeldAppend(a, b, id);
    HeldAppend(a + [x], b, id);
    HeldAppend(a, [x], id);
  }

  lemma {:induction false} HeldWithout(b: seq<Limited>, k: nat, rest: seq<Limited>, id: nat)
    requires k < |b| && rest == b[..k] + b[k + 1..]
    ensures Held(b, id) == Held(rest, id) + (if b[k].b.id == id then 1 else 0)
    ensures multiset(b) == multiset(rest) + multiset{b[k]}
  {
    assert b == b[..k] + [b[k]] + b[k + 1..];
    HeldBetween(b[..k], b[k], b[k + 1..], id);
  }

  lemma Cancelled<T>(a: multiset<T>, b: multiset<T>, x: T)
    requires a + multiset{x} == b + multiset{x}
    ensures a == b
  {
    assert a == (a + multiset{x}) - multiset{x};
  }

  lemma {:induction false} HeldOfPermutation(a: seq<Limited>, b: seq<Limited>, id: nat)
    requires multiset(a) == multiset(b)
    ensures Held(a, id) == Held(b, id)
    decreases |a|
  {
    if a == [] {
      assert |multiset(b)| == 0;
    } else {
      var x := a[0];
      assert x in multiset(a);
      var k :| 0 <= k < |b| && b[k] == x;
      var more, rest := a[..0] + a[1..], b[..k] + b[k + 1..];
      HeldWithout(a, 0, more, id);
      HeldWithout(b, k, rest, id);
      Cancelled(multiset(more), multiset(rest), x);
      HeldOfPermutation(more, rest, id);
    }
  }

  ghost predicate DistinctIds(items: seq<Limited>) {
    forall i, j :: 0 <= i < j < |items| ==> items[i].b.id != items[j].b.id
  }

  lemma {:induction false} HeldOnceIsDistinct(items: seq<Limited>)
    requires forall id: nat :: Held(items, id) <= 1
    ensures DistinctIds(items)
  {
    if items != [] {
      var rest := items[1..];
      forall id: nat ensures Held(rest, id) <= 1 {
        assert Held(items, id) <= 1;
      }
      HeldOnceIsDistinct(rest);
      forall x | x in rest ensures x.b.id != items[0].b.id {
        HeldIffMember(rest, x.b.id);
        assert Held(items, items[0].b.id) <= 1;
      }
    }
  }

  lemma {:induction false} DistinctIsHeldOnce(items: seq<Limited>, id: nat)
    requires DistinctIds(items)
    ensures Held(items, id) <= 1
  {
    if items != [] {
      DistinctIsHeldOnce(items[1..], id);
      HeldIffMember(items[1..], id);
    }
  }

  lemma AccountedIsDistinct(q: Queue)
    requires Accounted(q)
    ensures DistinctIds(q.items)
    ensures forall x :: x in q.items ==> x.b.id < q.count && x.b.id !in q.finished
  {
    forall id: nat ensures Held(q.items, id) <= 1 {
      assert Held(q.items, id) + Count(q.finished, id) <= 1;
    }
    HeldOnceIsDistinct(q.items);
    forall x | x in q.items ensures x.b.id < q.count && x.b.id !in q.finished {
      HeldIffMember(q.items, x.b.id);
      CountIfMember(q.finished, x.b.id);
      assert Held(q.items, x.b.id) + Count(q.finished, x.b.id) <= 1;
    }
  }

  // ----- Queueing

  lemma {:induction false} KeptStaysOrdered(items: seq<Limited>, b: Broadcast)
    ensures Sorted(items) ==> Sorted(Kept(items, b))
    ensures OnePerNode(items) ==> OnePerNode(Kept(items, b))
  {
    if items != [] {
      KeptStaysOrdered(items[1..], b);
      KeptAreNotInvalidated(items[1..], b);
    }
  }

  lemma {:induction false} KeptAndDropped(items: seq<Limited>, b: Broadcast, id: nat)
    ensures Held(items, id) == Held(Kept(items, b), id) + Held(Dropped(items, b), id)
  {
    if items != [] {
      var rest := items[1..];
      KeptAndDropped(rest, b, id);
      if b.Invalidates(items[0].b) {
        assert Kept(items, b) == Kept(rest, b) && Dropped(items, b)[1..] == Dropped(rest, b);
      } else {
        assert Dropped(items, b) == Dropped(rest, b) && Kept(items, b)[1..] == Kept(rest, b);
      }
    }
  }

  lemma {:induction false} OnePerNodeHasNoPair(items: seq<Limited>, b: Broadcast)
    requires OnePerNode(items)
    ensures NoAdjacentPair(items, b)
  {
    if |items| >= 2 {
      OnePerNodeHasNoPair(items[1..], b);
    }
  }

  lemma QueueBroadcastKeepsInv(q: Queue, node: Option<string>, msg: seq<byte>, q': Queue)
    requires Inv(q) && Next(q, QueueBroadcast(node, msg), q')
    ensures Inv(q')
    ensures q'.items == Kept(q.items, Broadcast(q.count, node, msg)) + [Limited(0, Broadcast(q.count, node, msg))]
    ensures q'.finished == q.finished + Ids(Dropped(q.items, Broadcast(q.count, node, msg)))
  {
    var b := Broadcast(q.count, node, msg);
    var kept, dropped := Kept(q.items, b), Dropped(q.items, b);
    OnePerNodeHasNoPair(q.items, b);
    PurgeRemovesAllIff(q.items, b);
    KeptStaysOrdered(q.items, b);
    KeptAreNotInvalidated(q.items, b);
    QueueBroadcastAccounts(q, b, q');
    AppendStaysOrdered(kept, b);
    QueueBroadcastCounts(q, kept, b, q');
  }

  lemma {:induction false} AppendStaysOrdered(kept: seq<Limited>, b: Broadcast)
    requires Sorted(kept) && OnePerNode(kept)
    requires forall x :: x in kept ==> !b.Invalidates(x.b)
    ensures Sorted(kept + [Limited(0, b)]) && OnePerNode(kept + [Limited(0, b)])
  {
  }

  lemma {:induction false} QueueBroadcastCounts(q: Queue, kept: seq<Limited>, b: Broadcast, q': Queue)
    requires TransmitsCounted(q) && b.id == q.count
    requires forall x :: x in kept ==> x in q.items
    requires q'.items == kept + [Limited(0, b)]
    requires q'.count == q.count + 1 && q'.sent == q.sent && q'.peak == q.peak
    ensures TransmitsCounted(q')
  {
    assert q.count !in q.sent;
    forall x | x in q'.items
      ensures x.transmits == Sent(q', x.b.id) && (x.transmits == 0 || x.transmits < q'.peak)
    {
      assert x in kept || x == Limited(0, b);
    }
  }

  lemma QueueBroadcastAccounts(q: Queue, b: Broadcast, q': Queue)
    requires Accounted(q) && b.id == q.count
    requires q'.items == Kept(q.items, b) + [Limited(0, b)] && q'.count == q.count + 1
    requires q'.finished == q.finished + Ids(Dropped(q.items, b))
    ensures Accounted(q')
  {
    forall id: nat ensures Held(q'.items, id) + Count(q'.finished, id) == if id < q'.count then 1 else 0 {
      assert Held(q.items, id) + Count(q.finished, id) == if id < q.count then 1 else 0;
      KeptAndDropped(q.items, b, id);
      HeldAppend(Kept(q.items, b), [Limited(0, b)], id);
      CountAppend(q.finished, Ids(Dropped(q.items, b)), id);
      CountOfIds(Dropped(q.items, b), id);
    }
  }

  // ----- Sending

  lemma {:induction false} RoundFitsTheLimit(items: seq<Limited>, n: nat, used: nat, c: Budget)
    requires n <= |items|
    ensures var chosen := Chosen(items, n, used, c);
            chosen == [] || used + Cost(Messages(chosen), c.overhead) <= c.limit
  {
    if n != 0 {
      var x := items[n - 1];
      var next := used + c.overhead + |x.b.msg|;
      if next > c.limit {
        RoundFitsTheLimit(items, n - 1, used, c);
      } else {
        RoundFitsTheLimit(items, n - 1, next, c);
        var chosen := Chosen(items, n - 1, next, c);
        assert Messages([x] + chosen) == [x.b.msg] + Messages(chosen);
      }
    }
  }

  lemma {:induction false} ChosenAreQueued(items: seq<Limited>, n: nat, used: nat, c: Budget)
    requires n <= |items|
    ensures forall x :: x in Chosen(items, n, used, c) ==> x in items[..n]
  {
    if n != 0 {
      var x := items[n - 1];
      ChosenAreQueued(items, n - 1, used, c);
      ChosenAreQueued(items, n - 1, used + c.overhead + |x.b.msg|, c);
      assert items[..n] == items[..n - 1] + [x];
    }
  }

  ghost predicate Ascending(items: seq<Limited>) {
    forall i, j :: 0 <= i < j < |items| ==> items[i].transmits <= items[j].transmits
  }

  lemma {:induction false} PrependInOrder(x: Limited, before: seq<Limited>)
    requires DistinctIds(before) && Ascending(before)
    requires forall y :: y in before ==> y.b.id != x.b.id && x.transmits <= y.transmits
    ensures DistinctIds([x] + before) && Ascending([x] + before)
  {
  }

  /** One round sends no element twice and sends the least transmitted ones first. */
  lemma {:induction false} ChosenInOrder(items: seq<Limited>, n: nat, used: nat, c: Budget)
    requires n <= |items| && Sorted(items) && DistinctIds(items)
    ensures DistinctIds(Chosen(items, n, used, c)) && Ascending(Chosen(items, n, used, c))
  {
    if n != 0 {
      var x := items[n - 1];
      var next := used + c.overhead + |x.b.msg|;
      if next > c.limit {
        ChosenInOrder(items, n - 1, used, c);
      } else {
        ChosenInOrder(items, n - 1, next, c);
        ChosenAreQueued(items, n - 1, next, c);
        PrependInOrder(x, Chosen(items, n - 1, next, c));
      }
    }
  }

  lemma {:induction false} RoundAccounts(items: seq<Limited>, n: nat, used: nat, c: Budget, id: nat)
    requires n <= |items|
    ensures Held(items[..n], id) ==
      Held(Remaining(items, n, used, c), id) + Held(Retired(Chosen(items, n, used, c), c), id)
  {
    if n != 0 {
      var x := items[n - 1];
      var next := used + c.overhead + |x.b.msg|;
      assert items[..n] == items[..n - 1] + [x];
      HeldAppend(items[..n - 1], [x], id);
      if next > c.limit {
        RoundAccounts(items, n - 1, used, c, id);
        HeldAppend([x], Remaining(items, n - 1, used, c), id);
      } else {
        RoundAccounts(items, n - 1, next, c, id);
        HeldAppend(Bumped(x, c), Remaining(items, n - 1, next, c), id);
        var chosen := Chosen(items, n - 1, next, c);
        var retired := if Done(x, c) then [x] else [];
        assert ([x] + chosen)[1..] == chosen;
        assert Retired([x] + chosen, c) == retired + Retired(chosen, c);
        HeldAppend(retired, Retired(chosen, c), id);
      }
    }
  }

  /** x is an element that sat out the round, or one that was sent and is not yet done. */
  ghost predicate FromRound(x: Limited, items: seq<Limited>, chosen: seq<Limited>, c: Budget) {
    || (x in items && Held(chosen, x.b.id) == 0)
    || (x.transmits > 0 && x.(transmits := x.transmits - 1) in chosen && x.transmits < c.transmitLimit)
  }

  lemma {:induction false} RemainingComesFromRound(items: seq<Limited>, n: nat, used: nat, c: Budget)
    requires n <= |items| && DistinctIds(items)
    ensures forall x :: x in Remaining(items, n, used, c) ==> FromRound(x, items[..n], Chosen(items, n, used, c), c)
  {
    if n != 0 {
      var last := items[n - 1];
      var next := used + c.overhead + |last.b.msg|;
      var now := if next > c.limit then used else next;
      RemainingComesFromRound(items, n - 1, now, c);
      ChosenAreQueued(items, n - 1, now, c);
      var before := Chosen(items, n - 1, now, c);
      HeldIffMember(before, last.b.id);
      assert next <= c.limit ==> Chosen(items, n, used, c)[1..] == before;
      assert items[..n] == items[..n - 1] + [last];
      forall x | x in Remaining(items, n, used, c) ensures FromRound(x, items[..n], Chosen(items, n, used, c), c) {
        if x in Remaining(items, n - 1, now, c) {
          assert FromRound(x, items[..n - 1], before, c);
        }
      }
    }
  }

  lemma {:induction false} BumpAllCounts(sent: map<nat, nat>, chosen: seq<Limited>, id: nat)
    ensures var after := BumpAll(sent, chosen);
      (if id in after then after[id] else 0) == (if id in sent then sent[id] else 0) + Held(chosen, id)
    ensures id in BumpAll(sent, chosen) <==> id in sent || Held(chosen, id) > 0
    decreases |chosen|
  {
    if chosen != [] {
      var first := chosen[0].b.id;
      BumpAllCounts(Bump(sent, first), chosen[1..], id);
    }
  }

  lemma PermutationMembers<T>(a: seq<T>, b: seq<T>)
    requires multiset(a) == multiset(b)
    ensures forall x :: x in a ==> x in b
  {
    forall x | x in a ensures x in b {
      assert x in multiset(a);
      assert x in multiset(b);
    }
  }

  lemma SentAfterRound(q: Queue, c: Budget, q': Queue, id: nat)
    requires Inv(q) && Next(q, GetBroadcasts(c), q') && q.items != []
    ensures Held(Selected(q.items, c), id) <= 1
    ensures Sent(q', id) == Sent(q, id) + Held(Selected(q.items, c), id)
    ensures id in q'.sent <==> id in q.sent || Held(Selected(q.items, c), id) > 0
  {
    var chosen := Selected(q.items, c);
    AccountedIsDistinct(q);
    ChosenInOrder(q.items, |q.items|, 0, c);
    DistinctIsHeldOnce(chosen, id);
    BumpAllCounts(q.sent, chosen, id);
  }

  lemma {:induction false} LeftComesFromRound(q: Queue, c: Budget, items: seq<Limited>, x: Limited)
    requires Inv(q) && multiset(items) == multiset(Left(q.items, c)) && x in items
    ensures FromRound(x, q.items, Selected(q.items, c), c)
    ensures forall y :: y in Selected(q.items, c) ==> y in q.items
  {
    AccountedIsDistinct(q);
    ChosenAreQueued(q.items, |q.items|, 0, c);
    RemainingComesFromRound(q.items, |q.items|, 0, c);
    assert q.items[..|q.items|] == q.items;
    PermutationMembers(items, Left(q.items, c));
  }

  lemma LeftIsCounted(q: Queue, c: Budget, q': Queue, x: Limited)
    requires Inv(q) && Next(q, GetBroadcasts(c), q') && q.items != []
    requires Selected(q.items, c) != [] && x in q'.items
    ensures x.transmits == Sent(q', x.b.id) && (x.transmits == 0 || x.transmits < q'.peak)
  {
    LeftComesFromRound(q, c, q'.items, x);
    SentAfterRound(q, c, q', x.b.id);
    HeldIffMember(Selected(q.items, c), x.b.id);
  }

  lemma SentIsBounded(q: Queue, c: Budget, q': Queue, id: nat)
    requires Inv(q) && Next(q, GetBroadcasts(c), q') && q.items != [] && id in q'.sent
    ensures id < q'.count && q'.sent[id] <= Max(1, q'.peak)
  {
    AccountedIsDistinct(q);
    SentAfterRound(q, c, q', id);
    HeldIffMember(Selected(q.items, c), id);
    ChosenAreQueued(q.items, |q.items|, 0, c);
    assert q.items[..|q.items|] == q.items;
  }

  lemma RoundKeepsTransmitsCounted(q: Queue, c: Budget, q': Queue)
    requires Inv(q) && Next(q, GetBroadcasts(c), q') && q.items != []
    requires Selected(q.items, c) != []
    ensures TransmitsCounted(q')
  {
    forall x | x in q'.items
      ensures x.transmits == Sent(q', x.b.id) && (x.transmits == 0 || x.transmits < q'.peak)
    {
      LeftIsCounted(q, c, q', x);
    }
    forall id | id in q'.sent ensures id < q'.count && q'.sent[id] <= Max(1, q'.peak) {
      SentIsBounded(q, c, q', id);
    }
  }

  lemma RoundKeepsOnePerNode(q: Queue, c: Budget, q': Queue)
    requires Inv(q) && Next(q, GetBroadcasts(c), q') && q.items != []
    requires Selected(q.items, c) != [] && Accounted(q')
    ensures OnePerNode(q'.items)
  {
    AccountedIsDistinct(q);
    AccountedIsDistinct(q');
    ChosenAreQueued(q.items, |q.items|, 0, c);
    RemainingComesFromRound(q.items, |q.items|, 0, c);
    assert q.items[..|q.items|] == q.items;
    PermutationMembers(q'.items, Left(q.items, c));
    forall i, j | 0 <= i < j < |q'.items| ensures !q'.items[i].b.Invalidates(q'.items[j].b) {
      var m := QueuedBefore(q, c, q'.items[i]);
      var n := QueuedBefore(q, c, q'.items[j]);
      assert m != n;
    }
  }

  /** Where an element of the new queue stood in the old one. */
  lemma QueuedBefore(q: Queue, c: Budget, x: Limited) returns (m: nat)
    requires FromRound(x, q.items, Selected(q.items, c), c)
    ensures m < |q.items| && q.items[m].b == x.b
  {
    ChosenAreQueued(q.items, |q.items|, 0, c);
    var y := if x in q.items then x else x.(transmits := x.transmits - 1);
    assert y in q.items;
    m :| 0 <= m < |q.items| && q.items[m] == y;
  }

  lemma RoundKeepsAccounts(q: Queue, c: Budget, q': Queue)
    requires Accounted(q) && q'.count == q.count
    requires q'.finished == q.finished + Ids(Retired(Selected(q.items, c), c))
    requires multiset(q'.items) == multiset(Left(q.items, c))
    ensures Accounted(q')
  {
    var retired := Retired(Selected(q.items, c), c);
    assert q.items[..|q.items|] == q.items;
    forall id: nat
      ensures Held(q'.items, id) + Count(q'.finished, id) == if id < q'.count then 1 else 0
    {
      assert Held(q.items, id) + Count(q.finished, id) == if id < q.count then 1 else 0;
      RoundAccounts(q.items, |q.items|, 0, c, id);
      HeldOfPermutation(q'.items, Left(q.items, c), id);
      CountAppend(q.finished, Ids(retired), id);
      CountOfIds(retired, id);
    }
  }

  lemma GetBroadcastsKeepsInv(q: Queue, c: Budget, q': Queue)
    requires Inv(q) && Next(q, GetBroadcasts(c), q')
    ensures Inv(q')
  {
    var chosen := Selected(q.items, c);
    if q.items != [] {
      if chosen == [] {
        assert BumpAll(q.sent, chosen) == q.sent;
        assert q'.finished == q.finished;
      } else {
        RoundKeepsAccounts(q, c, q');
        RoundKeepsTransmitsCounted(q, c, q');
        RoundKeepsOnePerNode(q, c, q');
      }
    }
  }

  // ----- Dropping from the front

  lemma DropKeepsInv(q: Queue, excess: nat, q': Queue)
    requires Inv(q) && excess <= |q.items|
    requires q' == q.(items := q.items[excess..], finished := q.finished + Ids(q.items[..excess]))
    ensures Inv(q')
  {
    assert q.items == q.items[..excess] + q.items[excess..];
    forall id: nat
      ensures Held(q'.items, id) + Count(q'.finished, id) == if id < q'.count then 1 else 0
    {
      assert Held(q.items, id) + Count(q.finished, id) == if id < q.count then 1 else 0;
      HeldAppend(q.items[..excess], q.items[excess..], id);
      CountAppend(q.finished, Ids(q.items[..excess]), id);
      CountOfIds(q.items[..excess], id);
    }
  }

  // ----- Runs

  lemma EmptyInv()
    ensures Inv(Empty)
  {
  }

  lemma NextKeepsInv(q: Queue, call: Call, q': Queue)
    requires Inv(q) && Next(q, call, q')
    ensures Inv(q')
  {
    match call
    case QueueBroadcast(node, msg) => QueueBroadcastKeepsInv(q, node, msg, q');
    case GetBroadcasts(c) => GetBroadcastsKeepsInv(q, c, q');
    case Prune(maxRetain) =>
      if maxRetain <= |q.items| {
        DropKeepsInv(q, |q.items| - maxRetain, q');
      }
    case Reset =>
      assert q.items[..|q.items|] == q.items;
      DropKeepsInv(q, |q.items|, q');
  }

  /** Sortedness, one broadcast per node, exact accounting and the transmit bound hold after every call
      of every run. */
  lemma {:induction false} RunKeepsInv(states: seq<Queue>, calls: seq<Call>, k: nat)
    requires Run(states, calls) && k < |states|
    ensures Inv(states[k])
  {
    if k == 0 {
      EmptyInv();
    } else {
      RunKeepsInv(states, calls, k - 1);
      NextKeepsInv(states[k - 1], calls[k - 1], states[k]);
    }
  }

  /** Over a whole run no broadcast is sent more often than max(1, the largest limit applied),
      and one that Finished was called on is finished for good: it is never sent or finished again. */
  lemma {:induction false} FinishedForGood(states: seq<Queue>, calls: seq<Call>, i: nat, j: nat, id: nat)
    requires Run(states, calls) && i <= j < |states|
    ensures Sent(states[j], id) <= Max(1, states[j].peak)
    ensures id in states[i].finished ==>
      Count(states[j].finished, id) == 1 && Sent(states[j], id) == Sent(states[i], id)
    decreases j
  {
    RunKeepsInv(states, calls, j);
    if id in states[i].finished {
      if i < j {
        FinishedForGood(states, calls, i, j - 1, id);
        RunKeepsInv(states, calls, j - 1);
        CountIfMember(states[j - 1].finished, id);
        FinishedStays(states[j - 1], calls[j - 1], states[j], id);
      } else {
        CountIfMember(states[j].finished, id);
        assert Held(states[j].items, id) + Count(states[j].finished, id) <= 1;
      }
    }
  }

  lemma FinishedStays(q: Queue, call: Call, q': Queue, id: nat)
    requires Inv(q) && Next(q, call, q') && id in q.finished
    ensures Count(q'.finished, id) == 1 && Sent(q', id) == Sent(q, id)
  {
    NextKeepsInv(q, call, q');
    CountIfMember(q'.finished, id);
    assert Held(q'.items, id) + Count(q'.finished, id) <= 1;
    if call.GetBroadcasts? && q.items != [] {
      SentAfterRound(q, call.c, q', id);
      AccountedIsDistinct(q);
      ChosenAreQueued(q.items, |q.items|, 0, call.c);
      HeldIffMember(Selected(q.items, call.c), id);
    }
  }

  /** Without the invariant the removal loop can keep an invalidated broadcast: of two neighbours
      about the same node, the second one survives. */
  lemma PurgeMissesASecondNeighbour(b: Broadcast, x: Limited, y: Limited)
    requires b.Invalidates(x.b) && b.Invalidates(y.b)
    ensures Purged([x, y], b) == [y]
  {
    assert [x, y][2..] == [];
  }
}
