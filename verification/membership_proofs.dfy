/** Safety of the membership protocol over whole runs. */
module MembershipProofs {
  import opened Bytes
  import opened Wrappers
  import opened Membership

  // ----- The refutation loop

  lemma RemainderFirst(a: nat, k: nat)
    ensures (a % 0x1_0000_0000 + k) % 0x1_0000_0000 == (a + k) % 0x1_0000_0000
  {
  }

  lemma {:induction false} TurnedIsModular(counter: uint32, n: nat)
    ensures Turned(counter, n) == (counter + n) % 0x1_0000_0000
    decreases n
  {
    if n != 0 {
      TurnedIsModular(Successor(counter), n - 1);
      RemainderFirst(counter + 1, n - 1);
    }
  }

  /** The loop that draws numbers until one exceeds the claim ends for every claim below 2^32 - 1,
      after n turns, and for that one claim never. */
  lemma RefutationLoop(counter: uint32, claim: uint32) returns (n: nat)
    ensures claim < Max32 ==>
      && n > 0 && NextAbove(counter, claim) == Some(Turned(counter, n)) && Turned(counter, n) > claim
      && forall k :: 0 < k < n ==> Turned(counter, k) <= claim
    ensures claim == Max32 ==> forall k: nat :: Turned(counter, k) <= claim
  {
    n := 0;
    if claim < Max32 {
      n := if counter == Max32 then claim + 2 else if counter < claim then claim + 1 - counter else 1;
      TurnedIsModular(counter, n);
      forall k | 0 < k < n ensures Turned(counter, k) <= claim {
        TurnedIsModular(counter, k);
      }
    }
  }

  // ----- The first announcement

  lemma SetAliveIsInitial(self: string, addr: seq<byte>, port: nat, meta: seq<byte>, vsn: seq<byte>)
    requires |vsn| == 6
    ensures Initial(SetAlive(self, addr, port, meta, vsn))
  {
    var s := SetAlive(self, addr, port, meta, vsn);
    assert vsn[..6] == vsn;
    assert s.order == [self];
  }

  // ----- Index agreement

  ghost predicate NoDuplicates<T>(list: seq<T>) {
    forall i, j :: 0 <= i < j < |list| ==> list[i] != list[j]
  }

  /** The node list is a duplicate-free listing of the table's keys, and its length is counted. */
  ghost predicate Indexed(s: State) {
    && NoDuplicates(s.order)
    && (forall n :: n in s.order <==> n in s.table)
    && s.numNodes == |s.order| % 0x1_0000_0000
  }

  lemma {:induction false} SurvivorsAre(table: map<string, Entry>, order: seq<string>)
    ensures forall n :: n in Survivors(table, order) <==> n in order && !(n in table && table[n].status == Dead)
    ensures NoDuplicates(order) ==> NoDuplicates(Survivors(table, order))
  {
    if order != [] {
      var rest := order[1..];
      SurvivorsAre(table, rest);
      assert order == [order[0]] + rest;
      if NoDuplicates(order) {
        assert order[0] !in rest;
      }
    }
  }

  lemma {:induction false} PermutationHasNoDuplicates<T>(a: seq<T>, b: seq<T>)
    requires multiset(a) == multiset(b) && NoDuplicates(a)
    ensures NoDuplicates(b)
    ensures forall x :: x in a <==> x in b
  {
    forall x ensures x in a <==> x in b {
      assert x in a <==> x in multiset(a);
      assert x in b <==> x in multiset(b);
    }
    forall i, j | 0 <= i < j < |b| ensures b[i] != b[j] {
      if b[i] == b[j] {
        assert b == b[..j] + b[j..];
        assert b[i] in b[..j] && b[i] in b[j..];
        assert multiset(b)[b[i]] >= 2;
        OccursOnce(a, b[i]);
        assert false;
      }
    }
  }

  lemma {:induction false} OccursOnce<T>(a: seq<T>, x: T)
    requires NoDuplicates(a)
    ensures multiset(a)[x] <= 1
  {
    if a != [] {
      OccursOnce(a[1..], x);
      assert a == [a[0]] + a[1..];
      if a[0] == x {
        assert x !in a[1..];
      }
    }
  }

  lemma SwapKeepsList<T>(list: seq<T>, i: nat, j: nat)
    requires i < |list| && j < |list| && NoDuplicates(list)
    ensures NoDuplicates(Swapped(list, i, j))
    ensures forall x :: x in Swapped(list, i, j) <==> x in list
  {
    var swapped := Swapped(list, i, j);
    forall x | x in list ensures x in swapped {
      var k :| 0 <= k < |list| && list[k] == x;
      var at := if k == i then j else if k == j then i else k;
      assert swapped[at] == x;
    }
  }

  lemma AppendKeepsList(list: seq<string>, n: string, offset: nat)
    requires NoDuplicates(list) && n !in list && offset <= |list|
    ensures var r := Swapped(list + [n], offset, |list|);
            NoDuplicates(r) && forall x :: x in r <==> x in list || x == n
  {
    assert NoDuplicates(list + [n]);
    SwapKeepsList(list + [n], offset, |list|);
  }

  lemma InsertKeepsIndexed(s: State, a: AliveMsg, random: nat)
    requires Indexed(s) && a.node !in s.table
    ensures Indexed(Insert(s, a, random))
  {
    var n := |s.order|;
    var s' := Insert(s, a, random);
    var offset := RandomOffset(n, random);
    AppendKeepsList(s.order, a.node, offset);
    assert s'.order == Swapped(s.order + [a.node], offset, n);
    CountedUp(n);
    assert s'.table.Keys == s.table.Keys + {a.node};
  }

  lemma CountedUp(n: nat)
    ensures (n % 0x1_0000_0000 + 1) % 0x1_0000_0000 == (n + 1) % 0x1_0000_0000
  {
  }

  /** Only these parts of the state bear on the index. */
  ghost predicate SameIndex(s: State, s': State) {
    s'.table.Keys == s.table.Keys && s'.order == s.order && s'.numNodes == s.numNodes
  }

  lemma SameIndexKeeps(s: State, s': State)
    requires Indexed(s) && SameIndex(s, s')
    ensures Indexed(s')
  {
  }

  lemma AliveKeepsIndexed(s: State, a: AliveMsg, bootstrap: bool, random: nat)
    requires Indexed(s)
    ensures Indexed(AliveNode(s, a, bootstrap, random))
  {
    if !(s.leave && a.node == s.self) {
      var known := if a.node in s.table then s else Insert(s, a, random);
      if a.node !in s.table {
        InsertKeepsIndexed(s, a, random);
      }
      HeardKeepsIndex(known, known.table[a.node], a, bootstrap);
      SameIndexKeeps(known, Heard(known, known.table[a.node], a, bootstrap));
    }
  }

  lemma HeardKeepsIndex(s: State, e: Entry, a: AliveMsg, bootstrap: bool)
    requires a.node in s.table
    ensures SameIndex(s, Heard(s, e, a, bootstrap))
  {
  }

  lemma ResetKeepsIndexed(s: State, shuffled: seq<string>)
    requires Indexed(s) && multiset(shuffled) == multiset(Survivors(s.table, s.order))
    ensures Indexed(ResetNodes(s, shuffled))
  {
    SurvivorsAre(s.table, s.order);
    PermutationHasNoDuplicates(Survivors(s.table, s.order), shuffled);
  }

  /** Every step keeps the list and the map in agreement. */
  lemma StepKeepsIndexed(s: State, e: Event)
    requires Indexed(s) && Enabled(s, e)
    ensures Indexed(Step(s, e))
  {
    match e
    case Receive(a, random) => AliveKeepsIndexed(s, a, false, random);
    case Reset(shuffled) => ResetKeepsIndexed(s, shuffled);
    case Update(i) =>
      AliveKeepsIndexed(s.(updates := s.updates[..i] + s.updates[i + 1..]), s.updates[i], true, 0);
    case _ =>
      OtherStepsKeepIndex(s, e);
      SameIndexKeeps(s, Step(s, e));
  }

  lemma OtherStepsKeepIndex(s: State, e: Event)
    requires Enabled(s, e) && !e.Receive? && !e.Reset? && !e.Update?
    ensures SameIndex(s, Step(s, e))
  {
  }

  lemma {:induction false} TracePrepend(s: State, e: Event, states: seq<State>, events: seq<Event>)
    requires Trace(states, events) && Enabled(s, e) && states[0] == Step(s, e)
    ensures Trace([s] + states, [e] + events)
  {
    var all, es := [s] + states, [e] + events;
    forall i | 0 <= i < |es| ensures Enabled(all[i], es[i]) && all[i + 1] == Step(all[i], es[i]) {
      if i > 0 {
        var k := i - 1;
        assert es[i] == events[k] && all[i] == states[k] && all[i + 1] == states[k + 1];
      }
    }
  }

  lemma {:induction false} Preceded(s: State, e: Event, states: seq<State>, events: seq<Event>)
    returns (all: seq<State>, es: seq<Event>)
    requires Trace(states, events) && Enabled(s, e) && states[0] == Step(s, e)
    ensures Trace(all, es) && es == [e] + events && all[0] == s && all[|es|] == states[|events|]
  {
    TracePrepend(s, e, states, events);
    all, es := [s] + states, [e] + events;
  }

  lemma {:induction false} TraceJoin(states: seq<State>, events: seq<Event>, more: seq<State>, es: seq<Event>)
    requires Trace(states, events) && Trace(more, es) && more[0] == states[|events|]
    ensures Trace(states + more[1..], events + es)
  {
    var all, both := states + more[1..], events + es;
    forall i | 0 <= i < |both| ensures Enabled(all[i], both[i]) && all[i + 1] == Step(all[i], both[i]) {
      if i < |events| {
        assert both[i] == events[i] && all[i] == states[i] && all[i + 1] == states[i + 1];
      } else {
        var k := i - |events|;
        assert both[i] == es[k] && all[i] == more[k] && all[i + 1] == more[k + 1];
      }
    }
  }

  lemma {:induction false} RunKeepsIndexed(states: seq<State>, events: seq<Event>, k: nat)
    requires Run(states, events) && k < |states|
    ensures Indexed(states[k])
  {
    if k != 0 {
      RunKeepsIndexed(states, events, k - 1);
      StepKeepsIndexed(states[k - 1], events[k - 1]);
    }
  }

  // ----- Lexicographic progress of remote entries

  function Rank(status: Status): nat {
    match status
    case Alive => 0
    case Suspect => 1
    case Dead => 2
  }

  /** Incarnation first, then alive before suspect before dead. */
  predicate Below(inc: nat, rank: nat, inc': nat, rank': nat) {
    inc < inc' || (inc == inc' && rank < rank')
  }

  predicate Raised(e: Entry, e': Entry) {
    Below(e.inc, Rank(e.status), e'.inc, Rank(e'.status))
  }

  predicate KeptOrRaised(e: Entry, e': Entry) {
    e' == e || Raised(e, e')
  }

  lemma KeptOrRaisedTransitive(a: Entry, b: Entry, c: Entry)
    requires KeptOrRaised(a, b) && KeptOrRaised(b, c)
    ensures KeptOrRaised(a, c)
  {
  }

  lemma AliveRaises(s: State, a: AliveMsg, bootstrap: bool, random: nat, n: string)
    requires n != s.self && n in s.table
    ensures var s' := AliveNode(s, a, bootstrap, random); n in s'.table && KeptOrRaised(s.table[n], s'.table[n])
  {
  }

  lemma SuspectRaises(s: State, c: Claim, n: string)
    requires n != s.self && n in s.table
    ensures var s' := SuspectNode(s, c); n in s'.table && KeptOrRaised(s.table[n], s'.table[n])
  {
  }

  lemma DeadRaises(s: State, c: Claim, n: string)
    requires n != s.self && n in s.table
    ensures var s' := DeadNode(s, c); n in s'.table && KeptOrRaised(s.table[n], s'.table[n])
  {
  }

  lemma OthersRaise(s: State, e: Event, n: string)
    requires Enabled(s, e) && (e.Reset? || e.Take? || e.Leaving?) && n in s.table && n in Step(s, e).table
    ensures Step(s, e).table[n] == s.table[n]
  {
  }

  /** While a remote entry stays in the table, a step leaves it alone or strictly raises it. */
  lemma StepRaises(s: State, e: Event, n: string)
    requires Enabled(s, e) && n != s.self && n in s.table && n in Step(s, e).table
    ensures KeptOrRaised(s.table[n], Step(s, e).table[n])
  {
    match e
    case Receive(a, random) => AliveRaises(s, a, false, random, n);
    case Suspected(c) => SuspectRaises(s, c, n);
    case Died(c) => DeadRaises(s, c, n);
    case Fired(t) =>
      if Current(s, t) {
        DeadRaises(s.(timers := s.timers - {t}), Claim(s.table[t.node].inc, t.node, s.self), n);
      }
    case Update(i) => AliveRaises(s.(updates := s.updates[..i] + s.updates[i + 1..]), s.updates[i], true, 0, n);
    case Left => DeadRaises(s.(departing := None), s.departing.value, n);
    case _ => OthersRaise(s, e, n);
  }

  ghost predicate OwnUpdates(s: State) {
    && (forall u :: u in s.updates ==> u.node == s.self && |u.vsn| == 6)
    && (s.departing.Some? ==> s.departing.value.node == s.self && s.leave)
  }

  lemma StepKeepsOwnUpdates(s: State, e: Event)
    requires Enabled(s, e) && OwnUpdates(s)
    ensures OwnUpdates(Step(s, e)) && Step(s, e).self == s.self
  {
    match e
    case Receive(a, random) => AliveFrame(s, a, false, random);
    case Update(i) => AliveFrame(s.(updates := s.updates[..i] + s.updates[i + 1..]), s.updates[i], true, 0);
    case _ =>
  }

  lemma AliveFrame(s: State, a: AliveMsg, bootstrap: bool, random: nat)
    ensures var s' := AliveNode(s, a, bootstrap, random);
      s'.self == s.self && s'.leave == s.leave && s'.updates == s.updates && s'.departing == s.departing
  {
  }

  lemma {:induction false} TraceKeepsOwnUpdates(states: seq<State>, events: seq<Event>, i: nat, j: nat)
    requires Trace(states, events) && i <= j < |states| && OwnUpdates(states[i])
    ensures OwnUpdates(states[j]) && states[j].self == states[i].self
    decreases j
  {
    if i < j {
      TraceKeepsOwnUpdates(states, events, i, j - 1);
      StepKeepsOwnUpdates(states[j - 1], events[j - 1]);
    }
  }

  ghost predicate Stays(states: seq<State>, n: string, i: nat, j: nat)
    requires i <= j < |states|
  {
    forall k :: i <= k <= j ==> n in states[k].table
  }

  lemma {:induction false} TraceStepRaises(states: seq<State>, events: seq<Event>, n: string, k: nat)
    requires Trace(states, events) && k < |events| && OwnUpdates(states[k])
    requires n != states[k].self && n in states[k].table && n in states[k + 1].table
    ensures KeptOrRaised(states[k].table[n], states[k + 1].table[n])
  {
    StepRaises(states[k], events[k], n);
  }

  lemma {:induction false} TraceRaises(states: seq<State>, events: seq<Event>, n: string, i: nat, j: nat)
    requires Trace(states, events) && i <= j < |states| && OwnUpdates(states[i])
    requires n != states[i].self && Stays(states, n, i, j)
    ensures KeptOrRaised(states[i].table[n], states[j].table[n])
    decreases j
  {
    if i < j {
      var k := j - 1;
      TraceRaises(states, events, n, i, k);
      TraceKeepsOwnUpdates(states, events, i, k);
      assert n in states[k].table && n in states[j].table;
      TraceStepRaises(states, events, n, k);
      KeptOrRaisedTransitive(states[i].table[n], states[k].table[n], states[j].table[n]);
    }
  }

  // ----- A message is accepted at most once

  predicate IsMessage(e: Event) {
    e.Receive? || e.Suspected? || e.Died?
  }

  function Subject(e: Event): string
    requires IsMessage(e)
  {
    if e.Receive? then e.a.node else e.c.node
  }

  function ClaimedInc(e: Event): nat
    requires IsMessage(e)
  {
    if e.Receive? then e.a.inc else e.c.inc
  }

  function ClaimedRank(e: Event): nat
    requires IsMessage(e)
  {
    if e.Receive? then 0 else if e.Suspected? then 1 else 2
  }

  /** Accepting a message is passing it on. */
  predicate Accepts(s: State, e: Event)
    requires Enabled(s, e)
  {
    Step(s, e).log != s.log
  }

  lemma AcceptedSetsLevel(s: State, e: Event)
    requires Enabled(s, e) && IsMessage(e) && Subject(e) != s.self
    requires Accepts(s, e) && Step(s, e).mode == Running
    ensures Subject(e) in Step(s, e).table
    ensures var e' := Step(s, e).table[Subject(e)]; e'.inc == ClaimedInc(e) && Rank(e'.status) == ClaimedRank(e)
  {
  }

  /** A remote message is passed on exactly when it is strictly above what is known of its subject, except
      that a suspect message needs an alive subject, and an alive one a higher incarnation and no address conflict. */
  lemma AcceptsIff(s: State, e: Event)
    requires Enabled(s, e) && IsMessage(e) && Subject(e) != s.self && Subject(e) in s.table
    ensures var known := s.table[Subject(e)];
      Accepts(s, e) <==>
        match e
        case Receive(a, _) => known.inc < a.inc && known.addr == a.addr && known.port == a.port
        case Suspected(c) => known.inc <= c.inc && known.status == Alive
        case Died(c) => known.inc <= c.inc && known.status != Dead
        case _ => false
    ensures Accepts(s, e) ==>
      Below(s.table[Subject(e)].inc, Rank(s.table[Subject(e)].status), ClaimedInc(e), ClaimedRank(e))
  {
    assert forall b: Broadcast :: (s.log + [b])[|s.log|] == b;
  }

  /** Once a message about a remote node is accepted, no message about that node that claims the same or
      less is ever accepted again while the node stays in the table, in whatever order gossip delivers. */
  lemma {:induction false} AcceptedAtMostOnce(states: seq<State>, events: seq<Event>, i: nat, j: nat)
    requires Run(states, events) && i < j < |events|
    requires IsMessage(events[i]) && IsMessage(events[j]) && Subject(events[i]) == Subject(events[j])
    requires Subject(events[i]) != states[i].self && Stays(states, Subject(events[i]), i + 1, j)
    requires Accepts(states[i], events[i])
    requires !Below(ClaimedInc(events[i]), ClaimedRank(events[i]), ClaimedInc(events[j]), ClaimedRank(events[j]))
    ensures !Accepts(states[j], events[j])
  {
    var n := Subject(events[i]);
    TraceKeepsOwnUpdates(states, events, 0, i + 1);
    TraceKeepsOwnUpdates(states, events, 0, i);
    TraceKeepsOwnUpdates(states, events, i + 1, j);
    assert Enabled(states[i + 1], events[i + 1]);
    AcceptedSetsLevel(states[i], events[i]);
    TraceRaises(states, events, n, i + 1, j);
    AcceptsIff(states[j], events[j]);
  }
}
