/** Failure detection's walk over the node list. */
module MembershipProbing {
  import opened Wrappers
  import opened Membership
  import opened MembershipProofs

  /** One run over the list within a probe call: how many slots it may skip, and what it sees. */
  datatype Scan = Scan(budget: nat, table: map<string, Entry>)

  function Minus(n: nat, k: nat): nat {
    if k < n then n - k else 0
  }

  predicate Eligible(self: string, table: map<string, Entry>, n: string) {
    n != self && n in table && table[n].status != Dead
  }

  /** Where the run stops. It passes over the local node and the dead, and ends with the first
      node to probe, with its budget, or with the list. */
  function StopsAt(self: string, order: seq<string>, index: nat, c: Scan): (i: nat)
    ensures index <= i
    ensures index <= |order| ==> i <= |order|
    decreases c.budget
  {
    if index >= |order| || c.budget == 0 then index
    else if Eligible(self, c.table, order[index]) then index + 1
    else StopsAt(self, order, index + 1, c.(budget := c.budget - 1))
  }

  function Probed(self: string, order: seq<string>, index: nat, c: Scan): Option<string>
    decreases c.budget
  {
    if index >= |order| || c.budget == 0 then None
    else if Eligible(self, c.table, order[index]) then Some(order[index])
    else Probed(self, order, index + 1, c.(budget := c.budget - 1))
  }

  /** The index and the node a run ends with. */
  function Outcome(self: string, order: seq<string>, index: nat, c: Scan): (nat, Option<string>) {
    (StopsAt(self, order, index, c), Probed(self, order, index, c))
  }

  /** A walk from a slot of a node's own list, after so many slots were checked already. */
  function Walked(s: State, index: nat, checked: nat): (nat, Option<string>) {
    Outcome(s.self, s.order, index, Scan(Minus(|s.order|, checked), s.table))
  }

  /** How many slots a call's first walk passes. */
  function Checked(s: State, index: nat): int {
    Walked(s, index, 0).0 - index
  }

  /** What one probe call does to the node, the probe index and the choice of a target: either the first walk
      settles it, or the list is reaped and reshuffled and a second walk starts at its front. */
  ghost predicate ProbeStep(s: State, index: nat, s': State, index': nat, target: Option<string>) {
    if Walked(s, index, 0).1.Some? || Checked(s, index) >= |s.order| then
      s' == s && (index', target) == Walked(s, index, 0)
    else
      && s' == ResetNodes(s, s'.order)
      && multiset(s'.order) == multiset(Survivors(s.table, s.order))
      && (index', target) == Walked(s', 0, Checked(s, index) + 1)
  }

  lemma ProbeStays(s: State, index: nat, index': nat, target: Option<string>)
    requires (index', target) == Walked(s, index, 0)
    requires target.Some? || index' - index >= |s.order|
    ensures ProbeStep(s, index, s, index', target)
  {
  }

  lemma ProbeWraps(s: State, index: nat, at: nat, seen: nat, s': State, index': nat, target: Option<string>)
    requires Walked(s, index, 0) == (at, None) && seen == at - index < |s.order|
    requires s' == ResetNodes(s, s'.order) && multiset(s'.order) == multiset(Survivors(s.table, s.order))
    requires (index', target) == Walked(s', 0, seen + 1)
    ensures ProbeStep(s, index, s', index', target)
  {
  }

  /** A call never picks the local node or a dead one. */
  lemma TargetIsEligible(s: State, index: nat, s': State, index': nat, target: Option<string>)
    requires ProbeStep(s, index, s', index', target) && index <= |s.order| && target.Some?
    ensures target.value != s'.self && target.value in s'.table && s'.table[target.value].status != Dead
    ensures target.value in s'.order
  {
    ProbedIsPassed(s.self, s.order, index, Scan(|s.order|, s.table));
    ProbedIsPassed(s'.self, s'.order, 0, Scan(Minus(|s'.order|, Checked(s, index) + 1), s'.table));
  }

  lemma OutcomeUnfolds(self: string, order: seq<string>, index: nat, next: nat, c: Scan)
    requires index < |order| && 0 < c.budget && next == index + 1
    ensures Outcome(self, order, index, c) ==
      if Eligible(self, c.table, order[index]) then (next, Some(order[index]))
      else Outcome(self, order, next, Scan(c.budget - 1, c.table))
  {
  }

  lemma OutcomeEnds(self: string, order: seq<string>, index: nat, c: Scan)
    requires index >= |order| || c.budget == 0
    ensures Outcome(self, order, index, c) == (index, None)
  {
  }

  /** A slot a run passes is probed exactly when its node is eligible, and then it is the last one passed. */
  lemma {:induction false} PassedSlot(self: string, order: seq<string>, index: nat, c: Scan, k: nat)
    requires index <= k < StopsAt(self, order, index, c) && index <= |order|
    ensures k < |order|
    ensures Eligible(self, c.table, order[k]) ==>
      k + 1 == StopsAt(self, order, index, c) && Probed(self, order, index, c) == Some(order[k])
    ensures !Eligible(self, c.table, order[k]) && NoDuplicates(order) ==>
      Probed(self, order, index, c) != Some(order[k])
    decreases c.budget
  {
    if !Eligible(self, c.table, order[index]) {
      var rest := c.(budget := c.budget - 1);
      if k > index {
        PassedSlot(self, order, index + 1, rest, k);
      } else {
        ProbedIsPassed(self, order, index + 1, rest);
      }
    }
  }

  lemma {:induction false} ProbedIsPassed(self: string, order: seq<string>, index: nat, c: Scan)
    requires index <= |order|
    ensures var i := StopsAt(self, order, index, c);
      match Probed(self, order, index, c)
      case None => true
      case Some(n) => index < i && n == order[i - 1] && Eligible(self, c.table, n)
    decreases c.budget
  {
    if index < |order| && c.budget != 0 && !Eligible(self, c.table, order[index]) {
      ProbedIsPassed(self, order, index + 1, c.(budget := c.budget - 1));
    }
  }

  // ----- A round: all runs between two resets of the list

  function IndexAfter(self: string, order: seq<string>, runs: seq<Scan>): (i: nat)
    ensures i <= |order|
  {
    if runs == [] then 0
    else StopsAt(self, order, IndexAfter(self, order, runs[..|runs| - 1]), runs[|runs| - 1])
  }

  /** How often a node is probed in the round. */
  function TimesProbed(self: string, order: seq<string>, runs: seq<Scan>, n: string): nat {
    if runs == [] then 0
    else
      var before := runs[..|runs| - 1];
      TimesProbed(self, order, before, n) + Hits(self, order, before, runs[|runs| - 1], n)
  }

  /** 1 when the next run probes this node. */
  function Hits(self: string, order: seq<string>, before: seq<Scan>, c: Scan, n: string): nat {
    if Probed(self, order, IndexAfter(self, order, before), c) == Some(n) then 1 else 0
  }

  lemma {:induction false} NotYetProbed(self: string, order: seq<string>, runs: seq<Scan>, k: nat)
    requires NoDuplicates(order) && IndexAfter(self, order, runs) <= k < |order|
    ensures TimesProbed(self, order, runs, order[k]) == 0
  {
    if runs != [] {
      var before, last := runs[..|runs| - 1], runs[|runs| - 1];
      NotYetProbed(self, order, before, k);
      ProbedIsPassed(self, order, IndexAfter(self, order, before), last);
    }
  }

  /** Between two resets every slot is visited by exactly one run, and the node in it is probed exactly once in
      the whole round when it is remote and not dead at that visit, and never otherwise. */
  lemma {:induction false} ProbedExactlyOnce(self: string, order: seq<string>, runs: seq<Scan>, k: nat) returns (j: nat)
    requires NoDuplicates(order) && k < IndexAfter(self, order, runs)
    ensures j < |runs| && IndexAfter(self, order, runs[..j]) <= k < IndexAfter(self, order, runs[..j + 1])
    ensures TimesProbed(self, order, runs, order[k]) == if Eligible(self, runs[j].table, order[k]) then 1 else 0
  {
    var last := |runs| - 1;
    var before := runs[..last];
    var at := IndexAfter(self, order, before);
    if k < at {
      j := ProbedExactlyOnce(self, order, before, k);
      assert before[..j] == runs[..j] && before[..j + 1] == runs[..j + 1];
      ProbedIsPassed(self, order, at, runs[last]);
    } else {
      j := last;
      assert runs[..j + 1] == runs;
      NotYetProbed(self, order, before, k);
      PassedSlot(self, order, at, runs[last], k);
    }
  }

  lemma {:induction false} VisitedByOneRun(self: string, order: seq<string>, runs: seq<Scan>, k: nat, i: nat, j: nat)
    requires i < |runs| && IndexAfter(self, order, runs[..i]) <= k < IndexAfter(self, order, runs[..i + 1])
    requires j < |runs| && IndexAfter(self, order, runs[..j]) <= k < IndexAfter(self, order, runs[..j + 1])
    ensures i == j
  {
    if i < j {
      IndexNeverFallsBack(self, order, runs, i + 1, j);
    } else if j < i {
      IndexNeverFallsBack(self, order, runs, j + 1, i);
    }
  }

  /** The visiting runs are ordered like the slots, so no slot is visited by two of them. */
  lemma {:induction false} IndexNeverFallsBack(self: string, order: seq<string>, runs: seq<Scan>, i: nat, j: nat)
    requires i <= j <= |runs|
    ensures IndexAfter(self, order, runs[..i]) <= IndexAfter(self, order, runs[..j])
    decreases j
  {
    if i < j {
      IndexNeverFallsBack(self, order, runs, i, j - 1);
      assert runs[..j][..j - 1] == runs[..j - 1];
    }
  }

  // ----- The calls of a round

  /** A probe call: the state and the probe index before and after it, and what it probes. */
  datatype Call = Call(s: State, index: nat, s': State, index': nat, target: Option<string>)

  /** The call reaches the end of the list and resets it. */
  predicate Wraps(c: Call) {
    Walked(c.s, c.index, 0).1.None? && Checked(c.s, c.index) < |c.s.order|
  }

  /** The calls from one that resets the list up to the next one that does. In between, states may change
      but no node joins. */
  ghost predicate Round(calls: seq<Call>) {
    && |calls| >= 2
    && (forall i :: 0 <= i < |calls| ==>
          ProbeStep(calls[i].s, calls[i].index, calls[i].s', calls[i].index', calls[i].target))
    && (forall i :: 0 <= i < |calls| ==> (Wraps(calls[i]) <==> i == 0 || i == |calls| - 1))
    && (forall i :: 0 < i < |calls| ==> Continues(calls[0].s', calls[i - 1].index', calls[i]))
  }

  predicate Continues(start: State, index: nat, c: Call) {
    c.s.self == start.self && c.s.order == start.order && c.index == index
  }

  /** The part of the j-th call that belongs to the round as a walk: what is left of the budget after the reset in
      the first call, and the walk from where the one before stopped in the others. */
  function Part(calls: seq<Call>, j: nat): Scan
    requires j < |calls|
  {
    var c := calls[j];
    if j == 0 then Scan(Minus(|c.s'.order|, Checked(c.s, c.index) + 1), c.s'.table) else Scan(|c.s.order|, c.s.table)
  }

  function Parts(calls: seq<Call>, n: nat): (runs: seq<Scan>)
    requires n <= |calls|
    ensures |runs| == n
    ensures forall j :: 0 <= j < n ==> runs[j] == Part(calls, j)
  {
    if n == 0 then [] else Parts(calls, n - 1) + [Part(calls, n - 1)]
  }

  lemma {:induction false} PartsPrefix(calls: seq<Call>, m: nat, n: nat)
    requires m <= n <= |calls|
    ensures Parts(calls, n)[..m] == Parts(calls, m)
  {
    forall j | 0 <= j < m ensures Parts(calls, n)[j] == Parts(calls, m)[j] {
    }
  }

  /** The table that the j-th call sees. */
  function Seen(calls: seq<Call>, j: nat): map<string, Entry>
    requires j < |calls|
  {
    Part(calls, j).table
  }

  /** How often a node is probed in the round. The last call's target lies behind the next reset. */
  function Targeted(calls: seq<Call>, n: nat, name: string): nat
    requires n <= |calls|
  {
    if n == 0 then 0 else Targeted(calls, n - 1, name) + if calls[n - 1].target == Some(name) then 1 else 0
  }

  /** Where the first j calls of the round leave the probe index; the last one takes it to the end of the list. */
  function Border(calls: seq<Call>, j: nat): nat
    requires 0 < |calls| && j <= |calls|
  {
    if j == 0 then 0 else if j == |calls| then |calls[0].s'.order| else calls[j - 1].index'
  }

  /** The j-th call passes this slot. */
  predicate Visits(calls: seq<Call>, j: nat, k: nat)
    requires j < |calls|
  {
    Border(calls, j) <= k < Border(calls, j + 1)
  }

  lemma {:induction false} IndexAfterSnoc(self: string, order: seq<string>, runs: seq<Scan>, c: Scan)
    ensures IndexAfter(self, order, runs + [c]) == StopsAt(self, order, IndexAfter(self, order, runs), c)
    ensures forall n ::
      TimesProbed(self, order, runs + [c], n) == TimesProbed(self, order, runs, n) + Hits(self, order, runs, c, n)
  {
    assert (runs + [c])[..|runs|] == runs;
  }

  /** The walks of all but the last call move the index and probe as the calls do. */
  lemma {:induction false} PartsFollow(calls: seq<Call>, n: nat)
    requires Round(calls) && 0 < n < |calls|
    ensures var s, runs := calls[0].s', Parts(calls, n);
      && IndexAfter(s.self, s.order, runs) == calls[n - 1].index'
      && (forall name :: TimesProbed(s.self, s.order, runs, name) == Targeted(calls, n, name))
    decreases n
  {
    var s, c := calls[0].s', calls[n - 1];
    if n > 1 {
      PartsFollow(calls, n - 1);
      assert Continues(s, calls[n - 2].index', c);
    } else {
      assert Parts(calls, 0) == [] && c.s'.self == s.self;
    }
    IndexAfterSnoc(s.self, s.order, Parts(calls, n - 1), Part(calls, n - 1));
    assert Wraps(c) <==> n == 1;
  }

  /** A walk that finds nobody and still has budget has reached the end of the list. */
  lemma {:induction false} WrapReachesTheEnd(self: string, order: seq<string>, index: nat, c: Scan)
    requires index <= |order| && Probed(self, order, index, c).None?
    requires StopsAt(self, order, index, c) - index < c.budget
    ensures StopsAt(self, order, index, c) == |order|
    decreases c.budget
  {
    if index < |order| {
      WrapReachesTheEnd(self, order, index + 1, c.(budget := c.budget - 1));
    }
  }

  lemma {:induction false} LastWalk(calls: seq<Call>, c: Call, start: State, index: nat)
    requires Round(calls) && c == calls[|calls| - 1] && start == calls[0].s' && index == calls[|calls| - 2].index'
    requires index <= |start.order|
    ensures StopsAt(start.self, start.order, index, Scan(|c.s.order|, c.s.table)) == |start.order|
    ensures Probed(start.self, start.order, index, Scan(|c.s.order|, c.s.table)) == None
  {
    assert Continues(start, index, c) && Wraps(c);
    WrapReachesTheEnd(c.s.self, c.s.order, c.index, Scan(|c.s.order|, c.s.table));
  }

  /** A round passes the whole list. */
  lemma {:induction false} RoundIsComplete(calls: seq<Call>, last: nat, s: State, runs: seq<Scan>)
    requires Round(calls) && last == |calls| - 1 && s == calls[0].s' && runs == Parts(calls, |calls|)
    ensures IndexAfter(s.self, s.order, runs) == |s.order|
    ensures forall name :: TimesProbed(s.self, s.order, runs, name) == Targeted(calls, last, name)
  {
    PartsFollow(calls, last);
    LastWalk(calls, calls[last], s, calls[last - 1].index');
    IndexAfterSnoc(s.self, s.order, Parts(calls, last), Part(calls, last));
  }

  lemma {:induction false} BorderIs(calls: seq<Call>, j: nat, s: State, runs: seq<Scan>)
    requires Round(calls) && j <= |calls| && s == calls[0].s' && runs == Parts(calls, |calls|)
    ensures IndexAfter(s.self, s.order, runs[..j]) == Border(calls, j)
  {
    PartsPrefix(calls, j, |calls|);
    if j == |calls| {
      RoundIsComplete(calls, |calls| - 1, s, runs);
    } else if j > 0 {
      PartsFollow(calls, j);
    }
  }

  lemma {:induction false} VisitsIff(calls: seq<Call>, j: nat, k: nat, s: State, runs: seq<Scan>)
    requires Round(calls) && j < |calls| && s == calls[0].s' && runs == Parts(calls, |calls|)
    ensures Visits(calls, j, k) <==>
      IndexAfter(s.self, s.order, runs[..j]) <= k < IndexAfter(s.self, s.order, runs[..j + 1])
  {
    BorderIs(calls, j, s, runs);
    BorderIs(calls, j + 1, s, runs);
  }

  lemma {:induction false} OneVisitor(calls: seq<Call>, i: nat, j: nat, k: nat)
    requires Round(calls) && i < |calls| && j < |calls| && Visits(calls, i, k) && Visits(calls, j, k)
    ensures i == j
  {
    var s, runs := calls[0].s', Parts(calls, |calls|);
    VisitsIff(calls, i, k, s, runs);
    VisitsIff(calls, j, k, s, runs);
    VisitedByOneRun(s.self, s.order, runs, k, i, j);
  }

  lemma {:induction false} VisitorProbes(calls: seq<Call>, k: nat, s: State, n: string, times: nat) returns (j: nat)
    requires Round(calls) && s == calls[0].s' && NoDuplicates(s.order) && k < |s.order| && n == s.order[k]
    requires times == Targeted(calls, |calls| - 1, n)
    ensures j < |calls| && Visits(calls, j, k)
    ensures times == if Eligible(s.self, Seen(calls, j), n) then 1 else 0
  {
    var runs := Parts(calls, |calls|);
    RoundIsComplete(calls, |calls| - 1, s, runs);
    j := ProbedExactlyOnce(s.self, s.order, runs, k);
    VisitsIff(calls, j, k, s, runs);
  }

  /** Fair probing: between two resets of the list every slot is visited by exactly one call, and its node is probed
      exactly once in the round when it is remote and not dead at that visit, and never otherwise. */
  lemma {:induction false} ProbedOncePerRound(calls: seq<Call>, k: nat) returns (j: nat)
    requires Round(calls) && NoDuplicates(calls[0].s'.order) && k < |calls[0].s'.order|
    ensures j < |calls| && forall i :: 0 <= i < |calls| ==> (Visits(calls, i, k) <==> i == j)
    ensures var n, table := calls[0].s'.order[k], Seen(calls, j);
      Targeted(calls, |calls| - 1, n) ==
      if n != calls[0].s'.self && n in table && table[n].status != Dead then 1 else 0
    ensures Seen(calls, j) == if j == 0 then calls[0].s'.table else calls[j].s.table
  {
    var s := calls[0].s';
    j := VisitorProbes(calls, k, s, s.order[k], Targeted(calls, |calls| - 1, s.order[k]));
    forall i | 0 <= i < |calls| ensures Visits(calls, i, k) <==> i == j {
      if Visits(calls, i, k) {
        OneVisitor(calls, i, j, k);
      }
    }
  }
}
